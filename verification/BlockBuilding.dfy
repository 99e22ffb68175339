/**
 One node's block (chain/node.py `build_block`, chain/state.py `check_block`): what a node builds from its mempool, any
 node on the same state accepts.
 */
module BlockBuilding {
  import opened Basics
  import opened Ledger
  import opened Merging
  import opened SealAccumulator
  import opened Mempool
  import S = Seats
  import T = Transactions

  datatype Block = Block(height: int, prevHash: string, chainId: string, txIds: seq<string>, utxoRoot: seq<Seal>,
                         nfRoot: seq<Seal>, txs: seq<T.Transaction>)

  /** Where a node's chain stands. */
  datatype Tip = Tip(chainId: string, height: int, hash: string)

  function IdsOf(id: Naming, txs: seq<T.Transaction>): (r: seq<string>)
    ensures |r| == |txs| && forall i | 0 <= i < |r| :: r[i] == id(txs[i])
  {
    seq(|txs|, i requires 0 <= i < |txs| => id(txs[i]))
  }

  /** Each transaction fits the ledger the ones before it leave, and meets none of their inputs or nullifiers. */
  ghost predicate Runs(s: Ledger, txs: seq<T.Transaction>) {
    txs == [] ||
    var front, last := txs[..|txs| - 1], txs[|txs| - 1];
    && Runs(s, front) && RunAll(s, front).Some? && FitsLedger(RunAll(s, front).value, last)
    && ApplyTx(RunAll(s, front).value, last).Some?
    && Disjoint(FromTxs(front).spent, last.InputCms()) && Disjoint(FromTxs(front).nullifiers, last.Nullifiers())
  }

  lemma RunsOneMore(s: Ledger, txs: seq<T.Transaction>, tx: T.Transaction)
    requires Runs(s, txs) && RunAll(s, txs).Some? && FitsLedger(RunAll(s, txs).value, tx)
             && ApplyTx(RunAll(s, txs).value, tx).Some?
    requires Disjoint(FromTxs(txs).spent, tx.InputCms()) && Disjoint(FromTxs(txs).nullifiers, tx.Nullifiers())
    ensures Runs(s, txs + [tx]) && RunAll(s, txs + [tx]) == ApplyTx(RunAll(s, txs).value, tx)
    ensures FromTxs(txs + [tx]) == FromTxs(txs).Join(DeltaOf(tx))
  {
    assert (txs + [tx])[..|txs|] == txs;
  }

  /** What `check_block` accepts. */
  ghost predicate Checks(s: Ledger, tip: Tip, verify: T.Transaction -> bool, id: Naming, b: Block) {
    && b.chainId == tip.chainId && b.height == tip.height + 1 && b.prevHash == tip.hash
    && b.txIds == IdsOf(id, b.txs) && S.Distinct(IdsOf(id, b.txs))
    && (forall tx <- b.txs :: verify(tx)) && Runs(s, b.txs) && RunAll(s, b.txs).Some?
    && b.utxoRoot == RunAll(s, b.txs).value.utxo.Leaves("utxo")
    && b.nfRoot == RunAll(s, b.txs).value.nullifiers.Leaves("nf")
  }

  /** What a verified transaction may count on. */
  ghost predicate Sound(verify: T.Transaction -> bool) {
    forall tx {:trigger verify(tx)} :: verify(tx) ==> DeltaOf(tx).Distinct()
  }

  lemma FittingApplies(s: Ledger, tx: T.Transaction)
    requires s.Valid() && FitsLedger(s, tx) && DeltaOf(tx).Distinct()
    ensures ApplyTx(s, tx).Some? && ApplyTx(s, tx).value.Valid()
  {
    AppliesIff(s, DeltaOf(tx));
    ApplyKeepsValid(s, DeltaOf(tx));
  }

  /** The sets the loops collect hold what the chosen transactions spend and publish. */
  ghost predicate Used(chosen: seq<T.Transaction>, seenNf: set<string>, seenCm: set<string>) {
    && (forall v {:trigger v in seenCm} :: v in seenCm <==> v in FromTxs(chosen).spent)
    && (forall v {:trigger v in seenNf} :: v in seenNf <==> v in FromTxs(chosen).nullifiers)
  }

  lemma NothingUsed()
    ensures Used([], {}, {})
  {
  }

  lemma MeetsNothing(chosen: seq<T.Transaction>, seenNf: set<string>, seenCm: set<string>, tx: T.Transaction)
    requires Used(chosen, seenNf, seenCm) && (forall cm <- tx.InputCms() :: cm !in seenCm)
             && (forall nf <- tx.Nullifiers() :: nf !in seenNf)
    ensures Disjoint(FromTxs(chosen).spent, tx.InputCms()) && Disjoint(FromTxs(chosen).nullifiers, tx.Nullifiers())
  {
  }

  lemma UsedOneMore(chosen: seq<T.Transaction>, seenNf: set<string>, seenCm: set<string>, tx: T.Transaction)
    requires Used(chosen, seenNf, seenCm) && FromTxs(chosen + [tx]) == FromTxs(chosen).Join(DeltaOf(tx))
    ensures Used(chosen + [tx], seenNf + (set v | v in tx.Nullifiers()), seenCm + (set v | v in tx.InputCms()))
  {
    hide FromTxs;
  }

  // ---- what a walk over the mempool takes ----

  /** Each in turn, while there is room, if what was taken so far still runs with it. */
  ghost function Packed(s: Ledger, txs: seq<T.Transaction>, limit: Option<nat>): seq<T.Transaction> {
    if txs == [] then []
    else
      var before := Packed(s, txs[..|txs| - 1], limit);
      var more := before + [txs[|txs| - 1]];
      if (limit.Some? && |before| >= limit.value) || !Runs(s, more) then before else more
  }

  /** What comes first goes first, whatever comes later, and once there is no room nothing is added. */
  lemma {:induction false} PackedInOrder(s: Ledger, txs: seq<T.Transaction>, limit: Option<nat>, i: nat)
    requires i <= |txs|
    ensures Packed(s, txs[..i], limit) <= Packed(s, txs, limit)
    ensures limit.Some? && |Packed(s, txs[..i], limit)| >= limit.value ==>
              Packed(s, txs, limit) == Packed(s, txs[..i], limit)
  {
    hide Runs;
    if i == |txs| {
      assert txs[..i] == txs;
    } else {
      PackedInOrder(s, txs[..|txs| - 1], limit, i);
      assert txs[..|txs| - 1][..i] == txs[..i];
    }
  }

  /** A mempool whose transactions run one after another goes in whole, as far as there is room. */
  lemma {:induction false} AllPacked(s: Ledger, txs: seq<T.Transaction>, limit: Option<nat>)
    requires Runs(s, txs)
    ensures Packed(s, txs, limit) == if limit.Some? && |txs| > limit.value then txs[..limit.value] else txs
  {
    hide FitsLedger, RunAll, FromTxs, Apply;
    if txs != [] {
      var front := txs[..|txs| - 1];
      AllPacked(s, front, limit);
      assert front + [txs[|txs| - 1]] == txs;
      if limit.Some? && |front| >= limit.value {
        assert front[..limit.value] == txs[..limit.value];
      }
    }
  }

  lemma PackedNext(s: Ledger, txs: seq<T.Transaction>, limit: Option<nat>, i: nat)
    requires i < |txs|
    ensures var before := Packed(s, txs[..i], limit);
            Packed(s, txs[..i + 1], limit) ==
            if (limit.Some? && |before| >= limit.value)
               || !Runs(s, before + [txs[i]]) then before else before + [txs[i]]
  {
    hide Runs;
    assert txs[..i + 1][..i] == txs[..i];
  }

  lemma NothingPacked(s: Ledger, limit: Option<nat>)
    ensures Packed(s, [], limit) == []
  {
  }

  /** The test of the loop is whether the run goes on. */
  lemma GoesOnIff(s: Ledger, chosen: seq<T.Transaction>, tx: T.Transaction, shadow: Ledger, seenNf: set<string>,
                  seenCm: set<string>)
    requires Runs(s, chosen) && RunAll(s, chosen) == Some(shadow) && shadow.Valid() && DeltaOf(tx).Distinct()
    requires Used(chosen, seenNf, seenCm)
    ensures Runs(s, chosen + [tx])
            <==> && FitsLedger(shadow, tx) && (forall cm <- tx.InputCms() :: cm !in seenCm)
                 && forall nf <- tx.Nullifiers() :: nf !in seenNf
  {
    hide FitsLedger, RunAll, FromTxs, Apply, Ledger.Valid, Delta.Distinct, T.Transaction.InputCms;
    hide T.Transaction.Nullifiers;
    assert (chosen + [tx])[..|chosen|] == chosen;
    if FitsLedger(shadow, tx) {
      FittingApplies(shadow, tx);
    }
  }

  /** The transactions held, in the order they came. */
  function InOrder(order: seq<string>, held: map<string, T.Transaction>): (r: seq<T.Transaction>)
    requires forall k <- order :: k in held
    ensures |r| == |order| && forall i | 0 <= i < |r| :: r[i] == held[order[i]]
  {
    seq(|order|, i requires 0 <= i < |order| => held[order[i]])
  }

  /** Behind what was taken the next one that passes the test runs too. */
  lemma TakeNext(s: Ledger, chosen: seq<T.Transaction>, tx: T.Transaction, shadow: Ledger, seenNf: set<string>,
                 seenCm: set<string>)
    requires Runs(s, chosen) && RunAll(s, chosen) == Some(shadow) && shadow.Valid() && DeltaOf(tx).Distinct()
    requires Used(chosen, seenNf, seenCm) && Runs(s, chosen + [tx])
    ensures ApplyTx(shadow, tx).Some? && ApplyTx(shadow, tx).value.Valid()
    ensures RunAll(s, chosen + [tx]) == ApplyTx(shadow, tx)
    ensures Used(chosen + [tx], seenNf + (set v | v in tx.Nullifiers()), seenCm + (set v | v in tx.InputCms()))
  {
    hide FitsLedger, FromTxs, Apply, Ledger.Valid, Delta.Distinct, Used;
    assert (chosen + [tx])[..|chosen|] == chosen;
    FittingApplies(shadow, tx);
    RunsOneMore(s, chosen, tx);
    UsedOneMore(chosen, seenNf, seenCm, tx);
  }

  /** What is packed runs, is of the mempool, each id once, and keeps to the limit. */
  lemma {:induction false} PackedIs(s: Ledger, id: Naming, order: seq<string>, held: map<string, T.Transaction>,
                                    limit: Option<nat>, i: nat)
    requires S.Distinct(order) && (forall k <- order :: k in held && id(held[k]) == k) && i <= |order|
    ensures var chosen := Packed(s, InOrder(order, held)[..i], limit);
            && Runs(s, chosen) && S.Distinct(IdsOf(id, chosen)) && (limit.Some? ==> |chosen| <= limit.value)
            && forall tx <- chosen :: id(tx) in order[..i] && id(tx) in held && held[id(tx)] == tx
  {
    hide Runs, Packed;
    var all := InOrder(order, held);
    if i == 0 {
      NothingPacked(s, limit);
      NothingRuns(s);
      assert all[..0] == [];
    } else {
      PackedIs(s, id, order, held, limit, i - 1);
      PackedNext(s, all, limit, i - 1);
      assert order[i - 1] in order && order[..i] == order[..i - 1] + [order[i - 1]];
      IdsOneMore(id, Packed(s, all[..i - 1], limit), all[i - 1], order, i - 1);
    }
  }

  /** Walk the mempool in order and take what fits behind what was taken. The block passes the check of any node on the
      same state. */
  method BuildBlock(n: Node, s: Ledger, tip: Tip, verify: T.Transaction -> bool, limit: Option<nat>) returns (b: Block)
    requires n.Listed() && s.Valid() && Sound(verify) && forall k {:trigger n.held[k]} :: k in n.held ==>
             verify(n.held[k])
    ensures Checks(s, tip, verify, n.id, b)
    ensures (forall tx <- b.txs :: n.id(tx) in n.held && n.held[n.id(tx)] == tx)
            && (limit.Some? ==> |b.txs| <= limit.value)
    ensures (forall k <- n.order :: k in n.held) && b.txs == Packed(s, InOrder(n.order, n.held), limit)
  {
    hide FitsLedger, Ledger.Valid, Delta.Distinct, Apply, Pool.Indexed, Checks, Used, Runs, FromTxs, Disjoint, Packed;
    hide RunAll, T.Transaction.InputCms, T.Transaction.Nullifiers;
    NothingUsed();
    NothingRuns(s);
    NothingPacked(s, limit);
    ghost var all := InOrder(n.order, n.held);
    assert all[..0] == [];
    var shadow := s;
    var chosen: seq<T.Transaction> := [];
    var seenNf: set<string>, seenCm: set<string> := {}, {};
    for i := 0 to |n.order|
      invariant shadow.Valid() && Runs(s, chosen) && RunAll(s, chosen) == Some(shadow)
      invariant Used(chosen, seenNf, seenCm)
      invariant chosen == Packed(s, all[..i], limit)
    {
      PackedInOrder(s, all, limit, i);
      PackedNext(s, all, limit, i);
      if limit.Some? && |chosen| >= limit.value {
        break;
      }
      assert n.order[i] in n.order;
      var tx := n.held[n.order[i]];
      GoesOnIff(s, chosen, tx, shadow, seenNf, seenCm);
      if !FitsLedger(shadow, tx) || (exists cm <- tx.InputCms() :: cm in seenCm)
         || (exists nf <- tx.Nullifiers() :: nf in seenNf) {
        continue;
      }
      TakeNext(s, chosen, tx, shadow, seenNf, seenCm);
      chosen := chosen + [tx];
      shadow := ApplyTx(shadow, tx).value;
      seenNf := seenNf + (set v | v in tx.Nullifiers());
      seenCm := seenCm + (set v | v in tx.InputCms());
    }
    assert all[..|all|] == all;
    PackedIs(s, n.id, n.order, n.held, limit, |n.order|);
    b := Block(tip.height + 1, tip.hash, tip.chainId, IdsOf(n.id, chosen), shadow.utxo.Leaves("utxo"),
               shadow.nullifiers.Leaves("nf"), chosen);
    Built(s, tip, verify, n.id, b, shadow);
  }

  lemma IdsOneMore(id: Naming, chosen: seq<T.Transaction>, tx: T.Transaction, order: seq<string>, i: nat)
    requires S.Distinct(order) && i < |order| && id(tx) == order[i] && S.Distinct(IdsOf(id, chosen))
             && forall t <- chosen :: id(t) in order[..i]
    ensures S.Distinct(IdsOf(id, chosen + [tx]))
  {
    forall j | 0 <= j < |chosen| ensures IdsOf(id, chosen + [tx])[j] != order[i] {
      assert chosen[j] in chosen;
    }
  }

  lemma Built(s: Ledger, tip: Tip, verify: T.Transaction -> bool, id: Naming, b: Block, shadow: Ledger)
    requires b.chainId == tip.chainId && b.height == tip.height + 1 && b.prevHash == tip.hash
    requires b.txIds == IdsOf(id, b.txs) && S.Distinct(b.txIds) && (forall tx <- b.txs :: verify(tx)) && Runs(s, b.txs)
             && RunAll(s, b.txs) == Some(shadow)
    requires b.utxoRoot == shadow.utxo.Leaves("utxo") && b.nfRoot == shadow.nullifiers.Leaves("nf")
    ensures Checks(s, tip, verify, id, b)
  {
  }

  /** The check itself: apply the block to a copy and compare. */
  method CheckBlock(s: Ledger, tip: Tip, verify: T.Transaction -> bool, id: Naming, b: Block) returns (ok: bool)
    requires s.Valid() && Sound(verify)
    ensures ok <==> Checks(s, tip, verify, id, b)
  {
    hide FitsLedger, Ledger.Valid, Delta.Distinct, Apply, Runs, RunAll, IdsOf, DomainLeaf, T.Transaction.Nullifiers;
    hide T.Transaction.InputCms, Dump.WellFormed, Dump.Leaves;
    if !(b.chainId == tip.chainId && b.height == tip.height + 1 && b.prevHash == tip.hash
         && b.txIds == IdsOf(id, b.txs)) {
      return false;
    }
    var twice := Repeated(b.txIds);
    if twice {
      return false;
    }
    var shadow := s;
    var seenNf: set<string>, seenCm: set<string> := {}, {};
    NothingRuns(s);
    NothingUsed();
    for i := 0 to |b.txs|
      invariant shadow.Valid() && Runs(s, b.txs[..i]) && RunAll(s, b.txs[..i]) == Some(shadow)
                && forall tx <- b.txs[..i] :: verify(tx)
      invariant Used(b.txs[..i], seenNf, seenCm)
    {
      var tx := b.txs[i];
      assert b.txs[..i + 1] == b.txs[..i] + [tx];
      if !verify(tx) {
        assert tx in b.txs;
        return false;
      }
      if !FitsLedger(shadow, tx) || (exists cm <- tx.InputCms() :: cm in seenCm)
         || (exists nf <- tx.Nullifiers() :: nf in seenNf) {
        StopsHere(s, b.txs, i);
        return false;
      }
      FittingApplies(shadow, tx);
      MeetsNothing(b.txs[..i], seenNf, seenCm, tx);
      RunsOneMore(s, b.txs[..i], tx);
      UsedOneMore(b.txs[..i], seenNf, seenCm, tx);
      shadow := ApplyTx(shadow, tx).value;
      seenNf := seenNf + (set v | v in tx.Nullifiers());
      seenCm := seenCm + (set v | v in tx.InputCms());
    }
    assert b.txs[..|b.txs|] == b.txs;
    return b.utxoRoot == shadow.utxo.Leaves("utxo") && b.nfRoot == shadow.nullifiers.Leaves("nf");
  }

  lemma NothingRuns(s: Ledger)
    ensures Runs(s, []) && RunAll(s, []) == Some(s)
  {
  }

  /** A run's prefixes run, so the first transaction that does not fit decides. */
  lemma {:induction false} StopsHere(s: Ledger, txs: seq<T.Transaction>, i: nat)
    requires i < |txs| && RunAll(s, txs[..i]).Some?
    ensures Runs(s, txs) ==>
              && FitsLedger(RunAll(s, txs[..i]).value, txs[i])
              && Disjoint(FromTxs(txs[..i]).spent, txs[i].InputCms())
              && Disjoint(FromTxs(txs[..i]).nullifiers, txs[i].Nullifiers())
    decreases |txs|
  {
    hide FitsLedger, Disjoint, Apply;
    var front := txs[..|txs| - 1];
    if i < |front| {
      assert front[..i] == txs[..i];
      StopsHere(s, front, i);
    } else {
      assert txs[..i] == front;
    }
  }

  method Repeated(ids: seq<string>) returns (yes: bool)
    ensures yes <==> !S.Distinct(ids)
  {
    var seen: set<string> := {};
    for i := 0 to |ids|
      invariant S.Distinct(ids[..i]) && forall x :: x in seen <==> x in ids[..i]
    {
      assert ids[..i + 1] == ids[..i] + [ids[i]];
      if ids[i] in seen {
        var j :| 0 <= j < i && ids[..i][j] == ids[i];
        assert ids[j] == ids[i];
        return true;
      }
      seen := seen + {ids[i]};
    }
    assert ids[..|ids|] == ids;
    return false;
  }
}
