/**
 The validating state of one node (chain/state.py, `ChainState`): two accumulators and the spine, changed in
 place.
 */
module ChainState {
  import opened Basics
  import opened SealAccumulator
  import opened SealTheorems
  import opened Ledger
  import opened Merging
  import opened Records
  import HeaderHistory
  import T = Transactions

  method SpendAll(acc: SealAccumulator, values: seq<string>) returns (ok: bool)
    requires acc.Valid()
    modifies acc, acc.witnessTree
    ensures acc.Valid() && acc.witnessTree == old(acc.witnessTree)
    ensures ok <==> SpentAll(old(acc.State()), values).Some?
    ensures ok ==> acc.State() == SpentAll(old(acc.State()), values).value
  {
    hide Dump.Leaves, Dump.Witnessed, SpentAll, Spent, SealAccumulator.Valid;
    NothingSpent(acc.State(), values);
    for i := 0 to |values|
      invariant acc.Valid() && acc.witnessTree == old(acc.witnessTree)
      invariant SpentAll(old(acc.State()), values[..i]) == Some(acc.State())
    {
      SpentNext(old(acc.State()), values, i, acc.State());
      var r := acc.Spend(values[i]);
      if !r.Done? {
        SpentAllStops(old(acc.State()), values, i + 1);
        return false;
      }
    }
    assert values[..|values|] == values;
    return true;
  }

  lemma NothingSpent(d: Dump, values: seq<string>)
    ensures SpentAll(d, values[..0]) == Some(d)
  {
  }

  lemma SpentNext(d: Dump, values: seq<string>, i: nat, now: Dump)
    requires i < |values| && SpentAll(d, values[..i]) == Some(now)
    ensures SpentAll(d, values[..i + 1]) == Spent(now, values[i])
  {
    assert values[..i + 1][..i] == values[..i];
  }

  lemma {:induction false} SpentAllStops(d: Dump, values: seq<string>, n: nat)
    requires n <= |values| && SpentAll(d, values[..n]).None?
    ensures SpentAll(d, values).None?
    decreases |values|
  {
    if n == |values| {
      assert values[..n] == values;
    } else {
      assert values[..|values| - 1][..n] == values[..n];
      SpentAllStops(d, values[..|values| - 1], n);
    }
  }

  /** Whether an accumulator of this height takes `more` values after `held`. */
  predicate HasRoom(height: nat, held: nat, more: nat) {
    more == 0 || held + more < Pow2(height)
  }

  /** The three loops of a delta come to their end: every step is taken and both trees have room. */
  ghost predicate Goes(d: Delta, s: Ledger, utxoHeight: nat, nfHeight: nat) {
    Apply(s, d).Some? && HasRoom(utxoHeight, |s.utxo.items|, |d.created|)
      && HasRoom(nfHeight, |s.nullifiers.items|, |d.nullifiers|)
  }

  method AddAll(acc: SealAccumulator, values: seq<string>) returns (ok: bool)
    requires acc.Valid()
    modifies acc, acc.witnessTree
    ensures acc.witnessTree == old(acc.witnessTree)
    ensures ok <==> AddedAll(old(acc.State()), values).Some? && HasRoom(acc.height, |old(acc.items)|, |values|)
    ensures ok ==> acc.Valid() && acc.State() == AddedAll(old(acc.State()), values).value
  {
    hide Dump.Leaves, Dump.Witnessed, AddedAll, Added, SealAccumulator.Indexed;
    NothingAdded(acc.State(), values);
    for i := 0 to |values|
      invariant acc.Valid() && acc.witnessTree == old(acc.witnessTree)
      invariant AddedAll(old(acc.State()), values[..i]) == Some(acc.State()) && |acc.items| == |old(acc.items)| + i
      invariant HasRoom(acc.height, |old(acc.items)|, i)
    {
      AddedNext(old(acc.State()), values, i, acc.State());
      var r := acc.Add(values[i]);
      if !r.Done? {
        if r.AlreadyPresent? {
          AddedAllStops(old(acc.State()), values, i + 1);
        }
        return false;
      }
    }
    assert values[..|values|] == values;
    return true;
  }

  lemma NothingAdded(d: Dump, values: seq<string>)
    ensures AddedAll(d, values[..0]) == Some(d)
  {
  }

  lemma AddedNext(d: Dump, values: seq<string>, i: nat, now: Dump)
    requires i < |values| && AddedAll(d, values[..i]) == Some(now)
    ensures AddedAll(d, values[..i + 1]) == Added(now, values[i])
    ensures Added(now, values[i]).Some? ==> |Added(now, values[i]).value.items| == |now.items| + 1
  {
    assert values[..i + 1][..i] == values[..i];
  }

  lemma {:induction false} AddedAllStops(d: Dump, values: seq<string>, n: nat)
    requires n <= |values| && AddedAll(d, values[..n]).None?
    ensures AddedAll(d, values).None?
    decreases |values|
  {
    if n == |values| {
      assert values[..n] == values;
    } else {
      assert values[..|values| - 1][..n] == values[..n];
      AddedAllStops(d, values[..|values| - 1], n);
    }
  }

  class ChainState {
    const chainId: string
    const utxo: SealAccumulator
    const nullifiers: SealAccumulator
    const history: HeaderHistory.HeaderHistory
    var height: int
    var tip: string
    var burned: int

    ghost function State(): Ledger
      reads this, utxo, nullifiers
    {
      Ledger(utxo.State(), nullifiers.State(), burned)
    }

    /** The parts are sound and share nothing. */
    ghost predicate Separate()
      reads this, utxo, utxo.witnessTree, nullifiers, nullifiers.witnessTree, history, history.tree
    {
      && utxo != nullifiers && utxo.witnessTree != nullifiers.witnessTree
      && utxo.Valid() && nullifiers.Valid() && history.Valid()
    }

    ghost predicate Valid()
      reads this, utxo, utxo.witnessTree, nullifiers, nullifiers.witnessTree, history, history.tree
    {
      Separate() && State().Valid()
    }

    constructor (chainId: string, witnessHeight: nat)
      ensures Valid() && this.chainId == chainId && height == -1 && tip == "genesis" && history.hashes == []
      ensures State() == Ledger(Dump([], {}), Dump([], {}), 0)
      ensures fresh(utxo) && fresh(utxo.witnessTree) && fresh(nullifiers) && fresh(nullifiers.witnessTree)
              && fresh(history) && fresh(history.tree)
    {
      this.chainId := chainId;
      utxo := new SealAccumulator("utxo", witnessHeight);
      nullifiers := new SealAccumulator("nf", witnessHeight);
      history := new HeaderHistory.HeaderHistory(witnessHeight);
      height, tip, burned := -1, "genesis", 0;
    }

    /** `copy`: the same state, sharing nothing. */
    constructor Copy(of: ChainState)
      requires of.Valid()
      ensures Valid() && State() == of.State() && history.hashes == of.history.hashes
      ensures chainId == of.chainId && height == of.height && tip == of.tip
      ensures utxo.height == of.utxo.height && nullifiers.height == of.nullifiers.height
              && history.height == of.history.height
      ensures fresh(utxo) && fresh(utxo.witnessTree) && fresh(nullifiers) && fresh(nullifiers.witnessTree)
              && fresh(history) && fresh(history.tree)
    {
      hide SealAccumulator.Valid, HeaderHistory.HeaderHistory.Valid;
      var notes := Clone(of.utxo);
      var published := Clone(of.nullifiers);
      chainId, utxo, nullifiers := of.chainId, notes, published;
      history := new HeaderHistory.HeaderHistory.Clone(of.history);
      height, tip, burned := of.height, of.tip, of.burned;
    }

    /** The two records of one fact, compared. */
    method CrossCheck() returns (ok: bool)
      ensures ok <==> Agree(State())
    {
      return |utxo.dead| == |nullifiers.items|;
    }

    /** Put a note into circulation outside any transaction; genesis only. */
    method Issue(cm: string) returns (ok: bool)
      requires Valid()
      modifies this, utxo, utxo.witnessTree
      ensures ok <==>
                old(height) < 0 && Added(old(utxo.State()), cm).Some? && HasRoom(utxo.height, |old(utxo.items)|, 1)
      ensures ok ==> Valid() && State() == old(State()).(utxo := Added(old(utxo.State()), cm).value)
    {
      if height >= 0 {
        return false;
      }
      AddedAllIs(utxo.State(), [cm]);
      assert [cm][..0] == [];
      assert AddedAll(utxo.State(), []) == Some(utxo.State());
      ok := AddAll(utxo, [cm]);
      if ok {
        AddedKeepsForm(old(utxo.State()), [cm]);
      }
    }

    /** `check_transaction`, the proof's verdict given; `seen` carries what the set so far has used. */
    method CheckTransaction(tx: T.Transaction, proven: bool, seenNf: set<string>, seenCm: set<string>)
      returns (ok: bool)
      requires Valid()
      ensures ok <==> && proven && FitsLedger(State(), tx)
                      && (forall cm <- tx.InputCms() :: cm !in seenCm) && forall nf <- tx.Nullifiers() :: nf !in seenNf
    {
      hide SealAccumulator.Valid, Dump.Witnessed;
      if !proven {
        return false;
      }
      for i := 0 to |tx.inputs|
        invariant forall j | 0 <= j < i :: State().utxo.Live(tx.InputCms()[j]) && tx.InputCms()[j] !in seenCm
      {
        var cm := tx.InputCms()[i];
        if !utxo.Contains(cm) || cm in seenCm {
          assert cm in tx.InputCms();
          return false;
        }
      }
      for i := 0 to |tx.inputs|
        invariant forall j | 0 <= j < i :: tx.Nullifiers()[j] !in nullifiers.items && tx.Nullifiers()[j] !in seenNf
      {
        var nf := tx.Nullifiers()[i];
        NeverDead(nf);
        if nullifiers.Contains(nf) || nf in seenNf {
          assert nf in tx.Nullifiers();
          return false;
        }
      }
      for i := 0 to |tx.outputs|
        invariant forall j | 0 <= j < i :: tx.outputs[j] !in utxo.items
      {
        if utxo.EverContained(tx.outputs[i]) {
          return false;
        }
      }
      return true;
    }

    lemma NeverDead(nf: string)
      requires Valid()
      ensures nullifiers.State().Live(nf) <==> nf in nullifiers.items
    {
      if nf in nullifiers.items {
        var i: nat :| i < |nullifiers.items| && nullifiers.items[i] == nf;
        assert i !in nullifiers.dead;
      }
    }

    /** Spend, publish, create, burn, then compare the two records. False where the source raises: a step is
        refused, a tree is full, or the records part, which is noticed only once the delta is in. */
    method ApplyDelta(d: Delta) returns (ok: bool)
      requires Valid()
      modifies this, utxo, utxo.witnessTree, nullifiers, nullifiers.witnessTree
      ensures ok <==> Goes(d, old(State()), utxo.height, nullifiers.height) && |d.spent| == |d.nullifiers|
      ensures Goes(d, old(State()), utxo.height, nullifiers.height) ==>
              State() == Apply(old(State()), d).value && (Valid() <==> ok)
      ensures height == old(height) && tip == old(tip)
    {
      hide SpentAll, AddedAll, Dump.Live, Ledger.Valid, NoRepeats, Dump.WellFormed, SealAccumulator.Valid;
      ghost var s := State();
      ok := Move(d);
      if !ok {
        return;
      }
      burned := burned + d.fees;
      assert State() == Apply(s, d).value;
      AgreeAfterIff(s, d);
      ok := CrossCheck();
    }

    /** The three loops of a delta. */
    method Move(d: Delta) returns (ok: bool)
      requires Valid()
      modifies utxo, utxo.witnessTree, nullifiers, nullifiers.witnessTree
      ensures ok <==> Goes(d, old(State()), utxo.height, nullifiers.height)
      ensures ok ==>
                Separate() && Ledger(utxo.State(), nullifiers.State(), burned + d.fees) ==
                Apply(old(State()), d).value
    {
      hide SpentAll, AddedAll, Dump.Live, NoRepeats, Dump.WellFormed, SealAccumulator.Valid, Dump.Witnessed;
      hide Dump.Leaves, Dump.SlotLeaf;
      ghost var s := State();
      ok := SpendAll(utxo, d.spent);
      if !ok {
        return;
      }
      ItemsStay(s, d.spent);
      ok := AddAll(nullifiers, d.nullifiers);
      if !ok {
        return;
      }
      ok := AddAll(utxo, d.created);
    }

    lemma ItemsStay(s: Ledger, values: seq<string>)
      requires s.Valid() && SpentAll(s.utxo, values).Some?
      ensures SpentAll(s.utxo, values).value.items == s.utxo.items
    {
      SpentKeepsItems(s.utxo, values);
    }

    /** A transaction is applied as its delta is. */
    method ApplyTransaction(tx: T.Transaction) returns (ok: bool)
      requires Valid()
      modifies this, utxo, utxo.witnessTree, nullifiers, nullifiers.witnessTree
      ensures ok <==> && ApplyTx(old(State()), tx).Some?
                      && HasRoom(utxo.height, |old(utxo.items)|, |tx.outputs|)
                      && HasRoom(nullifiers.height, |old(nullifiers.items)|, |tx.inputs|)
      ensures ok ==> Valid() && State() == ApplyTx(old(State()), tx).value
      ensures height == old(height) && tip == old(tip)
    {
      ok := ApplyDelta(DeltaOf(tx));
    }

    method CanApplyDelta(d: Delta) returns (ok: bool)
      requires Valid()
      ensures ok <==> CanApply(State(), d)
    {
      hide SealAccumulator.Valid, Dump.Leaves;
      for i := 0 to |d.spent|
        invariant forall j | 0 <= j < i :: State().utxo.Live(d.spent[j])
      {
        if !utxo.Contains(d.spent[i]) {
          return false;
        }
      }
      for i := 0 to |d.nullifiers|
        invariant forall j | 0 <= j < i :: d.nullifiers[j] !in nullifiers.items
      {
        NeverDead(d.nullifiers[i]);
        if nullifiers.Contains(d.nullifiers[i]) {
          return false;
        }
      }
      for i := 0 to |d.created|
        invariant forall j | 0 <= j < i :: d.created[j] !in utxo.items
      {
        if utxo.EverContained(d.created[i]) {
          return false;
        }
      }
      return true;
    }

    /** One grid's set, against the last network block. */
    method CheckCeremonyTxs(txs: seq<T.Transaction>, verify: T.Transaction -> bool, number: string -> nat, part: nat,
                            parts: nat)
      returns (r: Option<Delta>)
      requires Valid() && parts > 0
      ensures r.Some? <==> CeremonySet(State(), txs, verify, number, part, parts)
      ensures r.Some? ==> r.value == FromTxs(txs)
    {
      hide ChainState.Valid, SealAccumulator.State, Dump.Witnessed, Dump.Leaves, SealAccumulator.Valid, Dump.SlotLeaf;
      hide FitsLedger, ChainState.Separate, Dump.WellFormed, T.Transaction.InputCms, Partition, ChainState.State;
      var seenNf: set<string>, seenCm: set<string>, seenOut: set<string> := {}, {}, {};
      for i := 0 to |txs|
        invariant CeremonySet(State(), txs[..i], verify, number, part, parts)
        invariant forall v {:trigger v in seenCm} :: v in seenCm <==> v in FromTxs(txs[..i]).spent
        invariant forall v {:trigger v in seenNf} :: v in seenNf <==> v in FromTxs(txs[..i]).nullifiers
        invariant forall v {:trigger v in seenOut} :: v in seenOut <==> v in FromTxs(txs[..i]).created
      {
        var tx := txs[i];
        NextInSet(State(), txs, verify, number, part, parts, i);
        if Partition(number, tx, parts) != Some(part) {
          PrefixIsSet(State(), txs, verify, number, part, parts, i + 1);
          return None;
        }
        var ok := CheckTransaction(tx, verify(tx), seenNf, seenCm);
        if !ok || exists cm <- tx.outputs :: cm in seenOut {
          PrefixIsSet(State(), txs, verify, number, part, parts, i + 1);
          return None;
        }
        seenNf := seenNf + set v | v in tx.Nullifiers();
        seenCm := seenCm + set v | v in tx.InputCms();
        seenOut := seenOut + set v | v in tx.outputs;
        assert txs[..i + 1][..i] == txs[..i];
      }
      assert txs[..|txs|] == txs;
      return Some(FromTxs(txs));
    }

    /** Move the tip and put the block into the spine. */
    method RecordBlock(blockHeight: int, blockHash: string) returns (ok: bool)
      requires Valid()
      modifies this, history, history.tree
      ensures ok <==> |old(history.hashes)| == blockHeight - 1 && |old(history.hashes)| < Pow2(history.height)
      ensures ok ==>
                Valid() && history.hashes == old(history.hashes) + [blockHash] && height == blockHeight
                && tip == blockHash
      ensures !ok ==> Valid() && height == old(height) && tip == old(tip) && history.hashes == old(history.hashes)
      ensures State() == old(State())
    {
      hide SealAccumulator.Valid, HeaderHistory.HeaderHistory.Valid, Dump.Live, Ledger.Valid, Dump.WellFormed;
      if |history.hashes| != blockHeight - 1 {
        return false;
      }
      ok := history.Append(blockHash);
      if ok {
        height, tip := blockHeight, blockHash;
      }
    }
  }

  /** A prefix of a grid's set is one, so the first refusal decides. */
  lemma PrefixIsSet(s: Ledger, txs: seq<T.Transaction>, verify: T.Transaction -> bool, number: string -> nat,
                    part: nat, parts: nat, n: nat)
    requires parts > 0 && n <= |txs|
    ensures CeremonySet(s, txs, verify, number, part, parts) ==> CeremonySet(s, txs[..n], verify, number, part, parts)
  {
    hide FitsLedger, Apart, Partition;
    assert forall i | 0 <= i < n :: txs[..n][i] == txs[i];
  }

  lemma ApartFromAll(front: seq<T.Transaction>, tx: T.Transaction)
    ensures (forall i | 0 <= i < |front| :: Apart(front[i], tx))
            <==> Disjoint(FromTxs(front).spent, tx.InputCms()) && Disjoint(FromTxs(front).nullifiers, tx.Nullifiers())
                 && Disjoint(FromTxs(front).created, tx.outputs)
  {
    forall v {
      FromTxsFromSome(front, v);
    }
  }

  /** What one more transaction has to satisfy. */
  lemma NextInSet(s: Ledger, txs: seq<T.Transaction>, verify: T.Transaction -> bool, number: string -> nat, part: nat,
                  parts: nat, n: nat)
    requires parts > 0 && n < |txs| && CeremonySet(s, txs[..n], verify, number, part, parts)
    ensures CeremonySet(s, txs[..n + 1], verify, number, part, parts)
            <==> && verify(txs[n]) && Partition(number, txs[n], parts) == Some(part) && FitsLedger(s, txs[n])
                 && Disjoint(FromTxs(txs[..n]).spent, txs[n].InputCms())
                 && Disjoint(FromTxs(txs[..n]).nullifiers, txs[n].Nullifiers())
                 && Disjoint(FromTxs(txs[..n]).created, txs[n].outputs)
  {
    hide FitsLedger, Apart, Partition, Disjoint, FromTxs;
    var front, more, tx := txs[..n], txs[..n + 1], txs[n];
    ApartFromAll(front, tx);
    assert more[n] == tx && |more| == n + 1;
    forall i | 0 <= i < n ensures front[i] == more[i] {
    }
    if forall i | 0 <= i < |front| :: Apart(front[i], tx) {
      assert forall i, j | 0 <= i < j < |more| :: j == n || Apart(front[i], front[j]);
    }
  }
}
