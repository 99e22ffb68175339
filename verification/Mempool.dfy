/**
 The mempool of one node (chain/node.py): admission, eviction for room, the reservations, and the block built from it.

 A transaction's id is an arbitrary function of it. A dict keeps the order of insertion, which is what `order` holds.
 */
module Mempool {
  import opened Basics
  import opened Ledger
  import opened Merging
  import opened SealAccumulator
  import S = Seats
  import T = Transactions

  const MAX_INPUTS := 16
  const MAX_OUTPUTS := 16

  type Naming = T.Transaction -> string

  /** The transactions held, by id, and the notes and nullifiers they reserve. */
  datatype Pool = Pool(order: seq<string>, held: map<string, T.Transaction>, nfs: map<string, string>,
                       cms: map<string, string>) {
    /** The holder's reservations are in the tables under its id. */
    ghost predicate Reserved(id: string)
      requires id in held
    {
      && (forall nf <- held[id].Nullifiers() :: nf in nfs && nfs[nf] == id)
      && (forall cm <- held[id].InputCms() :: cm in cms && cms[cm] == id)
    }

    ghost predicate NfHeld(nf: string)
      requires nf in nfs
    {
      nfs[nf] in held && nf in held[nfs[nf]].Nullifiers()
    }

    ghost predicate CmHeld(cm: string)
      requires cm in cms
    {
      cms[cm] in held && cm in held[cms[cm]].InputCms()
    }

    /** The two tables are exactly the inverse index of what is held. */
    ghost predicate Indexed() {
      && (forall id {:trigger Reserved(id)} :: id in held ==> Reserved(id))
      && (forall nf {:trigger NfHeld(nf)} :: nf in nfs ==> NfHeld(nf))
      && (forall cm {:trigger CmHeld(cm)} :: cm in cms ==> CmHeld(cm))
    }

    ghost predicate Ordered() {
      S.Distinct(order) && forall id :: id in order <==> id in held
    }

    /** `_evict`. */
    function Without(id: string): Pool {
      if id !in held then this
      else
        var tx := held[id];
        Pool(S.Removed(order, id), held - {id}, nfs - (set nf | nf in tx.Nullifiers()),
             cms - (set cm | cm in tx.InputCms()))
    }

    /** Into the pool and the two tables, whoever held the entries before. */
    function With(id: string, tx: T.Transaction): Pool {
      Pool(if id in held then order else order + [id], held[id := tx], nfs + (map nf | nf in tx.Nullifiers() :: id),
           cms + (map cm | cm in tx.InputCms() :: id))
    }

    /** Nothing the transaction needs is reserved. */
    predicate Unclaimed(tx: T.Transaction) {
      (forall nf <- tx.Nullifiers() :: nf !in nfs) && forall cm <- tx.InputCms() :: cm !in cms
    }

    /** What the node would give up first: the lowest fee, the oldest on a tie. */
    ghost predicate IsCheapest(id: string) {
      && id in held
      && (forall k {:trigger held[k]} :: k in held ==> held[id].fee <= held[k].fee)
      && exists i :: 0 <= i < |order| && order[i] == id && forall j | 0 <= j < i ::
           order[j] in held && held[order[j]].fee > held[id].fee
    }
  }

  /** Whoever is given up first pays less than anyone else held, or as little and came before. */
  lemma CheapestIsOldest(p: Pool, id: string, k: string)
    requires p.Ordered() && p.IsCheapest(id) && k in p.held && k != id
    ensures p.held[id].fee <= p.held[k].fee
    ensures p.held[id].fee == p.held[k].fee ==>
            exists i, j :: 0 <= i < j < |p.order| && p.order[i] == id && p.order[j] == k
    ensures !p.IsCheapest(k)
  {
    var i :| 0 <= i < |p.order| && p.order[i] == id && forall j | 0 <= j < i ::
      p.order[j] in p.held && p.held[p.order[j]].fee > p.held[id].fee;
    assert k in p.order;
    var j :| 0 <= j < |p.order| && p.order[j] == k;
  }

  const EMPTY := Pool([], map[], map[], map[])

  lemma {:induction false} RemovedIs(order: seq<string>, id: string)
    requires S.Distinct(order)
    ensures S.Distinct(S.Removed(order, id)) && forall x :: x in S.Removed(order, id) <==> x in order && x != id
    ensures id in order ==> |S.Removed(order, id)| == |order| - 1
  {
    if order != [] {
      var first, rest := order[0], order[1..];
      assert order == [first] + rest;
      assert S.Distinct(rest) && first !in rest;
      RemovedIs(rest, id);
      if first != id {
        var r := S.Removed(rest, id);
        forall i, j | 0 <= i < j < |r| + 1 ensures ([first] + r)[i] != ([first] + r)[j] {
          assert r[j - 1] in r;
        }
      }
    }
  }

  /** Two held transactions never spend the same note or publish the same nullifier: the index has room for one
      holder. */
  lemma NoConflicts(p: Pool, a: string, b: string)
    requires p.Indexed() && a in p.held && b in p.held && a != b
    ensures Disjoint(p.held[a].InputCms(), p.held[b].InputCms())
            && Disjoint(p.held[a].Nullifiers(), p.held[b].Nullifiers())
  {
    assert p.Reserved(a) && p.Reserved(b);
  }

  lemma WithoutOrdered(p: Pool, id: string)
    requires p.Ordered()
    ensures p.Without(id).Ordered()
    ensures p.Without(id).held == p.held - {id} && |p.Without(id).order| == |p.order| - if id in p.held then 1 else 0
  {
    RemovedIs(p.order, id);
    if id !in p.held {
      assert p.held - {id} == p.held;
    }
  }

  lemma WithoutIndexed(p: Pool, id: string)
    requires p.Indexed() && p.Ordered()
    ensures p.Without(id).Indexed()
  {
    var q := p.Without(id);
    if id in p.held {
      forall k | k in q.held ensures q.Reserved(k) {
        assert p.Reserved(k);
        NoConflicts(p, id, k);
      }
      forall nf | nf in q.nfs ensures q.NfHeld(nf) {
        assert p.NfHeld(nf);
      }
      forall cm | cm in q.cms ensures q.CmHeld(cm) {
        assert p.CmHeld(cm);
      }
    }
  }

  /** Taking in a new transaction keeps the tables the inverse index exactly when nothing it needs is reserved. */
  lemma WithIndexedIff(p: Pool, id: string, tx: T.Transaction)
    requires p.Indexed() && p.Ordered() && id !in p.held
    ensures p.With(id, tx).Indexed() <==> p.Unclaimed(tx)
  {
    if p.Unclaimed(tx) {
      WithIndexed(p, id, tx);
    } else {
      ClaimedBreaksIndex(p, id, tx);
    }
  }

  lemma ClaimedBreaksIndex(p: Pool, id: string, tx: T.Transaction)
    requires p.Indexed() && id !in p.held && !p.Unclaimed(tx)
    ensures !p.With(id, tx).Indexed()
  {
    hide T.Transaction.InputCms, T.Transaction.Nullifiers;
    var q := p.With(id, tx);
    if exists nf <- tx.Nullifiers() :: nf in p.nfs {
      var nf :| nf in tx.Nullifiers() && nf in p.nfs;
      assert p.NfHeld(nf) && q.held[p.nfs[nf]] == p.held[p.nfs[nf]];
      assert !q.Reserved(p.nfs[nf]);
    } else {
      var cm :| cm in tx.InputCms() && cm in p.cms;
      assert p.CmHeld(cm) && q.held[p.cms[cm]] == p.held[p.cms[cm]];
      assert !q.Reserved(p.cms[cm]);
    }
  }

  lemma WithOrdered(p: Pool, id: string, tx: T.Transaction)
    requires p.Ordered()
    ensures p.With(id, tx).Ordered() && |p.With(id, tx).order| == |p.order| + if id in p.held then 0 else 1
  {
    hide T.Transaction.InputCms, T.Transaction.Nullifiers;
    if id !in p.held {
      assert id !in p.order;
      forall x ensures x in p.order + [id] <==> x in p.order || x == id {
      }
    }
  }

  lemma WithIndexed(p: Pool, id: string, tx: T.Transaction)
    requires p.Indexed() && p.Ordered() && id !in p.held && p.Unclaimed(tx)
    ensures p.With(id, tx).Indexed() && p.With(id, tx).Ordered()
  {
    var q := p.With(id, tx);
    forall k | k in q.held ensures q.Reserved(k) {
      if k != id {
        assert p.Reserved(k);
      }
    }
    forall nf | nf in q.nfs ensures q.NfHeld(nf) {
      if nf !in tx.Nullifiers() {
        assert p.NfHeld(nf);
      }
    }
    forall cm | cm in q.cms ensures q.CmHeld(cm) {
      if cm !in tx.InputCms() {
        assert p.CmHeld(cm);
      }
    }
  }

  /** What may be refused without looking at the proof. */
  ghost predicate MayJoin(p: Pool, max: nat, chainId: string, s: Ledger, id: string, tx: T.Transaction) {
    && tx.chainId == chainId && id !in p.held && tx.fee >= 0 && tx.inputs != [] && tx.outputs != []
    && |tx.inputs| <= MAX_INPUTS && |tx.outputs| <= MAX_OUTPUTS && FitsLedger(s, tx) && p.Unclaimed(tx)
    && (|p.held| >= max ==> exists floor :: p.IsCheapest(floor) && tx.fee > p.held[floor].fee)
  }

  /** The pool once room has been made. */
  ghost function Roomier(p: Pool, gone: Option<string>): Pool {
    if gone.Some? then p.Without(gone.value) else p
  }

  /** Whoever may join is of this chain and of bounded size, spends live notes under new nullifiers into new notes, and
      shares no note and no nullifier with anyone held. */
  lemma JoinerFits(p: Pool, max: nat, chainId: string, s: Ledger, id: string, tx: T.Transaction, k: string)
    requires MayJoin(p, max, chainId, s, id, tx) && p.Indexed() && k in p.held
    ensures tx.chainId == chainId && tx.fee >= 0 && 1 <= |tx.inputs| <= MAX_INPUTS && 1 <= |tx.outputs| <= MAX_OUTPUTS
    ensures forall i | 0 <= i < |tx.inputs| ::
              s.utxo.Live(tx.inputs[i].cm) && tx.inputs[i].nullifier !in s.nullifiers.items
    ensures forall cm <- tx.outputs :: cm !in s.utxo.items
    ensures Disjoint(p.held[k].InputCms(), tx.InputCms()) && Disjoint(p.held[k].Nullifiers(), tx.Nullifiers())
  {
    hide Dump.Live;
    assert p.Reserved(k);
    forall i | 0 <= i < |tx.inputs|
      ensures tx.inputs[i].cm in tx.InputCms() && tx.inputs[i].nullifier in tx.Nullifiers() {
      assert tx.InputCms()[i] == tx.inputs[i].cm && tx.Nullifiers()[i] == tx.inputs[i].nullifier;
    }
  }

  /** Whoever may join needs nothing reserved, now or after room is made, and pays more than any cheapest. */
  lemma MayJoinMeans(p: Pool, max: nat, chainId: string, s: Ledger, id: string, tx: T.Transaction)
    requires MayJoin(p, max, chainId, s, id, tx)
    ensures id !in p.held && (forall gone {:trigger Roomier(p, gone)} ::
                              Roomier(p, gone).Unclaimed(tx) && id !in Roomier(p, gone).held)
    ensures |p.held| >= max ==> (exists k :: p.IsCheapest(k)) && forall k :: p.IsCheapest(k) ==> p.held[k].fee < tx.fee
  {
    hide FitsLedger, Pool.Unclaimed;
    forall gone: Option<string> ensures Roomier(p, gone).Unclaimed(tx) && id !in Roomier(p, gone).held {
      if gone.Some? {
        WithoutFrees(p, gone.value, tx);
      }
    }
    if |p.held| >= max {
      var floor :| p.IsCheapest(floor) && tx.fee > p.held[floor].fee;
      CheapestSame(p, floor);
    }
  }

  /** Two transactions found admissible by one pool that spend one note, then both taken in: both are held, the tables
      are no longer the inverse index, and giving up the second leaves the note unreserved although the first still
      spends it. */
  lemma QueuedTwiceIsHeldTwice(p: Pool, a: T.Transaction, b: T.Transaction, ida: string, idb: string, cm: string)
    requires p.Indexed() && p.Ordered() && ida != idb && ida !in p.held && idb !in p.held && p.Unclaimed(a)
             && p.Unclaimed(b)
    requires cm in a.InputCms() && cm in b.InputCms()
    ensures var q := p.With(ida, a).With(idb, b);
            && ida in q.held && idb in q.held && q.held[ida] == a && q.held[idb] == b && !q.Indexed()
            && ida in q.Without(idb).held && cm !in q.Without(idb).cms && cm in q.Without(idb).held[ida].InputCms()
  {
    hide T.Transaction.InputCms, T.Transaction.Nullifiers;
    WithIndexed(p, ida, a);
    assert cm in p.With(ida, a).cms;
    ClaimedBreaksIndex(p.With(ida, a), idb, b);
  }

  /** Such a pair: two spends of one live note into different outputs, both admissible to an empty pool. */
  lemma PairMayJoin(chainId: string, id: Naming, max: nat) returns (s: Ledger, a: T.Transaction, b: T.Transaction)
    requires max > 0
    ensures s.Valid() && a != b && "note" in a.InputCms() && "note" in b.InputCms()
    ensures MayJoin(EMPTY, max, chainId, s, id(a), a) && MayJoin(EMPTY, max, chainId, s, id(b), b)
  {
    s := Ledger(Dump(["note"], {}), Dump([], {}), 0);
    var input := T.TxInput("note", "nf", "", "");
    a := T.Transaction(0, chainId, 0, [input], ["x"], [], 0, [], []);
    b := a.(outputs := ["y"]);
    assert a.InputCms()[0] == "note" && b.InputCms()[0] == "note" && a.outputs[0] == "x" && b.outputs[0] == "y";
    assert s.utxo.items[0] == "note" && s.utxo.Live("note");
  }

  class Node {
    const chainId: string
    const maxMempool: nat
    const id: Naming
    var order: seq<string>
    var held: map<string, T.Transaction>
    var reservedNf: map<string, string>
    var reservedCm: map<string, string>

    function View(): Pool
      reads this
    {
      Pool(order, held, reservedNf, reservedCm)
    }

    /** What every path keeps, whatever the tables say. */
    ghost predicate Listed()
      reads this
    {
      View().Ordered() && |order| <= maxMempool && forall k {:trigger held[k]} :: k in held ==> id(held[k]) == k
    }

    ghost predicate Valid()
      reads this
    {
      Listed() && View().Indexed()
    }

    constructor (chainId: string, maxMempool: nat, id: Naming)
      ensures Valid() && View() == EMPTY && this.chainId == chainId && this.maxMempool == maxMempool && this.id == id
    {
      this.chainId, this.maxMempool, this.id := chainId, maxMempool, id;
      order, held, reservedNf, reservedCm := [], map[], map[], map[];
    }

    lemma HeldIsOrder()
      requires Listed()
      ensures |held| == |order|
    {
      DistinctCount(order);
      assert held.Keys == S.SetOf(order);
    }

    method Cheapest() returns (floor: Option<string>)
      requires Listed()
      ensures floor.None? <==> held.Keys == {}
      ensures floor.Some? ==> View().IsCheapest(floor.value)
    {
      assert forall k <- held.Keys :: k in order;
      floor := None;
      ghost var at := 0;
      for i := 0 to |order|
        invariant floor.None? <==> i == 0
        invariant floor.Some? ==> 0 <= at < i && order[at] == floor.value && floor.value in held
        invariant floor.Some? ==> forall j | 0 <= j < at ::
                    order[j] in held && held[order[j]].fee > held[floor.value].fee
        invariant floor.Some? ==> forall j | 0 <= j < i ::
                    order[j] in held && held[order[j]].fee >= held[floor.value].fee
      {
        assert order[i] in order;
        if floor.None? || held[order[i]].fee < held[floor.value].fee {
          floor, at := Some(order[i]), i;
        }
      }
      if floor.Some? {
        forall k | k in held ensures held[floor.value].fee <= held[k].fee {
          assert k in order;
        }
      }
    }

    /** The cheap checks, in order. */
    method Admissible(s: Ledger, tx: T.Transaction) returns (ok: bool)
      requires Valid()
      ensures ok <==> MayJoin(View(), maxMempool, chainId, s, id(tx), tx)
    {
      if tx.chainId != chainId || id(tx) in held || tx.fee < 0 || tx.inputs == [] || tx.outputs == [] {
        return false;
      }
      if |tx.inputs| > MAX_INPUTS || |tx.outputs| > MAX_OUTPUTS || !FitsLedger(s, tx) || !View().Unclaimed(tx) {
        return false;
      }
      if |held| >= maxMempool {
        var floor := Cheapest();
        if floor.None? {
          assert forall k :: !View().IsCheapest(k);
          return false;
        }
        forall k | View().IsCheapest(k) ensures held[k].fee == held[floor.value].fee {
        }
        return tx.fee > held[floor.value].fee;
      }
      return true;
    }

    /** Out of the pool, and out of the tables whatever it had entered there. */
    method Evict(k: string)
      requires Listed()
      modifies this
      ensures Listed() && View() == old(View()).Without(k) && (old(Valid()) ==> Valid())
      ensures held == old(held) - {k} && |order| == |old(order)| - if k in old(held) then 1 else 0
    {
      hide Pool.Indexed, SealAccumulator.Valid;
      WithoutOrdered(View(), k);
      if View().Indexed() {
        WithoutIndexed(View(), k);
      }
      if k in held {
        var tx := held[k];
        order, held := S.Removed(order, k), held - {k};
        reservedNf, reservedCm := reservedNf - (set nf | nf in tx.Nullifiers()),
          reservedCm - (set cm | cm in tx.InputCms());
      }
    }

    /** `verify_and_admit`: once its proof holds a transaction comes in, whatever has been taken in since it was found
        admissible. A full pool first gives up its cheapest, unless that is this very transaction. */
    method VerifyAndAdmit(tx: T.Transaction, proven: bool) returns (ok: bool, ghost gone: Option<string>)
      requires Listed() && maxMempool > 0
      modifies this
      ensures Listed() && ok == proven && (gone.Some? ==> ok)
      ensures !ok ==> View() == old(View())
      ensures ok ==> View() == Roomier(old(View()), gone).With(id(tx), tx)
      ensures gone.Some? ==> |old(held)| >= maxMempool && old(View()).IsCheapest(gone.value) && gone.value != id(tx)
      ensures ok && gone.None? && |old(held)| >= maxMempool ==> old(View()).IsCheapest(id(tx))
      ensures ok && old(Valid()) && id(tx) !in old(held) ==> (Valid() <==> Roomier(old(View()), gone).Unclaimed(tx))
    {
      hide Pool.Indexed, Pool.Ordered, S.Removed, Pool.Unclaimed, Pool.With, Pool.Without;
      gone := None;
      if !proven {
        return false, None;
      }
      HeldIsOrder();
      while |held| >= maxMempool
        invariant Listed() && |held| == |order| && View() == Roomier(old(View()), gone) && (old(Valid()) ==> Valid())
        invariant held.Keys <= old(held).Keys && (gone.None? ==> View() == old(View()))
        invariant gone.Some? ==>
                    |old(held)| >= maxMempool && old(View()).IsCheapest(gone.value)
                    && gone.value != id(tx) && |order| < maxMempool
        decreases |held|
      {
        var floor := Cheapest();
        if floor.None? || floor.value == id(tx) {
          break;
        }
        assert gone.None?;
        gone := floor;
        Evict(floor.value);
        HeldIsOrder();
      }
      Take(tx);
      return true, gone;
    }

    /** Into the pool and the two tables. */
    method Take(tx: T.Transaction)
      requires Listed() && (|order| < maxMempool || id(tx) in held)
      modifies this
      ensures Listed() && View() == old(View()).With(id(tx), tx)
      ensures old(Valid()) && id(tx) !in old(held) ==> (Valid() <==> old(View()).Unclaimed(tx))
    {
      hide Pool.Indexed, Pool.Ordered, Pool.Unclaimed;
      WithOrdered(View(), id(tx), tx);
      if View().Indexed() && id(tx) !in held {
        WithIndexedIff(View(), id(tx), tx);
      }
      order, held := (if id(tx) in held then order else order + [id(tx)]), held[id(tx) := tx];
      reservedNf := reservedNf + (map nf | nf in tx.Nullifiers() :: id(tx));
      reservedCm := reservedCm + (map cm | cm in tx.InputCms() :: id(tx));
    }

    /** `submit`: the cheap checks, then authentication and the proof, whose verdicts are given, all at once. What gives
        way is the cheapest and pays strictly less, and the tables stay the inverse index. */
    method Submit(s: Ledger, tx: T.Transaction, authentic: bool, proven: bool)
      returns (ok: bool, ghost gone: Option<string>)
      requires Valid() && maxMempool > 0
      modifies this
      ensures Valid()
      ensures ok <==> MayJoin(old(View()), maxMempool, chainId, s, id(tx), tx) && authentic && proven
      ensures !ok ==> View() == old(View()) && gone.None?
      ensures ok ==>
                (gone.Some? <==> |old(held)| >= maxMempool) && View() == Roomier(old(View()), gone).With(id(tx), tx)
      ensures gone.Some? ==> old(View()).IsCheapest(gone.value) && old(held)[gone.value].fee < tx.fee
    {
      hide MayJoin, Pool.Indexed, Pool.With, Pool.Without;
      ok := Admissible(s, tx);
      if !ok || !authentic || !proven {
        return false, None;
      }
      MayJoinMeans(View(), maxMempool, chainId, s, id(tx), tx);
      ok, gone := VerifyAndAdmit(tx, true);
    }

    /** After a block: what it included goes, and so does whatever the new ledger refuses. */
    method Settle(s: Ledger, included: seq<string>)
      requires Listed()
      modifies this
      ensures Listed() && (old(Valid()) ==> Valid())
      ensures held == map k | k in old(held) && k !in included && FitsLedger(s, old(held)[k]) :: old(held)[k]
    {
      hide Pool.Indexed, Pool.Ordered, FitsLedger, Node.View, Node.Valid, Node.Listed, T.Transaction.InputCms;
      hide Pool.Reserved;
      ghost var at := held;
      for i := 0 to |included|
        invariant Listed() && (old(Valid()) ==> Valid()) && held == at - S.SetOf(included[..i])
      {
        assert included[..i + 1] == included[..i] + [included[i]];
        assert S.SetOf(included[..i + 1]) == S.SetOf(included[..i]) + {included[i]};
        Evict(included[i]);
      }
      assert included[..|included|] == included;
      var ids := order;
      ghost var was, bad: set<string> := held, {};
      AllListed();
      for i := 0 to |ids|
        invariant Listed() && (old(Valid()) ==> Valid()) && held == was - bad
        invariant bad == Refused(s, was, S.SetOf(ids[..i]))
      {
        assert ids[..i + 1] == ids[..i] + [ids[i]];
        OneMoreRefused(s, was, S.SetOf(ids[..i]), ids[i]);
        assert S.SetOf(ids[..i + 1]) == S.SetOf(ids[..i]) + {ids[i]};
        if ids[i] in held && !FitsLedger(s, held[ids[i]]) {
          Evict(ids[i]);
          bad := bad + {ids[i]};
        }
      }
      assert ids[..|ids|] == ids;
      Settled(s, at, S.SetOf(included), included, was, bad);
    }

    lemma AllListed()
      requires Listed()
      ensures S.SetOf(order) == held.Keys
    {
    }
  }

  /** The held transactions among `some` that the ledger refuses. */
  ghost function Refused(s: Ledger, held: map<string, T.Transaction>, some: set<string>): set<string> {
    set k | k in some && k in held && !FitsLedger(s, held[k])
  }

  lemma OneMoreRefused(s: Ledger, held: map<string, T.Transaction>, some: set<string>, k: string)
    ensures Refused(s, held, some + {k}) == Refused(s, held, some) + if k in held
            && !FitsLedger(s, held[k]) then {k} else {}
  {
  }

  lemma Settled(s: Ledger, at: map<string, T.Transaction>, gone: set<string>, included: seq<string>,
                was: map<string, T.Transaction>, bad: set<string>)
    requires gone == S.SetOf(included) && was == at - gone && bad == Refused(s, was, was.Keys)
    ensures was - bad == map k | k in at && k !in included && FitsLedger(s, at[k]) :: at[k]
  {
  }

  lemma WithoutFrees(p: Pool, id: string, tx: T.Transaction)
    requires p.Unclaimed(tx)
    ensures p.Without(id).Unclaimed(tx) && p.Without(id).held == p.held - {id}
  {
    if id !in p.held {
      assert p.held - {id} == p.held;
    }
  }

  lemma CheapestSame(p: Pool, floor: string)
    requires p.IsCheapest(floor)
    ensures forall k :: p.IsCheapest(k) ==> p.held[k].fee == p.held[floor].fee
  {
  }

  lemma {:induction false} DistinctCount(order: seq<string>)
    requires S.Distinct(order)
    ensures |S.SetOf(order)| == |order|
  {
    if order != [] {
      var front, last := order[..|order| - 1], order[|order| - 1];
      assert order == front + [last];
      DistinctCount(front);
      assert S.SetOf(order) == S.SetOf(front) + {last};
    }
  }
}
