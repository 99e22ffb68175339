/**
 The ledger as values (chain/state.py): deltas, applying them, and merging the deltas of sibling grids.
 */
module Ledger {
  import opened Basics
  import opened SealAccumulator
  import opened SealTheorems
  import T = Transactions

  datatype Ledger = Ledger(utxo: Dump, nullifiers: Dump, burned: int) {
    /** Both records are sets, no nullifier is ever spent, and the two records of a spend agree. */
    ghost predicate Valid() {
      utxo.WellFormed() && nullifiers.WellFormed() && nullifiers.dead == {} && |utxo.dead| == |nullifiers.items|
    }
  }

  /** What a set of transactions does to the ledger. */
  datatype Delta = Delta(spent: seq<string>, created: seq<string>, nullifiers: seq<string>, fees: int) {
    function Join(d: Delta): Delta {
      Delta(spent + d.spent, created + d.created, nullifiers + d.nullifiers, fees + d.fees)
    }

    ghost predicate Distinct() {
      NoRepeats(spent) && NoRepeats(created) && NoRepeats(nullifiers)
    }
  }

  const NoChange := Delta([], [], [], 0)

  function DeltaOf(tx: T.Transaction): Delta {
    Delta(tx.InputCms(), tx.outputs, tx.Nullifiers(), tx.fee)
  }

  function FromTxs(txs: seq<T.Transaction>): Delta {
    if txs == [] then NoChange else FromTxs(txs[..|txs| - 1]).Join(DeltaOf(txs[|txs| - 1]))
  }

  /** Spend, publish, create, burn; None where a step is refused. */
  function Apply(s: Ledger, d: Delta): Option<Ledger> {
    var spent, published := SpentAll(s.utxo, d.spent), AddedAll(s.nullifiers, d.nullifiers);
    if spent.None? || published.None? then None
    else
      var created := AddedAll(spent.value, d.created);
      if created.None? then None else Some(Ledger(created.value, published.value, s.burned + d.fees))
  }

  function ApplyTx(s: Ledger, tx: T.Transaction): Option<Ledger> {
    Apply(s, DeltaOf(tx))
  }

  /** The transactions one by one. */
  function RunAll(s: Ledger, txs: seq<T.Transaction>): Option<Ledger> {
    if txs == [] then Some(s)
    else
      match RunAll(s, txs[..|txs| - 1])
      case None => None
      case Some(t) => ApplyTx(t, txs[|txs| - 1])
  }

  /** `can_apply_delta`: against the ledger only, not against the delta itself. */
  ghost predicate CanApply(s: Ledger, d: Delta) {
    && (forall cm <- d.spent :: s.utxo.Live(cm))
    && (forall nf <- d.nullifiers :: nf !in s.nullifiers.items)
    && (forall cm <- d.created :: cm !in s.utxo.items)
  }

  lemma SpentKeepsItems(d: Dump, values: seq<string>)
    requires d.WellFormed() && SpentAll(d, values).Some?
    ensures SpentAll(d, values).value.items == d.items && SpentAll(d, values).value.WellFormed()
  {
    SpentAllIs(d, values);
  }

  /** A delta applies exactly when it can be, and repeats nothing. */
  lemma AppliesIff(s: Ledger, d: Delta)
    requires s.Valid()
    ensures Apply(s, d).Some? <==> d.Distinct() && CanApply(s, d)
    ensures Apply(s, d).Some? ==>
              && (forall cm <- d.spent :: cm in s.utxo.items)
              && Apply(s, d).value == Ledger(Dump(s.utxo.items + d.created,
                                                  s.utxo.dead + SlotsOf(s.utxo.items, d.spent)),
                                             s.nullifiers.(items := s.nullifiers.items + d.nullifiers),
                                               s.burned + d.fees)
  {
    hide Dump.Live, NoRepeats;
    SpentAllIs(s.utxo, d.spent);
    AddedAllIs(s.nullifiers, d.nullifiers);
    if SpentAll(s.utxo, d.spent).Some? {
      AddedAllIs(SpentAll(s.utxo, d.spent).value, d.created);
    }
  }

  lemma {:induction false} SlotsCount(items: seq<string>, values: seq<string>)
    requires NoRepeats(values) && forall v <- values :: v in items
    ensures |SlotsOf(items, values)| == |values|
  {
    if values == [] {
      assert SlotsOf(items, values) == {};
    } else {
      var front, last := values[..|values| - 1], values[|values| - 1];
      assert values == front + [last];
      NoRepeatsGrows(front, last);
      SlotsCount(items, front);
      forall v <- front ensures Slot(items, v) != Slot(items, last) {
        SlotSame(items, v, last);
      }
      assert SlotsOf(items, values) == SlotsOf(items, front) + {Slot(items, last)};
    }
  }

  /** Spends and nullifiers go in step: the two records still agree afterwards. */
  lemma ApplyKeepsValid(s: Ledger, d: Delta)
    requires s.Valid() && Apply(s, d).Some? && |d.spent| == |d.nullifiers|
    ensures Apply(s, d).value.Valid()
  {
    AppliesIff(s, d);
    var t := Apply(s, d).value;
    SlotsCount(s.utxo.items, d.spent);
    forall v <- d.spent ensures Slot(s.utxo.items, v) !in s.utxo.dead {
      LiveIsUndeadSlot(s.utxo, v);
    }
    assert |t.utxo.dead| == |s.utxo.dead| + |d.spent|;
    SpentKeepsItems(s.utxo, d.spent);
    AddedKeepsForm(SpentAll(s.utxo, d.spent).value, d.created);
    AddedKeepsForm(s.nullifiers, d.nullifiers);
  }

  lemma {:induction false} TxsInStep(txs: seq<T.Transaction>)
    ensures |FromTxs(txs).spent| == |FromTxs(txs).nullifiers|
  {
    if txs != [] {
      TxsInStep(txs[..|txs| - 1]);
    }
  }

  // ---- one batch, or one after the other ----

  lemma NoRepeatsSplit(a: seq<string>, b: seq<string>)
    ensures NoRepeats(a + b) <==> NoRepeats(a) && NoRepeats(b) && forall v <- b :: v !in a
  {
    var all := a + b;
    if NoRepeats(all) {
      forall i, j | 0 <= i < j < |a| ensures a[i] != a[j] {
        assert all[i] != all[j];
      }
      forall i, j | 0 <= i < j < |b| ensures b[i] != b[j] {
        assert all[|a| + i] != all[|a| + j];
      }
      forall v <- b ensures v !in a {
        var j :| 0 <= j < |b| && b[j] == v;
        forall i | 0 <= i < |a| ensures a[i] != v {
          assert all[i] != all[|a| + j];
        }
      }
    }
    if NoRepeats(a) && NoRepeats(b) && forall v <- b :: v !in a {
      forall i, j | 0 <= i < j < |all| ensures all[i] != all[j] {
        if i < |a| <= j {
          assert all[j] in b;
        }
      }
    }
  }

  lemma SlotsJoin(items: seq<string>, more: seq<string>, a: seq<string>, b: seq<string>)
    requires (forall v <- a :: v in items) && forall v <- b :: v in items
    ensures (forall v <- a + b :: v in items) && forall v <- b :: v in items + more
    ensures SlotsOf(items, a + b) == SlotsOf(items, a) + SlotsOf(items + more, b)
  {
    forall v <- b ensures Slot(items + more, v) == Slot(items, v) {
      SlotInPrefix(items, more, v);
    }
    assert SlotsOf(items + more, b) == SlotsOf(items, b);
  }

  /** What is live once `a` has been applied, among the values `a` did not create. */
  lemma LiveAfter(s: Ledger, a: Delta, v: string)
    requires s.Valid() && Apply(s, a).Some? && v !in a.created
    ensures Apply(s, a).value.utxo.WellFormed()
    ensures Apply(s, a).value.utxo.Live(v) <==> s.utxo.Live(v) && v !in a.spent
  {
    AppliesIff(s, a);
    var t := Apply(s, a).value;
    SpentKeepsItems(s.utxo, a.spent);
    AddedKeepsForm(SpentAll(s.utxo, a.spent).value, a.created);
    LiveIsUndeadSlot(s.utxo, v);
    LiveIsUndeadSlot(t.utxo, v);
    if v in s.utxo.items {
      SlotInPrefix(s.utxo.items, a.created, v);
      forall w <- a.spent ensures Slot(s.utxo.items, w) == Slot(s.utxo.items, v) ==> w == v {
        SlotSame(s.utxo.items, w, v);
      }
    }
  }

  /** The joined delta is refused exactly when one of the two steps is. */
  lemma JoinAppliesIff(s: Ledger, a: Delta, b: Delta)
    requires s.Valid() && |a.spent| == |a.nullifiers| && forall v <- b.spent :: v !in a.created
    ensures Apply(s, a.Join(b)).Some? <==> Apply(s, a).Some? && Apply(Apply(s, a).value, b).Some?
  {
    hide Dump.WellFormed, Ledger.Valid;
    AppliesIff(s, a);
    AppliesIff(s, a.Join(b));
    NoRepeatsSplit(a.spent, b.spent);
    NoRepeatsSplit(a.created, b.created);
    NoRepeatsSplit(a.nullifiers, b.nullifiers);
    if Apply(s, a).Some? {
      ApplyKeepsValid(s, a);
      AppliesIff(Apply(s, a).value, b);
      hide Dump.Live, NoRepeats, Apply;
      forall v <- b.spent {
        LiveAfter(s, a, v);
      }
    }
  }

  /** As long as `b` spends nothing `a` creates, applying them together is applying them in turn. */
  lemma ApplyInTurn(s: Ledger, a: Delta, b: Delta)
    requires s.Valid() && |a.spent| == |a.nullifiers| && forall v <- b.spent :: v !in a.created
    ensures Apply(s, a.Join(b)) == if Apply(s, a).None? then None else Apply(Apply(s, a).value, b)
  {
    hide Apply, NoRepeats, Dump.Live, SlotsOf, Ledger.Valid;
    JoinAppliesIff(s, a, b);
    if Apply(s, a.Join(b)).Some? {
      ApplyKeepsValid(s, a);
      AppliesIff(s, a);
      AppliesIff(s, a.Join(b));
      AppliesIff(Apply(s, a).value, b);
      SameLedger(s, a, b);
    }
  }

  lemma SameLedger(s: Ledger, a: Delta, b: Delta)
    requires (forall v <- a.spent :: v in s.utxo.items) && forall v <- b.spent :: v in s.utxo.items
    ensures forall v <- (a.spent + b.spent) :: v in s.utxo.items
    ensures forall v <- b.spent :: v in s.utxo.items + a.created
    ensures Ledger(Dump(s.utxo.items + (a.created + b.created), s.utxo.dead + SlotsOf(s.utxo.items, a.spent + b.spent)),
                   s.nullifiers.(items := s.nullifiers.items + (a.nullifiers + b.nullifiers)),
                     s.burned + (a.fees + b.fees))
            == Ledger(Dump((s.utxo.items + a.created) + b.created,
                           (s.utxo.dead + SlotsOf(s.utxo.items, a.spent)) + SlotsOf(s.utxo.items + a.created, b.spent)),
                      s.nullifiers.(items := (s.nullifiers.items + a.nullifiers) + b.nullifiers),
                        (s.burned + a.fees) + b.fees)
  {
    SlotsJoin(s.utxo.items, a.created, a.spent, b.spent);
    assert s.utxo.items + (a.created + b.created) == (s.utxo.items + a.created) + b.created;
    assert s.nullifiers.items + (a.nullifiers + b.nullifiers) == (s.nullifiers.items + a.nullifiers) + b.nullifiers;
  }

  /** No transaction of the list spends what an earlier one creates. */
  ghost predicate Unchained(txs: seq<T.Transaction>) {
    forall i, j | 0 <= i < j < |txs| :: forall v <- txs[j].InputCms() :: v !in txs[i].outputs
  }

  lemma {:induction false} NotCreated(txs: seq<T.Transaction>, v: string)
    requires forall i | 0 <= i < |txs| :: v !in txs[i].outputs
    ensures v !in FromTxs(txs).created
  {
    if txs != [] {
      NotCreated(txs[..|txs| - 1], v);
    }
  }

  /** Running an unchained list one by one is applying its delta. */
  lemma {:induction false} BatchIsSequence(s: Ledger, txs: seq<T.Transaction>)
    requires s.Valid() && Unchained(txs)
    ensures RunAll(s, txs) == Apply(s, FromTxs(txs))
  {
    if txs == [] {
      AppliesIff(s, NoChange);
      assert SlotsOf(s.utxo.items, []) == {};
      assert s.utxo.items + [] == s.utxo.items && s.utxo.dead + {} == s.utxo.dead
        && s.nullifiers.items + [] == s.nullifiers.items;
    } else {
      var front, last := txs[..|txs| - 1], txs[|txs| - 1];
      assert Unchained(front) by {
        forall i, j | 0 <= i < j < |front| ensures forall v <- front[j].InputCms() :: v !in front[i].outputs {
          assert front[i] == txs[i] && front[j] == txs[j];
        }
      }
      BatchIsSequence(s, front);
      TxsInStep(front);
      forall v <- last.InputCms() ensures v !in FromTxs(front).created {
        forall i | 0 <= i < |front| ensures v !in front[i].outputs {
          assert txs[i] == front[i];
        }
        NotCreated(front, v);
      }
      ApplyInTurn(s, FromTxs(front), DeltaOf(last));
    }
  }
}
