/**
 Merging sibling deltas (chain/state.py, `merge_deltas`, `check_ceremony_txs`): what is kept, and that the
 merged delta is the kept grids' transactions run one by one.
 */
module Merging {
  import opened Basics
  import opened SealAccumulator
  import opened SealTheorems
  import opened Ledger
  import T = Transactions

  ghost predicate Disjoint(a: seq<string>, b: seq<string>) {
    forall v <- b :: v !in a
  }

  /** The delta collides with nothing taken so far, and does not spend or publish anything twice. */
  ghost predicate Admits(acc: Delta, d: Delta) {
    && Disjoint(acc.spent, d.spent) && Disjoint(acc.nullifiers, d.nullifiers) && Disjoint(acc.created, d.created)
    && NoRepeats(d.spent) && NoRepeats(d.nullifiers)
  }

  /** The joined deltas, in order. */
  function Joined(ds: seq<Delta>): Delta {
    if ds == [] then NoChange else Joined(ds[..|ds| - 1]).Join(ds[|ds| - 1])
  }

  /** The positions kept among the first n. */
  ghost function KeptUpTo(ds: seq<Delta>, n: nat): (r: seq<nat>)
    requires n <= |ds|
    ensures Below(r, n)
  {
    if n == 0 then []
    else
      var before := KeptUpTo(ds, n - 1);
      if Admits(Joined(Pick(ds, before)), ds[n - 1]) then before + [n - 1] else before
  }

  ghost predicate Below(at: seq<nat>, n: nat) {
    forall j | 0 <= j < |at| :: at[j] < n
  }

  function Pick<A>(ds: seq<A>, at: seq<nat>): (r: seq<A>)
    requires Below(at, |ds|)
    ensures |r| == |at| && forall j | 0 <= j < |at| :: r[j] == ds[at[j]]
  {
    seq(|at|, j requires 0 <= j < |at| => ds[at[j]])
  }

  lemma PickOneMore<A>(ds: seq<A>, at: seq<nat>, i: nat)
    requires Below(at, |ds|) && i < |ds|
    ensures Below(at + [i], |ds|) && Pick(ds, at + [i]) == Pick(ds, at) + [ds[i]]
  {
  }

  lemma JoinedOneMore(ds: seq<Delta>, d: Delta)
    ensures Joined(ds + [d]) == Joined(ds).Join(d)
  {
    assert (ds + [d])[..|ds|] == ds;
  }

  method Collides(d: Delta, spent: set<string>, nfs: set<string>, created: set<string>) returns (yes: bool)
    ensures yes <==>
              (exists v <- d.spent :: v in spent) || (exists v <- d.nullifiers :: v in nfs)
              || exists v <- d.created :: v in created
  {
    return (exists v <- d.spent :: v in spent) || (exists v <- d.nullifiers :: v in nfs)
      || exists v <- d.created :: v in created;
  }

  /** The state of the fold after the first n deltas. */
  ghost predicate Taken(ds: seq<Delta>, n: nat, kept: seq<nat>, merged: Delta) {
    n <= |ds| && kept == KeptUpTo(ds, n) && merged == Joined(Pick(ds, kept))
  }

  lemma Take(ds: seq<Delta>, n: nat, kept: seq<nat>, merged: Delta)
    requires n < |ds| && Taken(ds, n, kept, merged)
    ensures n !in kept
    ensures Admits(merged, ds[n]) ==> Taken(ds, n + 1, kept + [n], merged.Join(ds[n]))
    ensures !Admits(merged, ds[n]) ==> Taken(ds, n + 1, kept, merged)
  {
    hide Admits, Pick;
    PickOneMore(ds, kept, n);
    JoinedOneMore(Pick(ds, kept), ds[n]);
    assert Below(kept, n);
  }

  /** Fold sibling deltas into one, dropping those that collide with an earlier kept one or with
      themselves. */
  method MergeDeltas(ds: seq<Delta>) returns (merged: Delta, dropped: seq<nat>, ghost kept: seq<nat>)
    ensures kept == KeptUpTo(ds, |ds|) && merged == Joined(Pick(ds, kept))
    ensures forall i: nat :: i in dropped <==> i < |ds| && i !in kept
  {
    hide NoRepeats, Pick, Joined, KeptUpTo;
    merged, dropped, kept := NoChange, [], [];
    var seenSpent: set<string>, seenCreated: set<string>, seenNf: set<string> := {}, {}, {};
    StartTaken(ds);
    for i := 0 to |ds|
      invariant Taken(ds, i, kept, merged)
      invariant forall j: nat :: j in dropped <==> j < i && j !in kept
      invariant (forall v :: v in seenSpent <==> v in merged.spent)
                && (forall v :: v in seenCreated <==> v in merged.created)
      invariant forall v :: v in seenNf <==> v in merged.nullifiers
    {
      var d := ds[i];
      Take(ds, i, kept, merged);
      var clash := Collides(d, seenSpent, seenNf, seenCreated);
      assert clash <==> !(Disjoint(merged.spent, d.spent) && Disjoint(merged.nullifiers, d.nullifiers)
                          && Disjoint(merged.created, d.created));
      var repeatsSpent := RepeatsValues(d.spent);
      var repeatsNf := RepeatsValues(d.nullifiers);
      if clash || repeatsSpent || repeatsNf {
        dropped := dropped + [i];
      } else {
        merged := merged.Join(d);
        kept := kept + [i];
        seenSpent := seenSpent + set v | v in d.spent;
        seenCreated := seenCreated + set v | v in d.created;
        seenNf := seenNf + set v | v in d.nullifiers;
      }
    }
  }

  lemma StartTaken(ds: seq<Delta>)
    ensures Taken(ds, 0, [], NoChange)
  {
  }

  method RepeatsValues(values: seq<string>) returns (yes: bool)
    ensures yes <==> !NoRepeats(values)
  {
    yes := T.Repeats(values);
    assert T.NoRepeats(values) <==> NoRepeats(values);
  }

  // ---- what merging keeps ----

  lemma {:induction false} KeptIsOrdered(ds: seq<Delta>, n: nat)
    requires n <= |ds|
    ensures forall i, j | 0 <= i < j < |KeptUpTo(ds, n)| :: KeptUpTo(ds, n)[i] < KeptUpTo(ds, n)[j]
  {
    if n > 0 {
      KeptIsOrdered(ds, n - 1);
      var before := KeptUpTo(ds, n - 1);
      assert Below(before, n - 1);
    }
  }

  /** The merged delta repeats nothing exactly when no kept delta creates anything twice: a grid that does is kept. */
  lemma {:induction false} MergedIsDistinctIff(ds: seq<Delta>, n: nat)
    requires n <= |ds|
    ensures Joined(Pick(ds, KeptUpTo(ds, n))).Distinct() <==> CreatesOnce(ds, KeptUpTo(ds, n))
  {
    hide Pick, Delta.Distinct, Admits, CreatesOnce;
    if n == 0 {
      NothingCreated(ds);
    } else {
      MergedIsDistinctIff(ds, n - 1);
      var before, d := KeptUpTo(ds, n - 1), ds[n - 1];
      if Admits(Joined(Pick(ds, before)), d) {
        PickOneMore(ds, before, n - 1);
        JoinedOneMore(Pick(ds, before), d);
        AdmittedIsDistinctIff(Joined(Pick(ds, before)), d);
        CreatesOneMore(ds, before, n - 1);
      }
    }
  }

  /** None of the picked deltas creates a note twice. */
  ghost predicate CreatesOnce(ds: seq<Delta>, at: seq<nat>)
    requires Below(at, |ds|)
  {
    forall j {:trigger at[j]} | 0 <= j < |at| :: NoRepeats(ds[at[j]].created)
  }

  lemma NothingCreated(ds: seq<Delta>)
    ensures CreatesOnce(ds, []) && Joined(Pick(ds, [])).Distinct()
  {
  }

  lemma CreatesOneMore(ds: seq<Delta>, at: seq<nat>, i: nat)
    requires Below(at, |ds|) && i < |ds|
    ensures Below(at + [i], |ds|) && (CreatesOnce(ds, at + [i]) <==> CreatesOnce(ds, at) && NoRepeats(ds[i].created))
  {
    hide NoRepeats;
    var more := at + [i];
    assert more[|at|] == i && forall j | 0 <= j < |at| :: more[j] == at[j];
  }

  lemma AdmittedIsDistinctIff(acc: Delta, d: Delta)
    requires Admits(acc, d)
    ensures acc.Join(d).Distinct() <==> acc.Distinct() && NoRepeats(d.created)
  {
    hide NoRepeats;
    NoRepeatsSplit(acc.spent, d.spent);
    NoRepeatsSplit(acc.created, d.created);
    NoRepeatsSplit(acc.nullifiers, d.nullifiers);
  }

  /** A single delta that creates one note twice is kept whole, passes `can_apply_delta` wherever the note is new, and
      no ledger applies it. */
  lemma CreatedTwiceIsKept(s: Ledger, cm: string)
    requires s.Valid()
    ensures var ds := [Delta([], [cm, cm], [], 0)];
            && KeptUpTo(ds, 1) == [0] && Joined(Pick(ds, [0])) == ds[0]
            && (CanApply(s, ds[0]) <==> cm !in s.utxo.items) && Apply(s, Joined(Pick(ds, [0]))).None?
  {
    var ds := [Delta([], [cm, cm], [], 0)];
    assert KeptUpTo(ds, 0) == [] && Pick(ds, []) == [];
    assert Pick(ds, [0]) == ds && ds[..0] == [];
    assert NoChange.Join(ds[0]) == ds[0];
    assert [cm, cm][0] == [cm, cm][1];
    AppliesIff(s, ds[0]);
  }

  lemma {:induction false} JoinedCanApply(s: Ledger, ds: seq<Delta>)
    requires forall d <- ds :: CanApply(s, d)
    ensures CanApply(s, Joined(ds))
  {
    if ds != [] {
      JoinedCanApply(s, ds[..|ds| - 1]);
      assert CanApply(s, ds[|ds| - 1]);
    }
  }

  /** Deltas each of which passes `can_apply_delta` on one ledger merge into a delta that passes, and that applies
      exactly when no kept one creates a note twice. */
  lemma MergedAppliesIff(s: Ledger, ds: seq<Delta>)
    requires s.Valid() && forall d <- ds :: CanApply(s, d)
    ensures var kept := KeptUpTo(ds, |ds|);
            CanApply(s, Joined(Pick(ds, kept))) && (Apply(s, Joined(Pick(ds, kept))).Some? <==> CreatesOnce(ds, kept))
  {
    hide CanApply, NoRepeats, Apply, Joined, KeptUpTo, Ledger.Valid;
    var kept := KeptUpTo(ds, |ds|);
    PickedFrom(ds, kept);
    JoinedCanApply(s, Pick(ds, kept));
    MergedIsDistinctIff(ds, |ds|);
    AppliesIff(s, Joined(Pick(ds, kept)));
  }

  lemma PickedFrom<A>(ds: seq<A>, at: seq<nat>)
    requires Below(at, |ds|)
    ensures forall d <- Pick(ds, at) :: d in ds
  {
  }

  /** Merging what was kept drops nothing and changes nothing. */
  lemma {:induction false} MergeAgain(ds: seq<Delta>, n: nat)
    requires n <= |ds|
    ensures var picked := Pick(ds, KeptUpTo(ds, n));
            KeptUpTo(picked, |picked|) == Naturals(|picked|) && Pick(picked, Naturals(|picked|)) == picked
  {
    hide Admits, Joined, Pick, Naturals;
    PickNaturals(Pick(ds, KeptUpTo(ds, n)), |KeptUpTo(ds, n)|);
    if n > 0 {
      var before := KeptUpTo(ds, n - 1);
      MergeAgain(ds, n - 1);
      if Admits(Joined(Pick(ds, before)), ds[n - 1]) {
        PickOneMore(ds, before, n - 1);
        KeptOneMore(Pick(ds, before), ds[n - 1]);
      }
    }
  }

  function Naturals(n: nat): (r: seq<nat>)
    ensures |r| == n && Below(r, n) && forall j | 0 <= j < n :: r[j] == j
  {
    seq(n, i requires 0 <= i < n => i)
  }

  lemma PickNaturals<A>(ds: seq<A>, n: nat)
    requires n <= |ds|
    ensures Pick(ds, Naturals(n)) == ds[..n]
  {
  }

  lemma KeptOneMore(front: seq<Delta>, d: Delta)
    requires KeptUpTo(front, |front|) == Naturals(|front|) && Admits(Joined(front), d)
    ensures KeptUpTo(front + [d], |front| + 1) == Naturals(|front| + 1)
  {
    hide Admits, Joined, KeptUpTo, Naturals, Pick;
    var all, n := front + [d], |front|;
    KeptOfPrefix(front, d, n);
    PickNaturals(all, n);
    assert all[..n] == front && all[n] == d;
    KeptNext(all, n);
    NaturalsNext(n);
  }

  lemma NaturalsNext(n: nat)
    ensures Naturals(n) + [n] == Naturals(n + 1)
  {
  }

  lemma KeptNext(ds: seq<Delta>, n: nat)
    requires n < |ds| && Admits(Joined(Pick(ds, KeptUpTo(ds, n))), ds[n])
    ensures KeptUpTo(ds, n + 1) == KeptUpTo(ds, n) + [n]
  {
    hide Admits, Joined;
  }

  lemma PickFromPrefix<A>(ds: seq<A>, d: A, at: seq<nat>)
    requires Below(at, |ds|)
    ensures Pick(ds + [d], at) == Pick(ds, at)
  {
  }

  /** What is kept of a prefix depends on the prefix only. */
  lemma {:induction false} KeptOfPrefix(ds: seq<Delta>, d: Delta, n: nat)
    requires n <= |ds|
    ensures KeptUpTo(ds + [d], n) == KeptUpTo(ds, n)
  {
    hide Pick, Admits, Joined;
    if n > 0 {
      KeptOfPrefix(ds, d, n - 1);
      PickFromPrefix(ds, d, KeptUpTo(ds, n - 1));
    }
  }

  // ---- a grid's set of transactions ----

  /** Which grid a transaction belongs to: the one all its nullifiers fall in. */
  function Partition(number: string -> nat, tx: T.Transaction, parts: nat): Option<nat>
    requires parts > 0
  {
    if tx.inputs != [] && forall j | 0 <= j < |tx.inputs| ::
       number(tx.inputs[j].nullifier) % parts == number(tx.inputs[0].nullifier) % parts
    then Some(number(tx.inputs[0].nullifier) % parts)
    else None
  }

  /** `check_transaction` once the proof is settled. */
  predicate FitsLedger(s: Ledger, tx: T.Transaction) {
    && (forall cm <- tx.InputCms() :: s.utxo.Live(cm))
    && (forall nf <- tx.Nullifiers() :: nf !in s.nullifiers.items)
    && (forall cm <- tx.outputs :: cm !in s.utxo.items)
  }

  /** Two transactions of one set share no input, no nullifier and no output. */
  ghost predicate Apart(a: T.Transaction, b: T.Transaction) {
    Disjoint(a.InputCms(), b.InputCms()) && Disjoint(a.Nullifiers(), b.Nullifiers()) && Disjoint(a.outputs, b.outputs)
  }

  /** A grid's set, measured against the ledger as of the last network block. */
  ghost predicate CeremonySet(s: Ledger, txs: seq<T.Transaction>, verify: T.Transaction -> bool, number: string -> nat,
                              part: nat, parts: nat)
    requires parts > 0
  {
    && (forall i | 0 <= i < |txs| ::
        verify(txs[i]) && Partition(number, txs[i], parts) == Some(part) && FitsLedger(s, txs[i]))
    && forall i, j | 0 <= i < j < |txs| :: Apart(txs[i], txs[j])
  }

  ghost predicate IsSomeGrids(s: Ledger, txs: seq<T.Transaction>, verify: T.Transaction -> bool, number: string -> nat,
                              parts: nat)
    requires parts > 0
  {
    exists part: nat :: CeremonySet(s, txs, verify, number, part, parts)
  }

  /** Each transaction repeats nothing in itself, as `authenticate` checks. */
  ghost predicate EachDistinct(txs: seq<T.Transaction>) {
    forall i | 0 <= i < |txs| :: DeltaOf(txs[i]).Distinct()
  }

  lemma {:induction false} FromTxsFromSome(txs: seq<T.Transaction>, v: string)
    ensures v in FromTxs(txs).spent <==> exists i :: 0 <= i < |txs| && v in txs[i].InputCms()
    ensures v in FromTxs(txs).nullifiers <==> exists i :: 0 <= i < |txs| && v in txs[i].Nullifiers()
    ensures v in FromTxs(txs).created <==> exists i :: 0 <= i < |txs| && v in txs[i].outputs
  {
    hide T.Transaction.Nullifiers, T.Transaction.InputCms;
    if txs != [] {
      var front, last := txs[..|txs| - 1], txs[|txs| - 1];
      FromTxsFromSome(front, v);
      assert forall i | 0 <= i < |front| :: front[i] == txs[i];
      assert txs[|front|] == last;
    }
  }

  /** A checked set's delta applies to the ledger it was checked against, and repeats nothing. */
  lemma {:induction false} SetDelta(s: Ledger, txs: seq<T.Transaction>, verify: T.Transaction -> bool,
                                    number: string -> nat, part: nat, parts: nat)
    requires parts > 0 && CeremonySet(s, txs, verify, number, part, parts) && EachDistinct(txs)
    ensures CanApply(s, FromTxs(txs)) && FromTxs(txs).Distinct()
  {
    if txs != [] {
      var front, last := txs[..|txs| - 1], txs[|txs| - 1];
      assert forall i | 0 <= i < |front| :: front[i] == txs[i];
      SetDelta(s, front, verify, number, part, parts);
      var acc, d := FromTxs(front), DeltaOf(last);
      forall v {
        FromTxsFromSome(front, v);
      }
      assert forall i | 0 <= i < |front| :: Apart(txs[i], txs[|front|]);
      NoRepeatsSplit(acc.spent, d.spent);
      NoRepeatsSplit(acc.created, d.created);
      NoRepeatsSplit(acc.nullifiers, d.nullifiers);
    }
  }

  // ---- the merge is the sequence ----

  function Deltas(groups: seq<seq<T.Transaction>>): (r: seq<Delta>)
    ensures |r| == |groups|
  {
    seq(|groups|, g requires 0 <= g < |groups| => FromTxs(groups[g]))
  }

  function Flatten(groups: seq<seq<T.Transaction>>): seq<T.Transaction> {
    if groups == [] then [] else Flatten(groups[..|groups| - 1]) + groups[|groups| - 1]
  }

  lemma {:induction false} FromTxsJoin(a: seq<T.Transaction>, b: seq<T.Transaction>)
    ensures FromTxs(a + b) == FromTxs(a).Join(FromTxs(b))
  {
    hide Delta.Join, DeltaOf;
    if b == [] {
      assert a + b == a;
      JoinNothing(FromTxs(a));
    } else {
      var front, last := b[..|b| - 1], b[|b| - 1];
      assert (a + b)[..|a + b| - 1] == a + front;
      FromTxsJoin(a, front);
      JoinAssociates(FromTxs(a), FromTxs(front), DeltaOf(last));
    }
  }

  lemma JoinNothing(a: Delta)
    ensures a.Join(NoChange) == a
  {
    assert a.spent + [] == a.spent && a.created + [] == a.created && a.nullifiers + [] == a.nullifiers;
  }

  lemma JoinAssociates(a: Delta, b: Delta, c: Delta)
    ensures a.Join(b).Join(c) == a.Join(b.Join(c))
  {
    assert a.spent + b.spent + c.spent == a.spent + (b.spent + c.spent);
    assert a.created + b.created + c.created == a.created + (b.created + c.created);
    assert a.nullifiers + b.nullifiers + c.nullifiers == a.nullifiers + (b.nullifiers + c.nullifiers);
  }

  lemma {:induction false} JoinedIsFlat(groups: seq<seq<T.Transaction>>)
    ensures Joined(Deltas(groups)) == FromTxs(Flatten(groups))
  {
    if groups != [] {
      var front, last := groups[..|groups| - 1], groups[|groups| - 1];
      JoinedIsFlat(front);
      assert Deltas(groups)[..|groups| - 1] == Deltas(front);
      FromTxsJoin(Flatten(front), last);
    }
  }

  /** Everything spent is live in the ledger, and nothing created was ever in it: nothing is chained. */
  lemma LiveIsUnchained(s: Ledger, txs: seq<T.Transaction>)
    requires forall i | 0 <= i < |txs| :: FitsLedger(s, txs[i])
    ensures Unchained(txs)
  {
    forall i, j | 0 <= i < j < |txs| ensures forall v <- txs[j].InputCms() :: v !in txs[i].outputs {
      assert FitsLedger(s, txs[i]) && FitsLedger(s, txs[j]);
      forall v <- txs[j].InputCms() ensures v !in txs[i].outputs {
        assert s.utxo.Live(v);
      }
    }
  }

  lemma {:induction false} FlattenFits(s: Ledger, groups: seq<seq<T.Transaction>>)
    requires forall g <- groups :: forall i | 0 <= i < |g| :: FitsLedger(s, g[i])
    ensures forall i | 0 <= i < |Flatten(groups)| :: FitsLedger(s, Flatten(groups)[i])
  {
    if groups != [] {
      var last := groups[|groups| - 1];
      FlattenFits(s, groups[..|groups| - 1]);
      assert last in groups;
    }
  }

  /** Sets that each pass their grid's check against one ledger merge into a delta that passes
      `can_apply_delta`, and applying it is running the kept grids' transactions one by one, every one of
      them accepted. */
  lemma MergeIsSequence(s: Ledger, groups: seq<seq<T.Transaction>>, verify: T.Transaction -> bool,
                        number: string -> nat, parts: nat)
    requires s.Valid() && parts > 0
    requires forall g | 0 <= g < |groups| :: EachDistinct(groups[g]) && IsSomeGrids(s, groups[g], verify, number, parts)
    ensures var kept := KeptUpTo(Deltas(groups), |groups|);
            var merged := Joined(Pick(Deltas(groups), kept));
            && CanApply(s, merged)
            && Apply(s, merged).Some? && Apply(s, merged).value.Valid()
            && RunAll(s, Flatten(Pick(groups, kept))) == Apply(s, merged)
  {
    hide CeremonySet, CanApply, Apply, KeptUpTo, Joined, Ledger.Valid, NoRepeats, EachDistinct, FitsLedger;
    var ds := Deltas(groups);
    var kept := KeptUpTo(ds, |groups|);
    forall g | 0 <= g < |groups| ensures CanApply(s, ds[g]) && NoRepeats(ds[g].created) {
      var part :| CeremonySet(s, groups[g], verify, number, part, parts);
      SetDelta(s, groups[g], verify, number, part, parts);
      DistinctCreates(ds[g]);
    }
    MergedAppliesIff(s, ds);
    var picked := Pick(groups, kept);
    PickDeltas(groups, kept);
    JoinedIsFlat(picked);
    PickedFrom(groups, kept);
    forall g <- picked ensures forall i | 0 <= i < |g| :: FitsLedger(s, g[i]) {
      var j :| 0 <= j < |groups| && groups[j] == g;
      var part :| CeremonySet(s, groups[j], verify, number, part, parts);
      SetFits(s, g, verify, number, part, parts);
    }
    FlattenFits(s, picked);
    LiveIsUnchained(s, Flatten(picked));
    BatchIsSequence(s, Flatten(picked));
    TxsInStep(Flatten(picked));
    ApplyKeepsValid(s, FromTxs(Flatten(picked)));
  }

  lemma DistinctCreates(d: Delta)
    requires d.Distinct()
    ensures NoRepeats(d.created)
  {
  }

  lemma SetFits(s: Ledger, txs: seq<T.Transaction>, verify: T.Transaction -> bool, number: string -> nat, part: nat,
                parts: nat)
    requires parts > 0 && CeremonySet(s, txs, verify, number, part, parts)
    ensures forall i | 0 <= i < |txs| :: FitsLedger(s, txs[i])
  {
  }

  lemma PickDeltas(groups: seq<seq<T.Transaction>>, at: seq<nat>)
    requires Below(at, |groups|)
    ensures Pick(Deltas(groups), at) == Deltas(Pick(groups, at))
  {
  }
}
