/**
 What a tier-1 block that seats accept is worth (chain/tiers.py, `GroupWorkload.validate`): its children collide in
 nothing, so merging loses none of them, each is certified and of its own partition, and no seat's grid is left out
 unsaid.
 */
module GroupWorth {
  import opened Basics
  import opened Locality
  import opened Ledger
  import opened Merging
  import opened GridWorkload
  import opened TierBlocks
  import opened SealTheorems
  import X = CrossGrid
  import T = Transactions

  /** No note spent by both, no nullifier published by both, no note created by both. */
  ghost predicate ShareNothing(a: Delta, b: Delta) {
    Disjoint(a.spent, b.spent) && Disjoint(a.nullifiers, b.nullifiers) && Disjoint(a.created, b.created)
  }

  ghost predicate ApartFrom(ds: seq<Delta>, d: Delta) {
    forall x <- ds :: ShareNothing(x, d)
  }

  ghost predicate RepeatsNothing(d: Delta) {
    NoRepeats(d.spent) && NoRepeats(d.nullifiers)
  }

  /** The first n collide in nothing. */
  ghost predicate Compatible(ds: seq<Delta>, n: nat)
    requires n <= |ds|
  {
    && (forall i {:trigger ds[i]} | 0 <= i < n :: RepeatsNothing(ds[i]))
    && forall i, j {:trigger ds[i], ds[j]} | 0 <= i < j < n :: ShareNothing(ds[i], ds[j])
  }

  lemma AdmitsJoinedIff(ds: seq<Delta>, d: Delta)
    ensures Admits(Joined(ds), d) <==> RepeatsNothing(d) && ApartFrom(ds, d)
  {
    hide NoRepeats, Joined;
    forall v
      ensures v in Joined(ds).spent <==> exists x <- ds :: v in x.spent
      ensures v in Joined(ds).nullifiers <==> exists x <- ds :: v in x.nullifiers
      ensures v in Joined(ds).created <==> exists x <- ds :: v in x.created {
      X.JoinedFrom(ds, v);
    }
  }

  lemma CompatibleStep(ds: seq<Delta>, n: nat)
    requires 0 < n <= |ds|
    ensures Compatible(ds, n) <==>
            Compatible(ds, n - 1) && RepeatsNothing(ds[n - 1]) && ApartFrom(ds[..n - 1], ds[n - 1])
  {
    hide ShareNothing, RepeatsNothing;
    assert forall i | 0 <= i < n - 1 :: ds[..n - 1][i] == ds[i] && ds[i] in ds[..n - 1];
  }

  /** A merge drops nothing exactly when no delta repeats an input or a nullifier and no two share anything. */
  lemma {:induction false} DropsNothingIff(ds: seq<Delta>, n: nat)
    requires n <= |ds|
    ensures KeptUpTo(ds, n) == Naturals(n) <==> Compatible(ds, n)
  {
    hide Admits, Joined, Pick, Naturals, ShareNothing, RepeatsNothing, KeptUpTo, Compatible, ApartFrom;
    if n == 0 {
      NothingToKeep(ds);
    } else {
      DropsNothingIff(ds, n - 1);
      KeptAllStep(ds, n);
      CompatibleStep(ds, n);
      if KeptUpTo(ds, n - 1) == Naturals(n - 1) {
        PickNaturals(ds, n - 1);
        AdmitsJoinedIff(ds[..n - 1], ds[n - 1]);
      }
    }
  }

  lemma NothingToKeep(ds: seq<Delta>)
    ensures KeptUpTo(ds, 0) == Naturals(0) && Compatible(ds, 0)
  {
  }

  /** All of n are kept when all before were and the last is admitted. */
  lemma KeptAllStep(ds: seq<Delta>, n: nat)
    requires 0 < n <= |ds|
    ensures KeptUpTo(ds, n) == Naturals(n) <==>
            KeptUpTo(ds, n - 1) == Naturals(n - 1) && Admits(Joined(Pick(ds, KeptUpTo(ds, n - 1))), ds[n - 1])
  {
    hide Admits, Joined, Pick;
    var before := KeptUpTo(ds, n - 1);
    NaturalsNext(n - 1);
    if KeptUpTo(ds, n) == Naturals(n) {
      assert Naturals(n)[n - 1] == n - 1;
      assert KeptUpTo(ds, n) == before + [n - 1];
      assert before == KeptUpTo(ds, n)[..n - 1] == Naturals(n)[..n - 1] == Naturals(n - 1);
    }
  }

  /** What the header says of the block, and what holds of each child and of any two. */
  lemma GroupAccepted(d: Desk, work: GroupWork, certHolds: ChildCheck, number: string -> nat, mine: Option<nat>,
                      b: GroupBlock)
    requires GroupAccepts(d, work, certHolds, number, mine, b)
    ensures b.header.groupId == work.groupId && b.header.epoch == work.epoch && b.header.prevHash == d.tip
            && b.header.leader == work.leader && b.header.dropped == b.dropped
    ensures |b.header.children| == |b.children|
            && forall i | 0 <= i < |b.children| ::
                 b.header.children[i] == b.children[i].header
                 && certHolds(b.children[i])
    ensures forall child <- b.children :: forall tx <- child.txs :: forall t <- tx.inputs ::
              child.header.parts > 0 && number(t.nullifier) % child.header.parts == child.header.partition
    ensures forall i, j | 0 <= i < j < |b.children| :: ShareNothing(b.children[i].delta, b.children[j].delta)
    ensures MergedOf(b.children) == Joined(DeltasOf(b.children))
  {
    hide ShareNothing, RepeatsNothing, Joined, KeptUpTo, Naturals, Partition;
    var ds := DeltasOf(b.children);
    DropsNothingIff(ds, |ds|);
    PickNaturals(ds, |ds|);
    assert ds[..|ds|] == ds;
    forall i, j | 0 <= i < j < |b.children| ensures ShareNothing(b.children[i].delta, b.children[j].delta) {
      assert ShareNothing(ds[i], ds[j]);
    }
    forall child <- b.children, tx <- child.txs, t <- tx.inputs
      ensures child.header.parts > 0 && number(t.nullifier) % child.header.parts == child.header.partition {
      assert InPartition(number, child);
      X.PartitionOf(number, tx, child.header.parts);
    }
  }

  /** The seat that brought a block finds its grid among the children, or its own header among those named as dropped.
      */
  lemma NobodyIsOmitted(d: Desk, work: GroupWork, certHolds: ChildCheck, number: string -> nat, i: nat, b: GroupBlock)
    requires GroupAccepts(d, work, certHolds, number, Some(i), b) && i < |work.children|
    ensures (exists child <- b.children :: child.header.gridId == work.children[i].header.gridId)
            || exists h <- b.header.dropped :: h == work.children[i].header
  {
    hide InPartition, KeptUpTo;
    if x :| 0 <= x < |b.children| && b.children[x].header.gridId == work.children[i].header.gridId {
      assert b.children[x] in b.children;
    }
  }
}
