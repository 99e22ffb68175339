/** Whole runs of joins and network blocks, and the run in which the plan calls for a merge that cannot be applied. */
module GrowthRuns {
  import opened Basics
  import opened Locality
  import opened Register
  import opened GridWorld
  import opened Growth
  import S = Seats
  import D = Distances

  datatype Step =
    | Join(n: NodeId, g: GridId)
    | Block(rolls: map<GridId, Roll>, faults: map<GridId, set<NodeId>>, service: map<NodeId, Service>,
            founding: Option<Founding>, merge: Option<Merge>)

  /** The grids move after the rolls and the service: a founding, then a merge. */
  ghost predicate Moves(v: World, founding: Option<Founding>, merge: Option<Merge>, after: World) {
    && (founding.Some? ==> CanFound(v, founding.value) && founding.value.donor in v.layout.members)
    && var x := if founding.Some? then Founded(v, founding.value) else v;
       && (merge.Some? ==>
           CanMerge(x, merge.value) && merge.value.gone in x.layout.members && merge.value.into in x.layout.members)
       && after == if merge.Some? then Merged(x, merge.value) else x
  }

  ghost predicate Steps(w: World, s: Step, after: World) {
    match s
    case Join(n, g) => g in w.books && g in w.layout.members && after == Admitted(w, n, g)
    case Block(rolls, faults, service, founding, merge) =>
      exists mid :: Rolled(w, mid, rolls, faults) && Moves(Credited(mid, service), founding, merge, after)
  }

  /** What the steps of an undisturbed network look like: only strangers join, rolls and faults name members of their
      grid, and a new grid's name is the donor's region's. */
  ghost predicate Orderly(w: World, s: Step, name: Naming) {
    match s
    case Join(n, g) => n !in w.layout.assignment
    case Block(rolls, faults, service, founding, merge) =>
      && (forall g :: g in rolls && g in w.books ==>
          rolls[g].seated <= w.books[g].members.Keys && Faulted(faults, g) <= w.books[g].members.Keys)
      && (founding.Some? && founding.value.donor in w.layout.grids ==>
            exists i: nat :: founding.value.child == name(w.layout.grids[founding.value.donor].region, i))
  }

  lemma MovesPartitioned(v: World, founding: Option<Founding>, merge: Option<Merge>, after: World, threshold: nat,
                         name: Naming)
    requires v.Partitioned(threshold) && v.layout.Named(name) && Moves(v, founding, merge, after)
    requires founding.Some? ==> exists i: nat ::
             founding.value.child == name(v.layout.grids[founding.value.donor].region, i)
    ensures after.Partitioned(threshold) && after.layout.Named(name)
  {
    hide Layout.Named, World.Partitioned;
    var x := if founding.Some? then Founded(v, founding.value) else v;
    if founding.Some? {
      var i: nat :| founding.value.child == name(v.layout.grids[founding.value.donor].region, i);
      FoundedPartitioned(v, threshold, founding.value);
      FoundedNamed(v.layout, founding.value.donor, i, founding.value.cohort, name);
    }
    if merge.Some? {
      MergedPartitioned(x, threshold, merge.value);
      MergedNamed(x.layout, merge.value.gone, merge.value.into, name);
    }
  }

  lemma StepPartitioned(w: World, s: Step, after: World, threshold: nat, name: Naming)
    requires threshold > 0 && w.Partitioned(threshold) && w.layout.Named(name) && Steps(w, s, after)
             && Orderly(w, s, name)
    ensures after.Partitioned(threshold) && after.layout.Named(name)
  {
    hide World.Partitioned;
    match s
    case Join(n, g) =>
      AdmittedPartitioned(w, threshold, n, g);
    case Block(rolls, faults, service, founding, merge) =>
      var mid :| Rolled(w, mid, rolls, faults) && Moves(Credited(mid, service), founding, merge, after);
      RolledPartitionedIff(w, mid, threshold, rolls, faults);
      CreditedPartitioned(mid, threshold, service);
      MovesPartitioned(Credited(mid, service), founding, merge, after, threshold, name);
  }

  ghost predicate IsRun(worlds: seq<World>, steps: seq<Step>, name: Naming) {
    && |worlds| == |steps| + 1
    && forall i | 0 <= i < |steps| :: Steps(worlds[i], steps[i], worlds[i + 1]) && Orderly(worlds[i], steps[i], name)
  }

  lemma {:induction false} RunPartitioned(worlds: seq<World>, steps: seq<Step>, threshold: nat, name: Naming, k: nat)
    requires threshold > 0 && IsRun(worlds, steps, name) && worlds[0].Partitioned(threshold)
             && worlds[0].layout.Named(name) && k <= |steps|
    ensures worlds[k].Partitioned(threshold) && worlds[k].layout.Named(name)
  {
    hide Steps, Moves;
    if k > 0 {
      RunPartitioned(worlds, steps, threshold, name, k - 1);
      hide World.Partitioned, Layout.Named;
      assert Steps(worlds[k - 1], steps[k - 1], worlds[k]);
      StepPartitioned(worlds[k - 1], steps[k - 1], worlds[k], threshold, name);
    }
  }

  ghost predicate HasOneOwner(w: World, part: nat) {
    && (exists g :: Owns(w, g, part))
    && forall g, h {:trigger Owns(w, g, part), Owns(w, h, part)} :: Owns(w, g, part) && Owns(w, h, part) ==> g == h
  }

  ghost predicate Owns(w: World, g: GridId, part: nat) {
    g in w.books && g in w.layout.grids && w.layout.grids[g].index == part
  }

  ghost predicate InRegister(w: World, n: NodeId, g: GridId) {
    g in w.books && n in w.books[g].members
  }

  ghost predicate Belongs(w: World, n: NodeId, g: GridId) {
    g in w.books && n in w.layout.assignment && w.layout.assignment[n] == g
  }

  /** At every point of every run, through joins, foundings and merges: each partition number belongs to one grid, and
      each node sits in the register its grid names and in no other. */
  lemma GridsPartitionTheNetwork(worlds: seq<World>, steps: seq<Step>, threshold: nat, name: Naming, k: nat)
    requires threshold > 0 && IsRun(worlds, steps, name) && worlds[0].Partitioned(threshold)
             && worlds[0].layout.Named(name) && k <= |steps|
    ensures forall part: nat {:trigger HasOneOwner(worlds[k], part)} :: part < |worlds[k].layout.grids| ==>
            HasOneOwner(worlds[k], part)
    ensures forall n, g {:trigger InRegister(worlds[k], n, g)} ::
              InRegister(worlds[k], n, g)
              <==> Belongs(worlds[k], n, g)
  {
    RunPartitioned(worlds, steps, threshold, name, k);
    WorldIsPartitioned(worlds[k], threshold);
  }

  lemma WorldIsPartitioned(w: World, threshold: nat)
    requires w.Partitioned(threshold)
    ensures forall part: nat {:trigger HasOneOwner(w, part)} :: part < |w.layout.grids| ==> HasOneOwner(w, part)
    ensures forall n, g {:trigger InRegister(w, n, g)} :: InRegister(w, n, g) <==> Belongs(w, n, g)
  {
    forall part: nat {:trigger HasOneOwner(w, part)} | part < |w.layout.grids| ensures HasOneOwner(w, part) {
      OneOwner(w.layout, part);
      var g :| g in w.layout.grids && w.layout.grids[g].index == part;
      assert Owns(w, g, part);
    }
    forall n, g ensures InRegister(w, n, g) <==> Belongs(w, n, g) {
      if g in w.books {
        OneRegister(w, threshold, n, g);
      }
    }
  }

  // ---- the merge that cannot be applied ----

  /** A grid founded in one block carries no roll in the next, so its register stands one epoch behind its siblings',
      and the next block cannot merge any of them with it. */
  lemma ChildIsTooYoung(v: World, f: Founding, w: World, after: World, rolls: map<GridId, Roll>,
                        faults: map<GridId, set<NodeId>>, service: map<NodeId, Service>, m: Merge)
    requires CanFound(v, f) && f.donor in v.layout.members && w == Founded(v, f)
    requires Rolled(w, after, rolls, faults)
    requires f.child !in rolls && m.gone in rolls && m.gone in w.books && m.into == f.child
    requires rolls[m.gone].epoch == v.books[f.donor].epoch
    ensures !CanMerge(Credited(after, service), m)
  {
    assert RolledAt(w, after, rolls, faults, m.gone) && RolledAt(w, after, rolls, faults, f.child);
  }

  function Attesting(some: set<NodeId>, epoch: int, threshold: nat): map<NodeId, Record> {
    map n | n in some :: Founder(epoch, threshold)
  }

  /** Two grids of one region, everyone an attester. */
  ghost function TwoGrids(p: Params, a: GridId, b: GridId, large: set<NodeId>, small: set<NodeId>, epoch: int): World {
    World(Layout(map[a := GridSpec(a, 0, 0), b := GridSpec(b, 0, 1)],
                 map n | n in large + small :: if n in large then a else b,
                 map[a := Ordered(large), b := Ordered(small)]),
          map[a := Register(a, epoch, p.threshold, p.forgiveness, Attesting(large, epoch, p.threshold), map[]),
              b := Register(b, epoch, p.threshold, p.forgiveness, Attesting(small, epoch, p.threshold), map[])])
  }

  /** What the proofs need of it. */
  ghost predicate IsPair(w: World, p: Params, a: GridId, b: GridId, large: set<NodeId>, small: set<NodeId>,
                         epoch: int) {
    && a != b && large !! small && w.layout.grids.Keys == {a, b} == w.layout.members.Keys == w.books.Keys
    && |w.layout.grids| == 2
    && w.layout.grids[a] == GridSpec(a, 0, 0) && w.layout.grids[b] == GridSpec(b, 0, 1)
    && w.layout.members[a] == Ordered(large) && w.layout.members[b] == Ordered(small)
    && w.layout.assignment.Keys == large + small && (forall n <- large :: w.layout.assignment[n] == a)
       && (forall n <- small :: w.layout.assignment[n] == b)
    && w.books[a] == Register(a, epoch, p.threshold, p.forgiveness, Attesting(large, epoch, p.threshold), map[])
    && w.books[b] == Register(b, epoch, p.threshold, p.forgiveness, Attesting(small, epoch, p.threshold), map[])
  }

  lemma TwoGridsIsPair(p: Params, a: GridId, b: GridId, large: set<NodeId>, small: set<NodeId>, epoch: int)
    requires a != b && large !! small
    ensures IsPair(TwoGrids(p, a, b, large, small, epoch), p, a, b, large, small, epoch)
  {
    hide Ordered, Attesting;
  }

  /** Sizes at which the large grid must split, its child is viable, and the small grid must then fold into the child:
      with the default parameters, eleven and two. */
  ghost predicate Trap(p: Params, large: nat, small: nat) {
    && p.threshold > 0 && 2 * p.gridSize < large && 2 * p.cohort < large <= 2 * p.gridSize + p.cohort
    && 2 * small < p.gridSize <= 2 * p.cohort && p.cohort + small <= 2 * p.gridSize
  }

  lemma PairSound(w: World, p: Params, a: GridId, b: GridId, large: set<NodeId>, small: set<NodeId>, epoch: int)
    requires IsPair(w, p, a, b, large, small, epoch)
    ensures w.layout.Sound()
  {
    hide Ordered, S.StrictlySorted, S.Distinct, Attesting;
    OrderedHolds(large);
    OrderedHolds(small);
    forall g <- w.layout.members ensures w.layout.Listed(g) {
      assert g == a || g == b;
    }
    forall n <- w.layout.assignment ensures w.layout.AtHome(n) {
    }
    forall g <- w.layout.grids ensures w.layout.Placed(g, 2) {
      assert g == a || g == b;
    }
    forall g, h | g in w.layout.grids && h in w.layout.grids ensures w.layout.Apart(g, h) {
      assert (g == a || g == b) && (h == a || h == b);
    }
  }

  lemma AttestingSound(g: GridId, some: set<NodeId>, epoch: int, threshold: nat, forgiveness: nat)
    requires threshold > 0
    ensures Register(g, epoch, threshold, forgiveness, Attesting(some, epoch, threshold), map[]).Sound()
  {
  }

  lemma PairPartitioned(w: World, p: Params, a: GridId, b: GridId, large: set<NodeId>, small: set<NodeId>, epoch: int)
    requires IsPair(w, p, a, b, large, small, epoch) && p.threshold > 0
    ensures w.Partitioned(p.threshold)
  {
    hide Ordered, S.StrictlySorted, S.Distinct, Layout.Sound, Register.Sound;
    PairSound(w, p, a, b, large, small, epoch);
    OrderedHolds(large);
    OrderedHolds(small);
    AttestingSound(a, large, epoch, p.threshold, p.forgiveness);
    AttestingSound(b, small, epoch, p.threshold, p.forgiveness);
    forall g <- w.books ensures w.Kept(g, p.threshold) {
      assert g == a || g == b;
    }
  }

  lemma OrderedSize(s: set<nat>)
    ensures |Ordered(s)| == |s|
  {
    OrderedHolds(s);
    S.DistinctSize(Ordered(s));
  }

  lemma PairEligible(w: World, p: Params, a: GridId, b: GridId, large: set<NodeId>, small: set<NodeId>, epoch: int)
    requires IsPair(w, p, a, b, large, small, epoch)
    ensures w.Eligible(a) == large
  {
    hide Ordered, S.StrictlySorted, S.Distinct;
    OrderedHolds(large);
  }

  lemma PairDue(w: World, p: Params, a: GridId, b: GridId, large: set<NodeId>, small: set<NodeId>, epoch: int)
    requires IsPair(w, p, a, b, large, small, epoch) && Trap(p, |large|, |small|)
    ensures w.Eligible(a) == large && SplitDue(w, p, a) && !SplitDue(w, p, b)
  {
    hide Ordered, S.StrictlySorted, S.Distinct, S.SetOf, IsLeast, World.Eligible;
    OrderedSize(large);
    OrderedSize(small);
    PairEligible(w, p, a, b, large, small, epoch);
  }

  /** In the first block only the large grid splits. */
  lemma LargeSplits(w: World, p: Params, a: GridId, b: GridId, large: set<NodeId>, small: set<NodeId>, epoch: int,
                    d: Draws, name: Naming, plan: Option<Founding>)
    requires IsPair(w, p, a, b, large, small, epoch) && Trap(p, |large|, |small|) && PlansFounding(w, p, d, name, plan)
    ensures plan.Some? && plan.value.donor == a && plan.value.cohort <= large && |plan.value.cohort| == p.cohort
  {
    hide Ordered, S.StrictlySorted, S.Distinct, IsNextName, RanksBefore, SplitDue, World.Eligible;
    PairDue(w, p, a, b, large, small, epoch);
    assert forall g <- w.books :: g == a || g == b;
  }

  ghost predicate LayoutSplit(l: Layout, p: Params, a: GridId, b: GridId, c: GridId, large: set<NodeId>,
                              small: set<NodeId>, cohort: set<NodeId>) {
    && l.grids.Keys == {a, b, c} == l.members.Keys && l.grids[a].region == l.grids[b].region == l.grids[c].region
    && S.SetOf(l.members[a]) == large - cohort && |l.members[a]| == |large| - p.cohort && |l.members[b]| == |small|
    && |l.members[c]| == p.cohort
  }

  ghost predicate BooksSplit(books: map<GridId, Register>, a: GridId, b: GridId, c: GridId, large: set<NodeId>,
                             small: set<NodeId>, cohort: set<NodeId>) {
    && books.Keys == {a, b, c}
    && books[a].SeatedMembers() == large - cohort && books[b].SeatedMembers() == small
    && books[c].SeatedMembers() == cohort
  }

  /** What the rolls and the founding of the first block leave: nobody loses standing. */
  ghost predicate AfterSplit(p: Params, a: GridId, b: GridId, c: GridId, large: set<NodeId>, small: set<NodeId>,
                             cohort: set<NodeId>, w: World) {
    a != b && b != c && a != c && LayoutSplit(w.layout, p, a, b, c, large, small, cohort)
      && BooksSplit(w.books, a, b, c, large, small, cohort)
  }

  /** In the second block the plan calls for folding the small grid into the child. */
  lemma SmallFoldsIntoChild(p: Params, a: GridId, b: GridId, c: GridId, large: set<NodeId>, small: set<NodeId>,
                            cohort: set<NodeId>, w: World, d: Draws, name: Naming, founding: Option<Founding>,
                            plan: Option<Merge>)
    requires Trap(p, |large|, |small|) && cohort <= large && |cohort| == p.cohort
             && AfterSplit(p, a, b, c, large, small, cohort, w)
    requires PlansFounding(w, p, d, name, founding) && PlansMerge(w, p, d, founding, plan)
    ensures founding.None? && plan.Some? && plan.value.gone == b && plan.value.into == c
  {
    hide Register.SeatedMembers, RanksBefore, World.Eligible, Register.Attesters, IsNextName, IsCohort, S.SetOf;
    assert |large - cohort| == |large| - |cohort| by {
      assert large == (large - cohort) + cohort;
    }
    assert !SplitDue(w, p, a) && !SplitDue(w, p, b) && !SplitDue(w, p, c);
    assert |w.layout.grids| == |{a, b, c}|;
    assert IsHost(w, p, b, c);
    assert MergeDue(w, p, b) && !MergeDue(w, p, a) && !MergeDue(w, p, c);
    if plan.Some? {
      assert HostsBefore(w, d, b, plan.value.into, c);
    }
  }

  /** The first block, from the two grids to the three. */
  lemma SplitLeaves(w: World, p: Params, a: GridId, b: GridId, large: set<NodeId>, small: set<NodeId>, epoch: int,
                    mid: World, f: Founding, rolls: map<GridId, Roll>, service: map<NodeId, Service>)
    requires IsPair(w, p, a, b, large, small, epoch) && p.threshold > 0 && Rolled(w, mid, rolls, map[])
    requires rolls.Keys == {a, b} && rolls[a].seated == large && rolls[b].seated == small
    requires f.donor == a && f.child !in {a, b} && f.cohort <= large && |f.cohort| == p.cohort
    ensures a in mid.layout.members && a in mid.books && CanFound(Credited(mid, service), f) == true
    ensures Founded(Credited(mid, service), f).books.Keys == {a, b, f.child}
            && Credited(mid, service).books[a].epoch == rolls[a].epoch + 1
    ensures AfterSplit(p, a, b, f.child, large, small, f.cohort, Founded(Credited(mid, service), f)) == true
  {
    hide World.Partitioned, Rolled, Layout.Sound, Ordered, S.StrictlySorted, Credited, Layout.Founded,
      Register.Released, Register.Child, LayoutSplit, BooksSplit,
         IsPair, Register.MayFound, Register.SeatedMembers;
    var v := Credited(mid, service);
    BothAttest(w, p, a, b, large, small, epoch, mid, rolls, service);
    SplitSizes(v.layout, p, a, b, large, small, f);
    SplitSeats(v.books, a, b, f, large, small);
  }

  /** Everyone of both grids is still an attester after the rolls. */
  lemma BothAttest(w: World, p: Params, a: GridId, b: GridId, large: set<NodeId>, small: set<NodeId>, epoch: int,
                   mid: World, rolls: map<GridId, Roll>, service: map<NodeId, Service>)
    requires IsPair(w, p, a, b, large, small, epoch) && p.threshold > 0 && Rolled(w, mid, rolls, map[])
    requires rolls.Keys == {a, b} && rolls[a].seated == large && rolls[b].seated == small
    ensures var v := Credited(mid, service);
            && a != b && v.layout.grids.Keys == {a, b} == v.layout.members.Keys == v.books.Keys
            && mid.layout == v.layout && mid.books.Keys == {a, b}
            && v.layout.grids[a].region == v.layout.grids[b].region && v.layout.members[a] == Ordered(large)
            && v.layout.members[b] == Ordered(small)
            && (forall n <- large :: n in v.layout.assignment && v.layout.assignment[n] == a)
            && v.books[a].members.Keys == large == v.books[a].SeatedMembers() && v.books[b].SeatedMembers() == small
            && (forall n <- large :: v.books[a].MayFound(n)) && v.books[a].epoch == rolls[a].epoch + 1
  {
    hide World.Partitioned, Ordered, Register.MayFound, Register.SeatedMembers;
    PairPartitioned(w, p, a, b, large, small, epoch);
    AllAttest(w.books[a], large, epoch, p.threshold);
    AllAttest(w.books[b], small, epoch, p.threshold);
    StillAttesting(w, mid, p.threshold, rolls, service, a, large);
    StillAttesting(w, mid, p.threshold, rolls, service, b, small);
  }

  lemma AllAttest(r: Register, all: set<NodeId>, epoch: int, threshold: nat)
    requires r.members == Attesting(all, epoch, threshold)
    ensures r.members.Keys == all == r.Attesters()
  {
  }

  lemma SplitSizes(l: Layout, p: Params, a: GridId, b: GridId, large: set<NodeId>, small: set<NodeId>, f: Founding)
    requires l.grids.Keys == {a, b} == l.members.Keys && l.grids[a].region == l.grids[b].region && a != b
    requires f.donor == a && f.child !in l.grids && f.cohort <= large && |f.cohort| == p.cohort
    requires l.members[a] == Ordered(large) && l.members[b] == Ordered(small)
    ensures LayoutSplit(l.Founded(a, f.child, f.cohort), p, a, b, f.child, large, small, f.cohort)
  {
    hide Layout.Sound, Ordered, S.StrictlySorted, S.Distinct, Without, MovedTo, S.SetOf;
    OrderedSize(small);
    OrderedSize(f.cohort);
    LeftBehind(large, f.cohort);
    LeftBehindIs(large, f.cohort);
  }

  lemma LeftBehind(large: set<NodeId>, cohort: set<NodeId>)
    requires cohort <= large
    ensures S.SetOf(Without(Ordered(large), cohort)) == large - cohort
  {
    OrderedHolds(large);
  }

  lemma LeftBehindIs(large: set<NodeId>, cohort: set<NodeId>)
    requires cohort <= large
    ensures |Without(Ordered(large), cohort)| == |large| - |cohort|
  {
    LeftBehind(large, cohort);
    OrderedHolds(large);
    WithoutDistinct(Ordered(large), cohort);
    S.DistinctSize(Without(Ordered(large), cohort));
    assert large == (large - cohort) + cohort;
  }

  lemma SplitSeats(books: map<GridId, Register>, a: GridId, b: GridId, f: Founding, large: set<NodeId>,
                   small: set<NodeId>)
    requires books.Keys == {a, b} && a != b && f.donor == a && f.child !in {a, b} && f.cohort <= large
    requires books[a].members.Keys == large == books[a].SeatedMembers() && books[b].SeatedMembers() == small
    ensures BooksSplit(books[a := books[a].Released(f.cohort)][f.child := books[a].Child(f.child, f.cohort)], a, b,
                       f.child, large, small, f.cohort)
  {
    assert books[a].Released(f.cohort).SeatedMembers() == large - f.cohort;
    assert books[a].Child(f.child, f.cohort).SeatedMembers() == f.cohort;
  }

  lemma StillAttesting(w: World, mid: World, threshold: nat, rolls: map<GridId, Roll>, service: map<NodeId, Service>,
                       g: GridId, all: set<NodeId>)
    requires w.Partitioned(threshold) && Rolled(w, mid, rolls, map[]) && g in rolls && g in w.books
    requires w.books[g].members.Keys == all == w.books[g].Attesters() == rolls[g].seated
    ensures g in mid.books
    ensures var r := Credited(mid, service).books[g];
            r.members.Keys == all == r.SeatedMembers() && (forall n <- all :: r.MayFound(n))
              && r.epoch == rolls[g].epoch + 1
  {
    assert w.Kept(g, threshold) && RolledAt(w, mid, rolls, map[], g);
    AdvancedSound(w.books[g], mid.books[g], rolls[g], {});
    forall n <- all ensures mid.books[g].MayFound(n) {
      StandingAfter(w.books[g], mid.books[g], rolls[g], {}, n);
      AttestersAreClean(mid.books[g], n);
    }
  }

  /** Two blocks that follow from the state, every node present and nobody faulted, and the second cannot be applied:
      the merge it calls for is refused, because the child the first block founded has rolled no ceremony yet. */
  lemma SecondBlockCannotBeApplied(w: World, p: Params, a: GridId, b: GridId, large: set<NodeId>, small: set<NodeId>,
                                   epoch: int, d: Draws, name: Naming, founding: Option<Founding>,
                                   rolls: map<GridId, Roll>, mid: World, service: map<NodeId, Service>, w': World,
                                   again: Option<Founding>, merge: Option<Merge>, rolls': map<GridId, Roll>,
                                   mid': World, service': map<NodeId, Service>)
    requires Injective(name) && IsPair(w, p, a, b, large, small, epoch) && Trap(p, |large|, |small|) && p.threshold > 0
             && w.layout.Named(name)
    requires PlansFounding(w, p, d, name, founding) && Rolled(w, mid, rolls, map[])
    requires rolls.Keys == {a, b} && rolls[a].seated == large && rolls[b].seated == small
             && rolls[a].epoch == rolls[b].epoch == epoch
    requires Moves(Credited(mid, service), founding, None, w') == true
    requires PlansFounding(w', p, d, name, again) && PlansMerge(w', p, d, again, merge)
             && Rolled(w', mid', rolls', map[])
    requires rolls'.Keys == {a, b} && rolls'[a].epoch == rolls'[b].epoch == epoch + 1
    ensures merge.Some? && !CanMerge(Credited(mid', service'), merge.value)
  {
    hide PlansFounding, PlansMerge, Ordered, CanMerge, CanFound, Injective, Layout.Named, SplitDue, Trap, AfterSplit;
    hide Credited, Founded;
    LargeSplits(w, p, a, b, large, small, epoch, d, name, founding);
    var f, v := founding.value, Credited(mid, service);
    FounderNamesFresh(w, p, d, name, f);
    SplitLeaves(w, p, a, b, large, small, epoch, mid, f, rolls, service);
    SmallFoldsIntoChild(p, a, b, f.child, large, small, f.cohort, w', d, name, again, merge);
    ChildIsTooYoung(v, f, w', mid', rolls', map[], service', merge.value);
  }

  lemma FounderNamesFresh(w: World, p: Params, d: Draws, name: Naming, f: Founding)
    requires Injective(name) && w.layout.Named(name) && PlansFounding(w, p, d, name, Some(f))
    ensures f.child !in w.layout.grids
  {
    NextNameIsFree(w.layout, w.layout.grids[f.donor].region, name, f.child);
  }

  /** A name for every region and number: an odd number, doubled once for each region below. */
  function Numbered(r: Region, i: nat): nat {
    if r == 0 then 2 * i + 1 else 2 * Numbered(r - 1, i)
  }

  lemma {:induction false} NumberedDiffers(r: Region, i: nat, s: Region, j: nat)
    requires Numbered(r, i) == Numbered(s, j)
    ensures r == s && i == j
  {
    if r > 0 && s > 0 {
      NumberedDiffers(r - 1, i, s - 1, j);
    }
  }

  lemma InjectiveNaming() returns (name: Naming)
    ensures Injective(name)
  {
    name := (r: Region, i: nat) => Numbered(r, i);
    forall r, i, s, j {:trigger name(r, i), name(s, j)} | name(r, i) == name(s, j) ensures r == s && i == j {
      NumberedDiffers(r, i, s, j);
    }
  }

  /** Such a pair exists, with the default parameters: eleven nodes and two, under the first two names of a region. */
  lemma PairExists(epoch: int) returns (name: Naming, a: GridId, b: GridId)
    ensures Injective(name) && a == name(0, 0) && b == name(0, 1)
    ensures var p, large, small := Params(5, 4, 40, 0, 1, 4), Range(11), {11, 12};
            var w := TwoGrids(p, a, b, large, small, epoch);
            IsPair(w, p, a, b, large, small, epoch) && Trap(p, |large|, |small|) && w.layout.Named(name)
  {
    hide TwoGrids, IsPair, Range, Trap, Layout.Named;
    name := InjectiveNaming();
    a, b := name(0, 0), name(0, 1);
    DefaultPair(name, a, b, epoch);
  }

  lemma DefaultPair(name: Naming, a: GridId, b: GridId, epoch: int)
    requires a == name(0, 0) && b == name(0, 1) && a != b
    ensures var p, large, small := Params(5, 4, 40, 0, 1, 4), Range(11), {11, 12};
            var w := TwoGrids(p, a, b, large, small, epoch);
            IsPair(w, p, a, b, large, small, epoch) && Trap(p, |large|, |small|) && w.layout.Named(name)
  {
    hide Ordered, IsPair, Range;
    TwoGridsIsPair(Params(5, 4, 40, 0, 1, 4), a, b, Range(11), {11, 12}, epoch);
  }
}
