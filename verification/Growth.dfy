/**
 When the network founds a grid and when it folds one away (chain/tiers.py, `plan_foundings`, `plan_merges`), and
 what that guarantees over runs.
 */
module Growth {
  import opened Basics
  import opened Locality
  import opened Register
  import opened GridWorld
  import S = Seats
  import D = Distances

  /** The draws the previous block's hash seeds. */
  datatype Draws = Draws(founder: (GridId, GridId, NodeId) -> nat, host: (GridId, GridId) -> nat)

  /** Over size, and with enough unfaulted attesters for both halves. */
  ghost predicate SplitDue(w: World, p: Params, g: GridId) {
    && g in w.books && g in w.layout.members
    && w.layout.NeedsSplit(g, p.gridSize) && |w.Eligible(g)| >= 2 * p.cohort
  }

  /** `child` is the first name of the region's series that no grid of the region carries. */
  ghost predicate IsNextName(l: Layout, region: Region, name: Naming, child: GridId) {
    child !in l.Serving(region) && exists i: nat ::
      child == name(region, i) && forall j: nat | j < i :: name(region, j) in l.Serving(region)
  }

  ghost predicate RanksBefore(d: Draws, donor: GridId, child: GridId, a: NodeId, b: NodeId) {
    d.founder(donor, child, a) < d.founder(donor, child, b)
      || (d.founder(donor, child, a) == d.founder(donor, child, b) && a < b)
  }

  /** `cohort` is the first `size` of the eligible in drawn order. */
  ghost predicate IsCohort(d: Draws, donor: GridId, child: GridId, eligible: set<NodeId>, cohort: set<NodeId>,
                           size: nat) {
    && cohort <= eligible && |cohort| == size
    && forall a, b {:trigger RanksBefore(d, donor, child, a, b)} :: a in cohort && b in eligible - cohort ==>
       RanksBefore(d, donor, child, a, b)
  }

  /** `plan_foundings`: what every seat derives from the committed state. */
  ghost predicate PlansFounding(w: World, p: Params, d: Draws, name: Naming, plan: Option<Founding>) {
    match plan
    case None => forall g {:trigger SplitDue(w, p, g)} :: g in w.books ==> !SplitDue(w, p, g)
    case Some(f) =>
      && SplitDue(w, p, f.donor) && f.donor in w.layout.grids
      && (forall g {:trigger SplitDue(w, p, g)} :: g in w.books && g < f.donor ==> !SplitDue(w, p, g))
      && IsNextName(w.layout, w.layout.grids[f.donor].region, name, f.child)
      && IsCohort(d, f.donor, f.child, w.Eligible(f.donor), f.cohort, p.cohort)
  }

  /** The plan is a function of the state: no two seats holding it can disagree. */
  lemma FoundingIsUnique(w: World, p: Params, d: Draws, name: Naming, one: Option<Founding>, other: Option<Founding>)
    requires Injective(name) && PlansFounding(w, p, d, name, one) && PlansFounding(w, p, d, name, other)
    ensures one == other
  {
    if one.Some? && other.Some? {
      var f, g := one.value, other.value;
      assert f.donor == g.donor;
      var region := w.layout.grids[f.donor].region;
      var i: nat :| f.child == name(region, i) && forall j: nat | j < i :: name(region, j) in w.layout.Serving(region);
      var k: nat :| g.child == name(region, k) && forall j: nat | j < k :: name(region, j) in w.layout.Serving(region);
      assert i == k;
      CohortIsUnique(d, f.donor, f.child, w.Eligible(f.donor), f.cohort, g.cohort, p.cohort);
    }
  }

  lemma CohortIsUnique(d: Draws, donor: GridId, child: GridId, eligible: set<NodeId>, one: set<NodeId>,
                       other: set<NodeId>, size: nat)
    requires IsCohort(d, donor, child, eligible, one, size) && other <= eligible && |other| == size
    ensures IsCohort(d, donor, child, eligible, other, size) ==> one == other
  {
    if one != other {
      if one <= other {
        D.SameSize(one, other);
      } else if other <= one {
        D.SameSize(other, one);
      } else {
        var a :| a in one && a !in other;
        var b :| b in other && b !in one;
        assert RanksBefore(d, donor, child, a, b);
        assert !RanksBefore(d, donor, child, b, a);
      }
    }
  }

  // ---- a founding the plan calls for ----

  lemma NextNameIsFree(l: Layout, region: Region, name: Naming, child: GridId)
    requires Injective(name) && l.Named(name) && IsNextName(l, region, name, child)
    ensures child !in l.grids
  {
    var i: nat :| child == name(region, i);
    forall g <- l.grids ensures g != child {
      var j: nat :| g == name(l.grids[g].region, j);
      assert name(region, i) == name(l.grids[g].region, j) ==> g in l.Serving(region);
    }
  }

  /** The block's rolls and service come between the plan and the founding. The founding is refused exactly when the
      same block faults a member of its cohort. */
  lemma FoundingAppliesIff(w: World, mid: World, p: Params, d: Draws, name: Naming, f: Founding,
                           rolls: map<GridId, Roll>, faults: map<GridId, set<NodeId>>, service: map<NodeId, Service>)
    requires Injective(name) && w.layout.Named(name) && w.Partitioned(p.threshold)
             && PlansFounding(w, p, d, name, Some(f))
    requires Rolled(w, mid, rolls, faults)
    ensures CanFound(Credited(mid, service), f) <==> (f.donor in rolls ==> Faulted(faults, f.donor) !! f.cohort)
  {
    hide Injective, Layout.Named, IsNextName, RanksBefore, Register.Sound, Layout.Sound, Register.Advanced;
    hide Register.MayFound;
    NextNameIsFree(w.layout, w.layout.grids[f.donor].region, name, f.child);
    var v := Credited(mid, service);
    assert w.Kept(f.donor, p.threshold) && RolledAt(w, mid, rolls, faults, f.donor);
    forall n <- f.cohort
      ensures v.books[f.donor].MayFound(n) <==> (f.donor in rolls ==> n !in Faulted(faults, f.donor))
      ensures n in w.layout.assignment && w.layout.assignment[n] == f.donor
    {
      EligibleAfter(w, mid, v, p.threshold, rolls, faults, service, f.donor, n);
    }
  }

  lemma EligibleAfter(w: World, mid: World, v: World, threshold: nat, rolls: map<GridId, Roll>,
                      faults: map<GridId, set<NodeId>>, service: map<NodeId, Service>, g: GridId, n: NodeId)
    requires w.Partitioned(threshold) && Rolled(w, mid, rolls, faults) && v == Credited(mid, service)
    requires g in w.books && g in w.layout.members && n in w.Eligible(g)
    ensures v.books[g].MayFound(n) <==> (g in rolls ==> n !in Faulted(faults, g))
    ensures n in w.layout.assignment && w.layout.assignment[n] == g
  {
    assert w.Kept(g, threshold) && RolledAt(w, mid, rolls, faults, g) && w.layout.Listed(g);
    if g in rolls {
      StandingAfter(w.books[g], mid.books[g], rolls[g], Faulted(faults, g), n);
      AdvancedSound(w.books[g], mid.books[g], rolls[g], Faulted(faults, g));
      AttestersAreClean(mid.books[g], n);
    }
  }

  /** Both sides of a founding keep at least a cohort of attesters, when the donor's roll faults nobody. */
  lemma BothSidesCanVote(w: World, mid: World, p: Params, d: Draws, name: Naming, f: Founding,
                         rolls: map<GridId, Roll>, faults: map<GridId, set<NodeId>>, service: map<NodeId, Service>)
    requires Injective(name) && w.layout.Named(name) && w.Partitioned(p.threshold)
             && PlansFounding(w, p, d, name, Some(f))
    requires Rolled(w, mid, rolls, faults) && (f.donor in rolls ==> Faulted(faults, f.donor) == {})
    ensures CanFound(Credited(mid, service), f)
    ensures var after := Founded(Credited(mid, service), f);
            |after.books[f.donor].Attesters()| >= p.cohort && |after.books[f.child].Attesters()| == p.cohort
  {
    FoundingAppliesIff(w, mid, p, d, name, f, rolls, faults, service);
    var v := Credited(mid, service);
    forall n <- w.Eligible(f.donor) ensures n in v.books[f.donor].Attesters() {
      EligibleAfter(w, mid, v, p.threshold, rolls, faults, service, f.donor, n);
    }
    hide Rolled, World.Partitioned, IsCohort, Injective, Layout.Named, IsNextName;
    SidesAfter(v, f, w.Eligible(f.donor), p.cohort);
  }

  lemma SidesAfter(v: World, f: Founding, eligible: set<NodeId>, size: nat)
    requires f.donor in v.books && f.donor in v.layout.grids && f.donor in v.layout.members && f.child != f.donor
    requires f.cohort <= eligible <= v.books[f.donor].Attesters() && |f.cohort| == size && |eligible| >= 2 * size
    ensures |Founded(v, f).books[f.donor].Attesters()| >= size && |Founded(v, f).books[f.child].Attesters()| == size
  {
    var after := Founded(v, f);
    var left := eligible - f.cohort;
    D.SubsetSize(left, after.books[f.donor].Attesters());
    assert eligible == left + f.cohort;
    assert after.books[f.child].Attesters() == f.cohort;
  }

  // ---- a merge the plan calls for ----

  /** `needs_merge`, counting members that still hold a seat. */
  ghost predicate Shrunk(w: World, p: Params, g: GridId)
    requires g in w.books
  {
    |w.books[g].SeatedMembers()| * 2 < p.gridSize
  }

  ghost predicate IsHost(w: World, p: Params, gone: GridId, h: GridId) {
    && gone in w.layout.grids && gone in w.layout.members && h in w.layout.grids && h in w.layout.members && h != gone
    && w.layout.grids[h].region == w.layout.grids[gone].region
    && |w.layout.members[h]| + |w.layout.members[gone]| <= 2 * p.gridSize
  }

  ghost predicate MergeDue(w: World, p: Params, g: GridId) {
    g in w.books && Shrunk(w, p, g) && exists h :: IsHost(w, p, g, h)
  }

  /** The smaller sibling first, then the draw, then the id. */
  ghost predicate HostsBefore(w: World, d: Draws, gone: GridId, a: GridId, b: GridId)
    requires a in w.layout.members && b in w.layout.members
  {
    var x, y := |w.layout.members[a]|, |w.layout.members[b]|;
    x < y || (x == y && (d.host(gone, a) < d.host(gone, b) || (d.host(gone, a) == d.host(gone, b) && a <= b)))
  }

  /** `plan_merges`, given what `plan_foundings` says. */
  ghost predicate PlansMerge(w: World, p: Params, d: Draws, founding: Option<Founding>, plan: Option<Merge>) {
    match plan
    case None => |w.layout.grids| < 2 || founding.Some? || forall g {:trigger MergeDue(w, p, g)} :: g in w.books ==>
      !MergeDue(w, p, g)
    case Some(m) =>
      && |w.layout.grids| >= 2 && founding.None?
      && MergeDue(w, p, m.gone) && (forall g {:trigger MergeDue(w, p, g)} :: g in w.books && g < m.gone ==>
                                    !MergeDue(w, p, g))
      && IsHost(w, p, m.gone, m.into)
      && (forall h {:trigger IsHost(w, p, m.gone, h)} :: IsHost(w, p, m.gone, h) ==>
          HostsBefore(w, d, m.gone, m.into, h))
      && m.movers == S.SetOf(w.layout.members[m.gone])
  }

  lemma MergeIsUnique(w: World, p: Params, d: Draws, founding: Option<Founding>, one: Option<Merge>,
                      other: Option<Merge>)
    requires PlansMerge(w, p, d, founding, one) && PlansMerge(w, p, d, founding, other)
    ensures one == other
  {
    if one.Some? && other.Some? {
      assert one.value.gone == other.value.gone;
      assert HostsBefore(w, d, one.value.gone, one.value.into, other.value.into);
      assert HostsBefore(w, d, one.value.gone, other.value.into, one.value.into);
    }
  }

  /** Where a register stands after the block's rolls. */
  function EpochAfter(w: World, rolls: map<GridId, Roll>, g: GridId): int
    requires g in w.books
  {
    if g in rolls then rolls[g].epoch + 1 else w.books[g].epoch
  }

  /** A merge the plan calls for is refused only on epochs, and when it applies the host does not need a split. */
  lemma PlannedMergeFits(w: World, mid: World, p: Params, d: Draws, m: Merge, rolls: map<GridId, Roll>,
                         faults: map<GridId, set<NodeId>>, service: map<NodeId, Service>)
    requires w.Partitioned(p.threshold) && PlansMerge(w, p, d, None, Some(m))
    requires Rolled(w, mid, rolls, faults) && mid.Partitioned(p.threshold)
    ensures var v := Credited(mid, service);
            && m.into in w.books
            && (CanMerge(v, m) <==> EpochAfter(w, rolls, m.gone) == EpochAfter(w, rolls, m.into))
            && (CanMerge(v, m) ==>
                m.into in Merged(v, m).layout.members && !Merged(v, m).layout.NeedsSplit(m.into, p.gridSize))
  {
    var v := Credited(mid, service);
    CreditedPartitioned(mid, p.threshold, service);
    assert RolledAt(w, mid, rolls, faults, m.gone) && RolledAt(w, mid, rolls, faults, m.into);
    MergeRefusedIff(v, p.threshold, m);
    MergedSize(w.layout, m.gone, m.into);
  }
}
