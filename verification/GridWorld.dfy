/**
 The grids and their registers together (chain/tiers.py, the part of `TierWorld` that grows and shrinks), as values:
 what each step of a network block does to them, when the step is refused, and what every step keeps.
 */
module GridWorld {
  import opened Basics
  import opened Locality
  import opened Register
  import S = Seats
  import D = Distances

  datatype Params = Params(gridSize: nat, cohort: nat, threshold: nat, forgiveness: nat, admitNum: nat, admitDen: nat)

  datatype Founding = Founding(donor: GridId, child: GridId, cohort: set<NodeId>)
  datatype Merge = Merge(gone: GridId, into: GridId, movers: set<NodeId>)

  datatype World = World(layout: Layout, books: map<GridId, Register>) {
    /** Grid `g`'s register is a sound record of exactly the nodes the topology puts there. */
    ghost predicate Kept(g: GridId, threshold: nat)
      requires g in books
    {
      && g in layout.members && books[g].gridId == g && books[g].threshold == threshold && books[g].Sound()
      && books[g].members.Keys == S.SetOf(layout.members[g])
    }

    /** The invariant: a sound topology, one register a grid, and every node in exactly the register its grid names. */
    ghost predicate Partitioned(threshold: nat) {
      && layout.Sound() && books.Keys == layout.grids.Keys
      && forall g {:trigger Kept(g, threshold)} :: g in books ==> Kept(g, threshold)
    }

    ghost function Eligible(g: GridId): set<NodeId>
      requires g in books && g in layout.members
    {
      set n | n in books[g].Attesters() && n in layout.members[g] && books[g].members[n].faults == []
    }
  }

  /** A node is in the register its grid names and in no other. */
  lemma OneRegister(w: World, threshold: nat, n: NodeId, g: GridId)
    requires w.Partitioned(threshold) && g in w.books
    ensures n in w.books[g].members <==> n in w.layout.assignment && w.layout.assignment[n] == g
  {
    assert w.Kept(g, threshold) && w.layout.Listed(g);
    if n in w.layout.assignment {
      assert w.layout.AtHome(n);
    }
  }

  // ---- the steps ----

  /** A newcomer, seated as an apprentice. */
  ghost function Admitted(w: World, n: NodeId, g: GridId): World
    requires g in w.books && g in w.layout.members
  {
    World(w.layout.Joined(n, g), w.books[g :=
                                         w.books[g].(members := w.books[g].members[n := Newcomer(w.books[g].epoch)])])
  }

  function Faulted(faults: map<GridId, set<NodeId>>, g: GridId): set<NodeId> {
    if g in faults then faults[g] else {}
  }

  /** Each grid with a roll takes it; the others stand still. */
  ghost predicate Rolled(w: World, after: World, rolls: map<GridId, Roll>, faults: map<GridId, set<NodeId>>) {
    && after.layout == w.layout && after.books.Keys == w.books.Keys
    && forall g {:trigger RolledAt(w, after, rolls, faults, g)} :: g in w.books ==> RolledAt(w, after, rolls, faults, g)
  }

  ghost predicate RolledAt(w: World, after: World, rolls: map<GridId, Roll>, faults: map<GridId, set<NodeId>>,
                           g: GridId)
    requires g in w.books && g in after.books
  {
    if g in rolls then w.books[g].Advanced(after.books[g], rolls[g], Faulted(faults, g))
       else after.books[g] == w.books[g]
  }

  ghost function Credited(w: World, service: map<NodeId, Service>): World {
    World(w.layout, map g | g in w.books :: w.books[g].Credited(service))
  }

  ghost predicate CanFound(w: World, f: Founding) {
    && f.donor in w.books && f.donor in w.layout.grids && f.child !in w.layout.grids
    && (forall n <- f.cohort :: w.books[f.donor].MayFound(n))
    && forall n <- f.cohort :: n in w.layout.assignment && w.layout.assignment[n] == f.donor
  }

  ghost function Founded(w: World, f: Founding): World
    requires f.donor in w.books && f.donor in w.layout.grids && f.donor in w.layout.members
  {
    World(w.layout.Founded(f.donor, f.child, f.cohort),
          w.books[f.donor := w.books[f.donor].Released(f.cohort)][f.child := w.books[f.donor].Child(f.child, f.cohort)])
  }

  ghost predicate CanMerge(w: World, m: Merge) {
    && m.gone != m.into && m.gone in w.books && m.into in w.books && m.gone in w.layout.grids
    && m.into in w.layout.grids
    && w.layout.grids[m.gone].region == w.layout.grids[m.into].region
    && w.books[m.gone].members.Keys !! w.books[m.into].members.Keys && w.books[m.gone].epoch == w.books[m.into].epoch
  }

  ghost function Merged(w: World, m: Merge): World
    requires m.gone in w.books && m.into in w.books && m.gone in w.layout.grids && m.gone in w.layout.members
             && m.into in w.layout.members
  {
    World(w.layout.Merged(m.gone, m.into), (w.books - {m.gone})[m.into := w.books[m.into].Absorbed(w.books[m.gone])])
  }

  // ---- every step keeps the partition ----

  lemma AdmittedPartitioned(w: World, threshold: nat, n: NodeId, g: GridId)
    requires w.Partitioned(threshold) && g in w.books && threshold > 0
    ensures g in w.layout.members
    ensures Admitted(w, n, g).Partitioned(threshold) <==> n !in w.layout.assignment
  {
    assert w.Kept(g, threshold);
    JoinedSound(w.layout, n, g);
    if n !in w.layout.assignment {
      var v := Admitted(w, n, g);
      forall h <- v.books ensures v.Kept(h, threshold) {
        assert w.Kept(h, threshold);
        if h == g {
          var r := v.books[g];
          forall m <- r.members ensures r.EntrySound(m) {
            assert m == n || w.books[g].EntrySound(m);
          }
        }
      }
    }
  }

  /** A block's rolls keep the partition exactly when every roll and every fault names members of its own grid. */
  lemma RolledPartitionedIff(w: World, after: World, threshold: nat, rolls: map<GridId, Roll>,
                             faults: map<GridId, set<NodeId>>)
    requires w.Partitioned(threshold) && Rolled(w, after, rolls, faults)
    ensures after.Partitioned(threshold)
            <==> forall g :: g in rolls && g in w.books ==>
              rolls[g].seated <= w.books[g].members.Keys && Faulted(faults, g) <= w.books[g].members.Keys
  {
    forall g | g in w.books
      ensures after.Kept(g, threshold)
              <==> (g in rolls ==>
                    rolls[g].seated <= w.books[g].members.Keys && Faulted(faults, g) <= w.books[g].members.Keys)
    {
      assert w.Kept(g, threshold) && RolledAt(w, after, rolls, faults, g);
      if g in rolls {
        AdvancedSound(w.books[g], after.books[g], rolls[g], Faulted(faults, g));
        AdvancedMembersIff(w.books[g], after.books[g], rolls[g], Faulted(faults, g));
      }
    }
  }

  lemma CreditedPartitioned(w: World, threshold: nat, service: map<NodeId, Service>)
    requires w.Partitioned(threshold)
    ensures Credited(w, service).Partitioned(threshold)
  {
    var v := Credited(w, service);
    forall g <- v.books ensures v.Kept(g, threshold) {
      assert w.Kept(g, threshold);
      CreditedSound(w.books[g], service);
    }
  }

  lemma FoundedPartitioned(w: World, threshold: nat, f: Founding)
    requires w.Partitioned(threshold) && CanFound(w, f)
    ensures f.donor in w.layout.members && Founded(w, f).Partitioned(threshold)
  {
    var v := Founded(w, f);
    assert w.Kept(f.donor, threshold);
    FoundedSound(w.layout, f.donor, f.child, f.cohort);
    FoundedSizes(w.layout, f.donor, f.child, f.cohort);
    ReleasedSound(w.books[f.donor], f.cohort);
    hide Layout.Sound, Register.Sound;
    forall g <- v.books ensures v.Kept(g, threshold) {
      if g == f.child {
        ChildSound(w.books[f.donor], f.child, f.cohort);
      } else {
        assert w.Kept(g, threshold);
      }
    }
  }

  lemma ChildSound(r: Register, id: GridId, ids: set<NodeId>)
    requires r.Sound()
    ensures r.Child(id, ids).Sound()
  {
    var child := r.Child(id, ids);
    forall n <- child.members ensures child.EntrySound(n) {
      assert r.EntrySound(n);
    }
  }

  lemma MergedPartitioned(w: World, threshold: nat, m: Merge)
    requires w.Partitioned(threshold) && CanMerge(w, m)
    ensures m.gone in w.layout.members && m.into in w.layout.members && Merged(w, m).Partitioned(threshold)
  {
    var v := Merged(w, m);
    assert w.Kept(m.gone, threshold) && w.Kept(m.into, threshold);
    MergedSound(w.layout, m.gone, m.into);
    AbsorbedSound(w.books[m.into], w.books[m.gone]);
    OrderedHolds(S.SetOf(w.layout.members[m.into]) + S.SetOf(w.layout.members[m.gone]));
    forall g <- v.books ensures v.Kept(g, threshold) {
      assert w.Kept(g, threshold);
    }
  }

  /** In a partitioned world two grids never share a member, so only the region and the epochs can refuse a merge of two
      grids. */
  lemma MergeRefusedIff(w: World, threshold: nat, m: Merge)
    requires w.Partitioned(threshold) && m.gone in w.books && m.into in w.books && m.gone != m.into
    ensures CanMerge(w, m) <==>
              w.layout.grids[m.gone].region == w.layout.grids[m.into].region
              && w.books[m.gone].epoch == w.books[m.into].epoch
  {
    forall n ensures !(n in w.books[m.gone].members && n in w.books[m.into].members) {
      OneRegister(w, threshold, n, m.gone);
      OneRegister(w, threshold, n, m.into);
    }
  }
}
