/**
 The world object (chain/tiers.py, `TierWorld`): the topology and one register object per grid, moved in place.

 The ghost field `world` is the state as a value; `Valid` ties it to the objects.
 */
module TierWorld {
  import opened Basics
  import opened Locality
  import opened Register
  import opened GridWorld
  import opened Growth
  import opened GrowthRuns
  import T = Topology
  import N = Enrolment
  import S = Seats
  import D = Distances

  predicate Of(g: GridId) { true }

  /** The region's grids that can take another apprentice. */
  ghost function Fitting(w: World, p: Params, region: Region): set<GridId>
    requires p.admitDen > 0
  {
    set g | g in w.layout.Serving(region) && g in w.books && w.books[g].HasRoom(p.admitNum, p.admitDen)
  }

  lemma NeverEmpty(w: World, p: Params, region: Region)
    requires p.admitDen > 0
    ensures w.layout.Serving(region) == {} ==> Fitting(w, p, region) == {}
  {
  }

  /** The donor lets the whole cohort go. */
  ghost predicate Reaches(w: World, f: Founding) {
    f.donor in w.books && forall n <- f.cohort :: w.books[f.donor].MayFound(n)
  }

  /** The registers once the cohort has left and its new register has taken its place. */
  ghost function Overwritten(w: World, f: Founding): World
    requires f.donor in w.books
  {
    World(w.layout, w.books[f.donor := w.books[f.donor].Released(f.cohort)]
                           [f.child := w.books[f.donor].Child(f.child, f.cohort)])
  }

  /** The world the merge finds: nothing new where no founding was made. */
  ghost function AfterFounding(v: World, founding: Option<Founding>): World {
    if founding.Some? && CanFound(v, founding.value) && founding.value.donor in v.layout.members
    then Founded(v, founding.value) else v
  }

  /** What a founding or a merge names is listed. */
  lemma MovesNamed(v: World, founding: Option<Founding>, merge: Option<Merge>)
    requires v.layout.grids.Keys == v.layout.members.Keys
    ensures founding.Some? && CanFound(v, founding.value) ==> founding.value.donor in v.layout.members
    ensures merge.Some? && CanMerge(v, merge.value) ==>
              merge.value.gone in v.layout.members && merge.value.into in v.layout.members
  {
  }

  class TierWorld {
    const p: Params
    const topology: T.Topology
    var registers: map<GridId, GridRegister>
    ghost var world: World
    ghost var repr: set<GridRegister>

    /** Each grid has a register object of its own. */
    ghost predicate BooksWired()
      reads this, repr
    {
      && world.books.Keys == registers.Keys
      && (forall g {:trigger Of(g)} :: Of(g) && g in registers ==>
          registers[g] in repr && registers[g].View() == world.books[g] && registers[g].forgiveness == p.forgiveness)
      && (forall g, h {:trigger Of(g), Of(h)} :: Of(g) && Of(h) && g in registers && h in registers && g != h ==>
          registers[g] != registers[h])
    }

    /** The objects hold what `world` says. */
    ghost predicate Wired()
      reads this, topology, repr
    {
      world.layout == topology.View() && BooksWired()
    }

    ghost predicate Valid()
      reads this, topology, repr
    {
      Wired() && p.threshold > 0 && world.Partitioned(p.threshold)
    }

    /** Every grid of a sound topology starts with a register of founding attesters. */
    constructor (p: Params, topology: T.Topology, epoch: int)
      requires p.threshold > 0 && topology.Valid()
      ensures Valid() && fresh(repr) && this.p == p && this.topology == topology
      ensures forall g {:trigger world.books[g]} :: g in world.books ==>
              world.books[g].Attesters() == S.SetOf(topology.members[g]) && world.books[g].epoch == epoch
    {
      var regs: map<GridId, GridRegister> := map[];
      ghost var books: map<GridId, Register> := map[];
      ghost var objects: set<GridRegister> := {};
      var left := topology.grids.Keys;
      while left != {}
        invariant left <= topology.grids.Keys && regs.Keys == topology.grids.Keys - left == books.Keys && fresh(objects)
        invariant forall g {:trigger Of(g)} :: Of(g) && g in regs ==>
                  regs[g] in objects && regs[g].View() == books[g] && regs[g].forgiveness == p.forgiveness
        invariant forall g {:trigger Of(g)} :: Of(g) && g in regs ==>
                    books[g].Sound() && books[g].gridId == g && books[g].threshold == p.threshold
                      && books[g].epoch == epoch
                    && books[g].Attesters() == books[g].members.Keys == S.SetOf(topology.members[g])
        invariant forall g, h {:trigger Of(g), Of(h)} :: Of(g) && Of(h) && g in regs && h in regs && g != h ==>
                  regs[g] != regs[h]
        decreases left
      {
        var g :| g in left;
        assert Of(g);
        var reg := new GridRegister.Genesis(g, S.SetOf(topology.members[g]), p.threshold, p.forgiveness, epoch);
        regs, books, objects := regs[g := reg], books[g := reg.View()], objects + {reg};
        left := left - {g};
      }
      this.p, this.topology, registers, world, repr := p, topology, regs, World(topology.View(), books), objects;
      new;
      forall g | g in world.books
        ensures world.Kept(g, p.threshold) && world.books[g].Attesters() == S.SetOf(topology.members[g])
        && world.books[g].epoch == epoch {
        assert Of(g);
      }
    }

    lemma At(g: GridId)
      requires Valid() && g in registers
      ensures registers[g] in repr && registers[g].View() == world.books[g] && world.Kept(g, p.threshold)
              && registers[g].Valid()
      ensures registers[g].gridId == g && registers[g].threshold == p.threshold
              && registers[g].forgiveness == p.forgiveness
    {
      assert Of(g) && world.Kept(g, p.threshold);
    }

    lemma AllAt()
      requires Valid()
      ensures forall g {:trigger Of(g)} :: Of(g) && g in registers ==>
                registers[g].Valid() && registers[g].View() == world.books[g] && registers[g] in repr
                  && registers[g].forgiveness == p.forgiveness
    {
      forall g | g in registers {
        At(g);
      }
    }

    /** One block's rolls: every child's register advances by one ceremony. */
    method ApplyRolls(rolls: map<GridId, Roll>, faults: map<GridId, set<NodeId>>)
      requires Valid() && rolls.Keys <= registers.Keys && forall g {:trigger rolls[g]} :: g in rolls ==>
               rolls[g].gridId == g
      modifies this`world, repr
      ensures Wired() && registers == old(registers) && repr == old(repr)
      ensures Rolled(old(world), world, rolls, faults)
    {
      hide Layout.Sound, Layout.Housed, Layout.Numbered, T.Topology.View, Register.EntryAfter, Register.Advanced;
      hide Register.Sound, Entry.Faulted, S.SetOf, Register.EntrySound, Register.Named, Register.At;
      ghost var was := world;
      var left := rolls.Keys;
      while left != {}
        invariant left <= rolls.Keys && registers == old(registers) && repr == old(repr)
        invariant Wired() && world.layout == was.layout && world.books.Keys == was.books.Keys
        invariant forall g {:trigger Of(g)} :: Of(g) && g in was.books && (g in left || g !in rolls) ==>
                  world.books[g] == was.books[g]
        invariant forall g {:trigger RolledAt(was, world, rolls, faults, g)} :: g in rolls && g !in left ==>
                  RolledAt(was, world, rolls, faults, g)
        decreases left
      {
        var g :| g in left;
        assert Of(g) && was.Kept(g, p.threshold);
        ghost var before := world;
        ApplyRoll(g, rolls[g], if g in faults then faults[g] else {});
        left := left - {g};
        forall h | h in rolls && h !in left ensures RolledAt(was, world, rolls, faults, h) {
          assert Of(h) && (h == g || RolledAt(was, before, rolls, faults, h));
        }
      }
      forall g | g in was.books ensures RolledAt(was, world, rolls, faults, g) {
        assert Of(g);
      }
    }

    method ApplyRoll(g: GridId, roll: Roll, faulted: set<NodeId>)
      requires Wired() && g in registers && registers[g].Valid() && roll.gridId == g == registers[g].gridId
      modifies this`world, repr
      ensures Wired() && registers == old(registers) && repr == old(repr)
      ensures world.layout == old(world).layout && world.books.Keys == old(world).books.Keys
      ensures old(world).books[g].Advanced(world.books[g], roll, faulted)
      ensures forall h {:trigger Of(h)} :: Of(h) && h in registers && h != g ==> world.books[h] == old(world).books[h]
    {
      hide Register.Advanced, Register.Sound;
      assert Of(g);
      var ok := registers[g].Apply(roll, faulted);
      world := World(world.layout, world.books[g := registers[g].View()]);
      assert forall h {:trigger Of(h)} :: Of(h) && h in registers && h != g ==> registers[h] != registers[g];
    }

    /** Every register takes its own members' share of the block's service. */
    method CreditService(service: map<NodeId, Service>)
      requires Valid()
      modifies this`world, repr
      ensures Valid() && registers == old(registers) && repr == old(repr)
      ensures world == Credited(old(world), service)
    {
      hide Register.Credited, Layout.Sound;
      ghost var was := world;
      CreditedPartitioned(was, p.threshold, service);
      var left := registers.Keys;
      while left != {}
        invariant left <= registers.Keys && registers == old(registers) && repr == old(repr)
        invariant Wired() && world.layout == was.layout && world.books.Keys == was.books.Keys
        invariant forall g {:trigger Of(g)} :: Of(g) && g in was.books ==>
                  world.books[g] == if g in left then was.books[g] else was.books[g].Credited(service)
        decreases left
      {
        var g :| g in left;
        assert Of(g) && was.Kept(g, p.threshold);
        CreditOne(g, service);
        left := left - {g};
      }
      assert world.books == Credited(was, service).books by {
        forall g | g in was.books ensures world.books[g] == was.books[g].Credited(service) {
          assert Of(g);
        }
      }
    }

    method CreditOne(g: GridId, service: map<NodeId, Service>)
      requires Wired() && g in registers && registers[g].Valid()
      modifies this`world, repr
      ensures Wired() && registers == old(registers) && repr == old(repr)
      ensures world == World(old(world).layout, old(world).books[g := old(world).books[g].Credited(service)])
    {
      hide Register.Credited, Register.Sound;
      assert Of(g);
      var touched := registers[g].CreditService(service);
      world := World(world.layout, world.books[g := registers[g].View()]);
      assert forall h {:trigger Of(h)} :: Of(h) && h in registers && h != g ==> registers[h] != registers[g];
    }

    method ReleaseCohort(f: Founding) returns (movers: Result<map<NodeId, Record>, RegisterError>)
      requires BooksWired() && f.donor in registers && registers[f.donor].Valid()
      modifies this`world, repr
      ensures BooksWired() && world.layout == old(world).layout
      ensures movers.Ok? <==> forall n <- f.cohort :: old(world).books[f.donor].MayFound(n)
      ensures movers.Ok? ==> movers.value == old(world).books[f.donor].Picked(f.cohort)
                             && world.books == old(world).books[f.donor := old(world).books[f.donor].Released(f.cohort)]
      ensures movers.Err? ==> world == old(world)
    {
      hide Register.Sound, Register.MayFound, Register.Released, Register.Picked;
      assert Of(f.donor);
      var donor := registers[f.donor];
      movers := donor.Release(f.cohort);
      assert forall g {:trigger Of(g)} :: Of(g) && g in registers && g != f.donor ==> registers[g] != donor;
      if movers.Ok? {
        world := World(world.layout, world.books[f.donor := donor.View()]);
      }
    }

    method OpenChild(child: GridId, records: map<NodeId, Record>, donor: GridId, epoch: int)
      requires BooksWired()
      modifies this`registers, this`repr, this`world
      ensures BooksWired() && repr >= old(repr) && fresh(repr - old(repr)) && world.layout == old(world).layout
      ensures registers.Keys == old(registers).Keys + {child}
      ensures world.books == old(world).books[child :=
                                              Register(child, epoch, p.threshold, p.forgiveness,
                                                       Waived(records, donor), map[])]
    {
      hide Waived;
      var reg := new GridRegister.Found(child, records, donor, epoch, p.threshold, p.forgiveness);
      world := World(world.layout, world.books[child := reg.View()]);
      registers := registers[child := reg];
      repr := repr + {reg};
    }

    /** The registers' part of a founding: the donor releases the cohort, the child opens with it, in the place of
        whatever register had its name. */
    method FoundBooks(f: Founding) returns (ok: bool)
      requires BooksWired() && f.donor in registers
      requires registers[f.donor].Valid() && registers[f.donor].threshold == p.threshold
               && registers[f.donor].gridId == f.donor
      modifies this`registers, this`repr, this`world, repr
      ensures BooksWired() && fresh(repr - old(repr)) && world.layout == old(world).layout
      ensures ok <==> forall n <- f.cohort :: old(world).books[f.donor].MayFound(n)
      ensures ok ==> world.books == old(world).books[f.donor := old(world).books[f.donor].Released(f.cohort)]
                                                   [f.child := old(world).books[f.donor].Child(f.child, f.cohort)]
      ensures !ok ==> world == old(world) && registers == old(registers)
    {
      hide Register.Sound, Register.MayFound, Register.Released, Register.Picked, Waived;
      assert Of(f.donor);
      ghost var was := world.books[f.donor];
      assert was.forgiveness == p.forgiveness;
      var epoch := registers[f.donor].epoch;
      var movers := ReleaseCohort(f);
      if movers.Err? {
        return false;
      }
      OpenChild(f.child, movers.value, f.donor, epoch);
      return true;
    }

    /** Of what can refuse a founding only the donor's part is left. */
    lemma FoundingAllowed(f: Founding)
      requires Valid() && f.donor in registers && f.child !in registers
      ensures f.donor in world.layout.members
      ensures CanFound(world, f) <==> forall n <- f.cohort :: world.books[f.donor].MayFound(n)
      ensures CanFound(world, f) ==> Founded(world, f).Partitioned(p.threshold)
      ensures CanFound(world, f) ==> forall n <- f.cohort ::
                n in world.layout.assignment && world.layout.assignment[n] == f.donor
    {
      hide Register.MayFound;
      CohortBelongs(f);
      if CanFound(world, f) {
        FoundedPartitioned(world, p.threshold, f);
      }
    }

    /** Apply one founding. An unknown donor, or a cohort the donor cannot release, changes nothing; a name in use is
        noticed only once the registers have moved. */
    method FoundGrid(f: Founding) returns (ok: bool)
      requires Valid()
      modifies this, topology, repr
      ensures ok <==> CanFound(old(world), f)
      ensures fresh(repr - old(repr)) && (ok ==> Valid() && world == Founded(old(world), f))
      ensures !ok && !Reaches(old(world), f) ==> Valid() && world == old(world) && registers == old(registers)
      ensures !ok && Reaches(old(world), f) ==>
                topology.View() == old(topology.View()) && BooksWired() && world == Overwritten(old(world), f)
    {
      if f.donor !in registers {
        return false;
      }
      if f.child in registers {
        ok := FoundOver(f);
        return;
      }
      ok := FoundNew(f);
    }

    /** A founding under a name that is in use. */
    method FoundOver(f: Founding) returns (ok: bool)
      requires Valid() && f.donor in registers && f.child in registers
      modifies this, topology, repr
      ensures !ok && !CanFound(old(world), f) && fresh(repr - old(repr))
      ensures !Reaches(old(world), f) ==> Valid() && world == old(world) && registers == old(registers)
      ensures Reaches(old(world), f) ==>
                topology.View() == old(topology.View()) && BooksWired() && world == Overwritten(old(world), f)
    {
      hide Register.Sound, Register.MayFound, Register.Released, Register.Child, Layout.Sound, World.Kept, Waived;
      At(f.donor);
      LayoutHolds();
      ok := FoundBooks(f);
      if ok {
        var spec := topology.FoundGrid(f.donor, f.child, f.cohort);
        ok := spec.Ok?;
      }
    }

    method FoundNew(f: Founding) returns (ok: bool)
      requires Valid() && f.donor in registers && f.child !in registers
      modifies this, topology, repr
      ensures ok <==> CanFound(old(world), f)
      ensures Valid() && fresh(repr - old(repr))
      ensures ok <==> Reaches(old(world), f)
      ensures if ok then world == Founded(old(world), f) else world == old(world) && registers == old(registers)
    {
      hide Register.Sound, Register.MayFound, Register.Released, Register.Picked, Waived, Layout.Founded, Layout.Sound;
      hide World.Kept;
      At(f.donor);
      FoundingAllowed(f);
      ghost var w := world;
      ok := FoundBooks(f);
      if ok {
        var spec := topology.FoundGrid(f.donor, f.child, f.cohort);
        world := Founded(w, f);
      }
    }

    /** Whoever the donor may release is the donor's in the topology too. */
    lemma CohortBelongs(f: Founding)
      requires Valid() && f.donor in registers
      ensures (forall n <- f.cohort :: world.books[f.donor].MayFound(n)) ==>
                forall n <- f.cohort :: n in world.layout.assignment && world.layout.assignment[n] == f.donor
    {
      forall n | n in f.cohort && world.books[f.donor].MayFound(n)
        ensures n in world.layout.assignment && world.layout.assignment[n] == f.donor {
        OneRegister(world, p.threshold, n, f.donor);
      }
    }

    /** The registers' part of a merge. Refused, it has already dropped the departing register. */
    method MergeBooks(m: Merge) returns (ok: bool)
      requires BooksWired() && m.gone in registers && m.into in registers && m.gone != m.into
      requires registers[m.gone].Valid() && registers[m.into].Valid()
               && registers[m.gone].threshold == registers[m.into].threshold
      modifies this`registers, this`world, repr
      ensures ok <==> var w := old(world);
                w.books[m.gone].members.Keys !! w.books[m.into].members.Keys
                && w.books[m.gone].epoch == w.books[m.into].epoch
      ensures world.layout == old(world).layout && registers == old(registers) - {m.gone}
      ensures ok ==>
                BooksWired() && world.books ==
                (old(world).books - {m.gone})[m.into := old(world).books[m.into].Absorbed(old(world).books[m.gone])]
    {
      hide Register.Sound, Register.Absorbed, Register.Carried;
      assert Of(m.gone) && Of(m.into);
      var gone, into := registers[m.gone], registers[m.into];
      registers := registers - {m.gone};
      var moved := into.Absorb(gone);
      assert forall g {:trigger Of(g)} :: Of(g) && g in registers && g != m.into ==>
        registers[g] != into && registers[g] != gone;
      world := World(world.layout, (world.books - {m.gone})[m.into := into.View()]);
      return moved.Ok?;
    }

    /** Of what can refuse a merge only the registers' part is left. */
    lemma MergeAllowed(m: Merge)
      requires Valid() && m.gone in registers && m.into in registers && m.gone != m.into
      ensures m.gone in world.layout.members && m.into in world.layout.members
      ensures m.gone in world.layout.grids && m.into in world.layout.grids
      ensures CanMerge(world, m) <==>
                && world.layout.grids[m.gone].region == world.layout.grids[m.into].region
                && world.books[m.gone].members.Keys !! world.books[m.into].members.Keys
                && world.books[m.gone].epoch == world.books[m.into].epoch
      ensures CanMerge(world, m) ==> Merged(world, m).Partitioned(p.threshold)
    {
      if CanMerge(world, m) {
        MergedPartitioned(world, p.threshold, m);
      }
    }

    /** Apply one merge. Whatever refuses it, the departing register is dropped all the same, and the topology goes on
        naming its grid. */
    method MergeGrid(m: Merge) returns (ok: bool)
      requires Valid()
      modifies this, topology, repr
      ensures ok <==> CanMerge(old(world), m)
      ensures ok ==> Valid() && repr == old(repr) && world == Merged(old(world), m)
      ensures !ok ==> registers == old(registers) - {m.gone} && topology.View() == old(topology.View())
      ensures !ok && m.gone in old(registers) ==> m.gone in topology.grids
    {
      LayoutHolds();
      if m.gone !in registers {
        return false;
      }
      if m.into !in registers || m.into == m.gone {
        registers := registers - {m.gone};
        return false;
      }
      ok := MergeTwo(m);
    }

    method MergeTwo(m: Merge) returns (ok: bool)
      requires Valid() && m.gone in registers && m.into in registers && m.gone != m.into
      modifies this, topology, repr
      ensures ok <==> CanMerge(old(world), m)
      ensures ok ==> Valid() && repr == old(repr) && world == Merged(old(world), m)
      ensures !ok ==>
                registers == old(registers) - {m.gone} && topology.View() == old(topology.View())
                && m.gone in topology.grids
    {
      hide Register.Sound, Register.Absorbed, Layout.Merged, Layout.Sound, Register.Carried, World.Kept, S.SetOf;
      hide GridRegister.View, CanMerge;
      At(m.gone);
      At(m.into);
      MergeAllowed(m);
      ghost var w := world;
      ok := MergeBooks(m);
      if ok {
        var spec := topology.MergeGrid(m.gone, m.into);
        ok := spec.Ok?;
        if ok {
          world := Merged(w, m);
        }
      }
    }

    /** The grids' part of applying a network block: the rolls, the service, then the founding, then the merge. It
        fails, with the rolls and the service already in, exactly when the founding or the merge is refused. */
    method ApplyGrids(rolls: map<GridId, Roll>, faults: map<GridId, set<NodeId>>, service: map<NodeId, Service>,
                      founding: Option<Founding>, merge: Option<Merge>) returns (ok: bool, ghost mid: World)
      requires Valid() && rolls.Keys <= registers.Keys && forall g {:trigger rolls[g]} :: g in rolls ==>
               rolls[g].gridId == g
      requires forall g :: g in rolls ==>
                 rolls[g].seated <= world.books[g].members.Keys && Faulted(faults, g) <= world.books[g].members.Keys
      modifies this, topology, repr
      ensures Rolled(old(world), mid, rolls, faults)
      ensures ok <==> && (founding.Some? ==> CanFound(Credited(mid, service), founding.value))
                      && (merge.Some? ==> CanMerge(AfterFounding(Credited(mid, service), founding), merge.value))
      ensures ok ==> Valid() && Moves(Credited(mid, service), founding, merge, world)
    {
      hide World.Partitioned, CanFound, CanMerge, Founded, Merged, Credited, Reaches, Overwritten;
      ghost var was := world;
      LayoutHolds();
      ApplyRolls(rolls, faults);
      mid := world;
      RolledPartitionedIff(was, mid, p.threshold, rolls, faults);
      CreditService(service);
      LayoutHolds();
      ok := true;
      if founding.Some? {
        MovesNamed(world, founding, None);
        ok := FoundGrid(founding.value);
      }
      if ok && merge.Some? {
        LayoutHolds();
        MovesNamed(world, None, merge);
        ok := MergeGrid(merge.value);
      }
    }

    lemma LayoutHolds()
      requires Valid()
      ensures world.layout.grids.Keys == world.layout.members.Keys == world.books.Keys == registers.Keys
    {
    }

    method GridsWithRoom() returns (room: set<GridId>)
      requires Valid() && p.admitDen > 0
      ensures forall g :: g in room <==> g in world.books && world.books[g].HasRoom(p.admitNum, p.admitDen)
    {
      room := {};
      var left := registers.Keys;
      while left != {}
        invariant left <= registers.Keys
        invariant forall g :: g in room <==>
                    g in world.books && g !in left && world.books[g].HasRoom(p.admitNum, p.admitDen)
        decreases left
      {
        var g :| g in left;
        At(g);
        if registers[g].View().HasRoom(p.admitNum, p.admitDen) {
          room := room + {g};
        }
        left := left - {g};
      }
    }

    /** A node joins: the draw seats it in a grid of its region that still has room, as an apprentice at zero. */
    method Admit(n: NodeId, region: Region, draw: nat) returns (r: Result<GridId, TopologyError>)
      requires Valid() && p.admitDen > 0
      modifies this, topology, repr
      ensures Valid() && repr == old(repr) && registers == old(registers)
      ensures r.Err? ==> world == old(world)
      ensures r.Err? <==> n in old(world).layout.assignment || Fitting(old(world), p, region) == {}
      ensures r.Ok? ==>
                r.value in Fitting(old(world), p, region)
                && r.value == Ordered(Fitting(old(world), p, region))[draw % |Ordered(Fitting(old(world), p, region))|]
      ensures r.Ok? ==> r.value in old(world).layout.members && world == Admitted(old(world), n, r.value)
    {
      hide Register.Sound, Register.HasRoom, Layout.Sound, World.Kept, Ordered;
      if n in topology.assignment {
        return Err(Exists);
      }
      var room := GridsWithRoom();
      AllAt();
      ghost var was := world;
      assert n !in was.layout.assignment;
      assert was.layout.Serving(region) * room == Fitting(was, p, region);
      NeverEmpty(was, p, region);
      r := topology.AssignNewcomer(n, region, draw, Some(room));
      if r.Err? {
        return;
      }
      AdmittedPartitioned(was, p.threshold, n, r.value);
      OneRegister(was, p.threshold, n, r.value);
      assert Of(r.value);
      Enrol(n, r.value);
    }

    /** The newcomer's entry in its grid's register. */
    method Enrol(n: NodeId, g: GridId)
      requires BooksWired() && g in registers && registers[g].Valid() && n !in world.books[g].members
               && g in world.layout.members
      modifies this`world, repr
      ensures BooksWired() && registers == old(registers) && repr == old(repr) && world == Admitted(old(world), n, g)
    {
      hide Register.Sound, Layout.Joined;
      assert Of(g);
      var rec := registers[g].Admit(n, registers[g].epoch);
      world := Admitted(world, n, g);
      forall h {:trigger Of(h)} | Of(h) && h in registers && h != g ensures registers[h] != registers[g] {
      }
    }

    lemma NoneEarlier(ids: seq<GridId>, i: nat)
      requires i < |ids| && S.StrictlySorted(ids) && (forall h :: h in ids <==> h in world.books)
               && forall j | 0 <= j < i :: !SplitDue(world, p, ids[j])
      ensures forall h | h in world.books && h < ids[i] :: !SplitDue(world, p, h)
    {
      hide SplitDue;
      forall h | h in world.books && h < ids[i] ensures !SplitDue(world, p, h) {
        var j := Earlier(ids, i, h);
      }
    }

    lemma NoneAtAll(ids: seq<GridId>)
      requires (forall h :: h in ids <==> h in world.books) && forall j | 0 <= j < |ids| :: !SplitDue(world, p, ids[j])
      ensures forall h | h in world.books :: !SplitDue(world, p, h)
    {
      hide SplitDue;
    }

    /** What grid `g` would found: nothing unless it is due. */
    method FoundingOf(d: Draws, name: Naming, g: GridId) returns (plan: Option<Founding>)
      requires Valid() && Injective(name) && g in registers
      ensures plan.Some? <==> SplitDue(world, p, g)
      ensures plan.Some? ==> plan.value.donor == g && g in world.layout.grids
                             && IsNextName(world.layout, world.layout.grids[g].region, name, plan.value.child)
                             && IsCohort(d, g, plan.value.child, world.Eligible(g), plan.value.cohort, p.cohort)
    {
      hide Register.Sound, World.Kept, S.SetOf, S.StrictlySorted, S.Distinct, IsCohort, Layout.Housed, Layout.Sound;
      At(g);
      var eligible := set n | n in registers[g].View().Attesters() && n in topology.members[g]
        && registers[g].members[n].faults == [];
      assert eligible == world.Eligible(g);
      if |topology.members[g]| <= 2 * p.gridSize || |eligible| < 2 * p.cohort {
        return None;
      }
      var child := topology.NextGridId(topology.grids[g].region, name);
      var ranked := N.ByRank(eligible, n => d.founder(g, child, n));
      S.DistinctSize(ranked);
      FirstOfRanked(d, g, child, eligible, ranked, p.cohort);
      return Some(Founding(g, child, S.SetOf(ranked[..p.cohort])));
    }

    /** `plan_foundings`. */
    method PlanFoundings(d: Draws, name: Naming) returns (plan: Option<Founding>)
      requires Valid() && Injective(name)
      ensures PlansFounding(world, p, d, name, plan)
    {
      hide Register.Sound, World.Kept, S.SetOf, S.StrictlySorted, S.Distinct, IsCohort, IsNextName, Layout.Housed;
      hide Layout.Sound, SplitDue, World.Eligible;
      var ids := S.Sorted(topology.grids.Keys);
      InSorted(ids, topology.grids.Keys);
      for i := 0 to |ids|
        invariant forall j | 0 <= j < i :: !SplitDue(world, p, ids[j])
      {
        assert ids[i] in ids;
        plan := FoundingOf(d, name, ids[i]);
        if plan.Some? {
          NoneEarlier(ids, i);
          return;
        }
      }
      NoneAtAll(ids);
      return None;
    }

    /** `plan_merges`. */
    method PlanMerges(d: Draws, founding: Option<Founding>) returns (plan: Option<Merge>)
      requires Valid()
      ensures PlansMerge(world, p, d, founding, plan)
    {
      hide Register.Sound, Layout.Sound, World.Kept, S.SetOf, S.StrictlySorted, MergeDue, FoldsInto;
      if |topology.grids| < 2 || founding.Some? {
        return None;
      }
      var ids := S.Sorted(topology.grids.Keys);
      InSorted(ids, topology.grids.Keys);
      for i := 0 to |ids|
        invariant forall j | 0 <= j < i :: !MergeDue(world, p, ids[j])
      {
        var g := ids[i];
        assert g in ids;
        var into := HostFor(d, g);
        if into.Some? {
          forall h | h in world.books && h < g ensures !MergeDue(world, p, h) {
            var j := Earlier(ids, i, h);
          }
          FoldIs(world, p, d, g, into.value);
          return Some(Merge(g, into.value, S.SetOf(topology.members[g])));
        }
      }
      forall g | g in world.books ensures !MergeDue(world, p, g) {
        assert g in ids;
      }
      return None;
    }

    /** Where this grid must go, if it must. */
    method HostFor(d: Draws, g: GridId) returns (into: Option<GridId>)
      requires Valid() && g in registers
      ensures into.Some? <==> MergeDue(world, p, g)
      ensures into.Some? ==> FoldsInto(world, p, d, g, into.value)
    {
      hide Register.Sound, HostsBefore, World.Kept, S.SetOf, MergeDue, IsHost;
      At(g);
      var room := set h | h in topology.grids && h != g && topology.grids[h].region == topology.grids[g].region
                          && |topology.members[h]| + |topology.members[g]| <= 2 * p.gridSize;
      HostsAre(world, p, g, room);
      if |registers[g].View().SeatedMembers()| * 2 >= p.gridSize || room == {} {
        return None;
      }
      var best := BestHost(d, g, room);
      return Some(best);
    }

    /** `min(room, key=size then draw)`, the first in id order on ties. */
    method BestHost(d: Draws, gone: GridId, room: set<GridId>) returns (best: GridId)
      requires Valid() && room != {} && forall h <- room :: h in world.layout.members
      ensures best in room && forall h <- room :: HostsBefore(world, d, gone, best, h)
    {
      var left := room;
      best :| best in room;
      while left != {}
        invariant best in room && left <= room
        invariant forall h :: h in room && h !in left ==> HostsBefore(world, d, gone, best, h)
        decreases left
      {
        var h :| h in left;
        var x, y := |topology.members[h]|, |topology.members[best]|;
        if x < y || (x == y && (d.host(gone, h) < d.host(gone, best)
                                || (d.host(gone, h) == d.host(gone, best) && h < best))) {
          best := h;
        }
        left := left - {h};
      }
    }
  }

  /** `into` is the host the plan names for `gone`. */
  ghost predicate FoldsInto(w: World, p: Params, d: Draws, gone: GridId, into: GridId) {
    && IsHost(w, p, gone, into)
    && forall h {:trigger IsHost(w, p, gone, h)} :: IsHost(w, p, gone, h) ==> HostsBefore(w, d, gone, into, h)
  }

  lemma FoldIs(w: World, p: Params, d: Draws, gone: GridId, into: GridId)
    requires |w.layout.grids| >= 2 && FoldsInto(w, p, d, gone, into) && MergeDue(w, p, gone)
    requires forall g {:trigger MergeDue(w, p, g)} :: g in w.books && g < gone ==> !MergeDue(w, p, g)
    ensures gone in w.layout.members && PlansMerge(w, p, d, None,
                                                   Some(Merge(gone, into, S.SetOf(w.layout.members[gone]))))
  {
  }

  lemma HostsAre(w: World, p: Params, g: GridId, room: set<GridId>)
    requires g in w.books && g in w.layout.grids && g in w.layout.members
             && w.layout.grids.Keys == w.layout.members.Keys
    requires room == set h | h in w.layout.grids && h != g && w.layout.grids[h].region == w.layout.grids[g].region
                             && |w.layout.members[h]| + |w.layout.members[g]| <= 2 * p.gridSize
    ensures forall h {:trigger IsHost(w, p, g, h)} {:trigger h in room} :: h in room <==> IsHost(w, p, g, h)
    ensures MergeDue(w, p, g) <==> |w.books[g].SeatedMembers()| * 2 < p.gridSize && room != {}
  {
    assert forall h :: h in room <==> IsHost(w, p, g, h);
  }

  lemma Earlier(ids: seq<GridId>, i: nat, h: GridId) returns (j: nat)
    requires S.StrictlySorted(ids) && i < |ids| && h in ids && h < ids[i]
    ensures j < i && ids[j] == h
  {
    j :| 0 <= j < |ids| && ids[j] == h;
  }

  lemma InSorted(ids: seq<GridId>, all: set<GridId>)
    requires S.SetOf(ids) == all
    ensures forall g {:trigger g in ids} {:trigger g in all} :: g in ids <==> g in all
  {
    assert forall g :: g in ids <==> g in S.SetOf(ids);
  }

  lemma FirstOfRanked(d: Draws, donor: GridId, child: GridId, eligible: set<NodeId>, ranked: seq<NodeId>, size: nat)
    requires S.Distinct(ranked) && S.SetOf(ranked) == eligible && size <= |ranked|
    requires forall i, j | 0 <= i < j < |ranked| :: N.Before(n => d.founder(donor, child, n), ranked[i], ranked[j])
    ensures IsCohort(d, donor, child, eligible, S.SetOf(ranked[..size]), size)
  {
    S.DistinctSize(ranked[..size]);
    var cohort := S.SetOf(ranked[..size]);
    forall k | 0 <= k < size ensures ranked[k] in cohort {
      assert ranked[..size][k] in ranked[..size];
    }
    forall a, b | a in cohort && b in eligible - cohort ensures RanksBefore(d, donor, child, a, b) {
      var i :| 0 <= i < size && ranked[i] == a;
      assert b in S.SetOf(ranked);
      var j :| 0 <= j < |ranked| && ranked[j] == b;
      assert N.Before(n => d.founder(donor, child, n), ranked[i], ranked[j]);
    }
  }
}
