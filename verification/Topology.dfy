/** The topology itself, changed in place (chain/locality.py, `Topology`). */
module Topology {
  import opened Basics
  import opened Locality
  import S = Seats
  import D = Distances

  // ---- one mover at a time ----

  lemma FoundedNobody(l: Layout, donor: GridId, child: GridId)
    requires donor in l.grids && donor in l.members && donor != child
    ensures l.Founded(donor, child, {}) == Layout(l.grids[child := GridSpec(child, l.grids[donor].region, |l.grids|)],
                                                  l.assignment, l.members[child := []])
  {
    WithoutNone(l.members[donor]);
    assert MovedTo(l.assignment, {}, child) == l.assignment;
  }

  lemma Overwritten(m: map<GridId, seq<NodeId>>, d: GridId, c: GridId, a: seq<NodeId>, b: seq<NodeId>, a': seq<NodeId>,
                    b': seq<NodeId>)
    requires d != c
    ensures m[d := a][c := b][d := a'][c := b'] == m[d := a'][c := b']
  {
  }

  lemma OneMoreMoved(assignment: map<NodeId, GridId>, done: set<NodeId>, n: NodeId, g: GridId)
    requires n in assignment
    ensures MovedTo(assignment, done + {n}, g) == MovedTo(assignment, done, g)[n := g]
  {
  }

  lemma FoundedOneMore(l: Layout, donor: GridId, child: GridId, done: set<NodeId>, n: NodeId)
    requires l.Sound() && donor in l.grids && child !in l.grids && n in l.members[donor] && forall x <- done :: x < n
    ensures var was := l.Founded(donor, child, done);
            l.Founded(donor, child, done + {n})
            == Layout(was.grids, was.assignment[n := child],
                      was.members[donor := S.Removed(was.members[donor], n)][child := was.members[child] + [n]])
  {
    hide MovedTo, Without, Ordered, S.Removed, S.Distinct;
    assert l.Listed(donor) && n !in done;
    RemovedOne(l.members[donor], done, n);
    OrderedGrows(done, n);
    OneMoreMoved(l.assignment, done, n, child);
    Overwritten(l.members, donor, child, Without(l.members[donor], done), Ordered(done),
                Without(l.members[donor], done + {n}), Ordered(done + {n}));
  }

  // ---- the numbers after a merge ----

  /** The numbers that remain once `gap` is gone. */
  ghost function Remaining(k: nat, gap: nat): (r: seq<nat>)
    requires gap < k
    ensures |r| == k - 1 && forall i: nat | i < k - 1 :: r[i] == if i < gap then i else i + 1
  {
    seq(k - 1, i requires 0 <= i < k - 1 => if i < gap then i else i + 1)
  }

  ghost predicate Ascending(l: Layout, order: seq<GridId>) {
    && (forall g <- order :: g in l.grids)
    && forall i, j {:trigger order[i], order[j]} :: 0 <= i < j < |order| ==>
       l.grids[order[i]].index < l.grids[order[j]].index
  }

  ghost function IndicesIn(l: Layout, order: seq<GridId>): (r: seq<nat>)
    requires forall g <- order :: g in l.grids
    ensures |r| == |order| && forall i | 0 <= i < |r| :: r[i] == l.grids[order[i]].index
  {
    seq(|order|, i requires 0 <= i < |order| => l.grids[order[i]].index)
  }

  /** In number order, the survivors carry the old numbers with one gap. */
  lemma SurvivorsInOrder(l: Layout, gone: GridId, order: seq<GridId>)
    requires l.Numbered() && gone in l.grids && Ascending(l, order) && S.SetOf(order) == l.grids.Keys - {gone}
    ensures l.grids[gone].index < |l.grids|
    ensures IndicesIn(l, order) == Remaining(|l.grids|, l.grids[gone].index)
  {
    hide Layout.Apart, S.SetOf;
    assert l.Placed(gone, |l.grids|);
    var k, gap := |l.grids|, l.grids[gone].index;
    var now := IndicesIn(l, order);
    forall i ensures i in S.SetOf(now) <==> i in S.SetOf(Remaining(k, gap)) {
      if i in S.SetOf(now) {
        SurvivorRemains(l, gone, order, i);
      }
      if i in S.SetOf(Remaining(k, gap)) {
        RemainingSurvives(l, gone, order, i);
      }
    }
    S.SortedListIsUnique(now, Remaining(k, gap));
  }

  lemma SurvivorRemains(l: Layout, gone: GridId, order: seq<GridId>, i: nat)
    requires l.Numbered() && gone in l.grids && (forall g <- order :: g in l.grids)
             && S.SetOf(order) == l.grids.Keys - {gone}
    requires l.grids[gone].index < |l.grids| && i in S.SetOf(IndicesIn(l, order))
    ensures i in S.SetOf(Remaining(|l.grids|, l.grids[gone].index))
  {
    var now, k, gap := IndicesIn(l, order), |l.grids|, l.grids[gone].index;
    var j :| 0 <= j < |now| && now[j] == i;
    assert order[j] in S.SetOf(order);
    assert l.Apart(order[j], gone) && l.Placed(order[j], k);
    assert Remaining(k, gap)[if i < gap then i else i - 1] == i;
  }

  lemma RemainingSurvives(l: Layout, gone: GridId, order: seq<GridId>, i: nat)
    requires l.Numbered() && gone in l.grids && (forall g <- order :: g in l.grids)
             && S.SetOf(order) == l.grids.Keys - {gone}
    requires l.grids[gone].index < |l.grids| && i in S.SetOf(Remaining(|l.grids|, l.grids[gone].index))
    ensures i in S.SetOf(IndicesIn(l, order))
  {
    hide Layout.Apart;
    IndicesAreAll(l);
    assert i in IndicesOf(l, l.grids.Keys);
    var g :| g in l.grids && l.grids[g].index == i;
    assert g in S.SetOf(order);
    var j :| 0 <= j < |order| && order[j] == g;
    assert IndicesIn(l, order)[j] == i;
  }

  lemma OwnName(l: Layout, g: GridId)
    requires l.Numbered() && g in l.grids
    ensures l.grids[g].gridId == g
  {
    assert l.Placed(g, |l.grids|);
  }

  lemma NumbersAre(was: Layout, gone: GridId, order: seq<GridId>, grids: map<GridId, GridSpec>)
    requires was.Numbered() && gone in was.grids && Ascending(was, order)
             && S.SetOf(order) == was.grids.Keys - {gone} == grids.Keys
    requires forall j {:trigger order[j]} | 0 <= j < |order| ::
               order[j] in grids && grids[order[j]] == was.grids[order[j]].(index := j)
    ensures grids == Renumbered(was.grids, gone)
  {
    hide S.Distinct, S.StrictlySorted, Layout.Placed, Layout.Apart;
    SurvivorsInOrder(was, gone, order);
    forall g | g in was.grids && g != gone
      ensures g in grids && grids[g] == Lowered(was.grids[g], was.grids[gone].index) {
      assert g in S.SetOf(order);
      NumberIs(was, gone, order, grids, g);
    }
  }

  lemma NumberIs(was: Layout, gone: GridId, order: seq<GridId>, grids: map<GridId, GridSpec>, g: GridId)
    requires (forall h <- order :: h in was.grids) && gone in was.grids && was.grids[gone].index < |was.grids|
    requires IndicesIn(was, order) == Remaining(|was.grids|, was.grids[gone].index)
    requires forall j {:trigger order[j]} | 0 <= j < |order| ::
               order[j] in grids && grids[order[j]] == was.grids[order[j]].(index := j)
    requires g in order
    ensures grids[g] == Lowered(was.grids[g], was.grids[gone].index)
  {
    var j :| 0 <= j < |order| && order[j] == g;
    assert IndicesIn(was, order)[j] == was.grids[g].index;
  }

  predicate Belongs(l: Layout, n: NodeId, g: GridId) {
    n in l.assignment && l.assignment[n] == g
  }

  /** The founding stopped at `bad`, the first mover that is not the donor's, with those before it moved. */
  ghost predicate StoppedAt(was: Layout, donor: GridId, child: GridId, movers: set<NodeId>, bad: NodeId, now: Layout)
  {
    && donor in was.grids && donor in was.members && bad in movers && !Belongs(was, bad, donor)
    && (forall n <- movers :: n < bad ==> Belongs(was, n, donor))
    && now == was.Founded(donor, child, set n | n in movers && n < bad)
  }

  method SpecsById(specs: seq<GridSpec>) returns (byId: map<GridId, GridSpec>)
    requires forall i, j | 0 <= i < j < |specs| :: specs[i].gridId != specs[j].gridId
    ensures byId.Keys == set i | 0 <= i < |specs| :: specs[i].gridId
    ensures forall i | 0 <= i < |specs| :: byId[specs[i].gridId] == specs[i]
  {
    byId := map[];
    for i := 0 to |specs|
      invariant byId.Keys == set j | 0 <= j < i :: specs[j].gridId
      invariant forall j | 0 <= j < i :: byId[specs[j].gridId] == specs[j]
    {
      byId := byId[specs[i].gridId := specs[i]];
    }
  }

  ghost function Assigned(assignment: map<NodeId, GridId>, some: set<NodeId>, g: GridId): set<NodeId> {
    set n | n in some && n in assignment && assignment[n] == g
  }

  /** Each grid's nodes in sorted order. */
  method MembersByGrid(ids: set<GridId>, assignment: map<NodeId, GridId>) returns (lists: map<GridId, seq<NodeId>>)
    requires forall n <- assignment :: assignment[n] in ids
    ensures lists.Keys == ids
    ensures forall g {:trigger lists[g]} :: g in lists ==> lists[g] == Ordered(Assigned(assignment, assignment.Keys, g))
  {
    hide Ordered, S.StrictlySorted, IsLeast;
    lists := map g | g in ids :: [];
    var order := S.Sorted(assignment.Keys);
    assert forall n :: n in order <==> n in S.SetOf(order);
    forall g <- ids ensures Ordered(Assigned(assignment, {}, g)) == [] {
      OrderedIs({}, []);
      assert Assigned(assignment, {}, g) == {};
    }
    assert S.SetOf(order[..0]) == {};
    for i := 0 to |order|
      invariant lists.Keys == ids
      invariant forall g {:trigger lists[g]} :: g in lists ==>
                lists[g] == Ordered(Assigned(assignment, S.SetOf(order[..i]), g))
    {
      var n := order[i];
      assert order[..i + 1] == order[..i] + [n];
      forall g <- ids ensures Ordered(Assigned(assignment, S.SetOf(order[..i + 1]), g))
                              == Ordered(Assigned(assignment, S.SetOf(order[..i]), g)) + (if g == assignment[n]
                                then [n] else [])
      {
        var before, after := Assigned(assignment, S.SetOf(order[..i]), g),
          Assigned(assignment, S.SetOf(order[..i + 1]), g);
        if g == assignment[n] {
          assert after == before + {n};
          OrderedGrows(before, n);
        } else {
          assert after == before;
        }
      }
      lists := lists[assignment[n] := lists[assignment[n]] + [n]];
    }
    assert order[..|order|] == order;
  }

  class Topology {
    var grids: map<GridId, GridSpec>
    var assignment: map<NodeId, GridId>
    var members: map<GridId, seq<NodeId>>

    function View(): Layout
      reads this
    {
      Layout(grids, assignment, members)
    }

    ghost predicate Valid()
      reads this
    {
      View().Sound()
    }

    /** The grids given, and each grid's nodes in sorted order. */
    constructor (specs: seq<GridSpec>, assignment: map<NodeId, GridId>)
      requires forall i, j | 0 <= i < j < |specs| :: specs[i].gridId != specs[j].gridId
      requires forall n <- assignment :: exists i :: 0 <= i < |specs| && specs[i].gridId == assignment[n]
      ensures grids.Keys == (set i | 0 <= i < |specs| :: specs[i].gridId) == members.Keys
              && forall i | 0 <= i < |specs| :: grids[specs[i].gridId] == specs[i]
      ensures this.assignment == assignment
      ensures forall g {:trigger members[g]} :: g in members ==>
              members[g] == Ordered(Assigned(assignment, assignment.Keys, g))
    {
      var byId := SpecsById(specs);
      var lists := MembersByGrid(byId.Keys, assignment);
      this.grids, this.assignment, this.members := byId, assignment, lists;
    }

    /** `grids_in`. */
    method GridsIn(region: Region) returns (ids: seq<GridId>)
      ensures ids == Ordered(View().Serving(region))
    {
      var serving := set g | g in grids && grids[g].region == region;
      ids := S.Sorted(serving);
      assert serving == View().Serving(region);
      OrderedIs(serving, ids);
    }

    /** Seat a newcomer in one of its region's grids: the seed picks which. `room` is the set of grids that can take an
        apprentice, where the caller limits the draw to them. */
    method AssignNewcomer(n: NodeId, region: Region, draw: nat, room: Option<set<GridId>>)
      returns (r: Result<GridId, TopologyError>)
      requires Valid()
      modifies this
      ensures var serving := old(View()).Serving(region);
              var fitting := if room.Some? then serving * room.value else serving;
              r == if serving == {} then Err(NoGridServes) else if fitting == {} then Err(NoRoom)
                   else Ok(Ordered(fitting)[draw % |Ordered(fitting)|])
      ensures r.Ok? ==> r.value in old(members) && View() == old(View()).Joined(n, r.value)
      ensures r.Err? ==> View() == old(View())
      ensures r.Ok? ==> r.value in old(View()).Serving(region) && (room.Some? ==> r.value in room.value)
      ensures Valid() <==> r.Err? || n !in old(assignment)
    {
      hide IsLeast, S.SetOf, Layout.Numbered, S.StrictlySorted;
      var candidates := GridsIn(region);
      ghost var serving := View().Serving(region);
      OrderedHolds(serving);
      if candidates == [] {
        OrderedEmpty(serving);
        return Err(NoGridServes);
      }
      assert candidates[0] in serving;
      ghost var fitting := if room.Some? then serving * room.value else serving;
      if room.Some? {
        candidates := WithRoom(candidates, room.value, serving);
        OrderedHolds(fitting);
        if candidates == [] {
          OrderedEmpty(fitting);
          return Err(NoRoom);
        }
      }
      var g := candidates[draw % |candidates|];
      assert g in fitting;
      JoinedSound(View(), n, g);
      assignment := assignment[n := g];
      members := members[g := members[g] + [n]];
      return Ok(g);
    }

    /** Found a grid and move a cohort into it. A mover that is not the donor's stops the loop there: the new grid
        stays, with the movers before that one. */
    method FoundGrid(donor: GridId, child: GridId, movers: set<NodeId>) returns (r: Result<GridSpec, TopologyError>)
      requires Valid()
      modifies this
      ensures Valid()
      ensures child in old(grids) ==> r == Err(Exists) && View() == old(View())
      ensures child !in old(grids) && donor !in old(grids) ==> r == Err(NoSuchGrid) && View() == old(View())
      ensures child !in old(grids) && donor in old(grids) ==>
                && (r.Ok? <==> forall n <- movers :: Belongs(old(View()), n, donor))
                && (r.Ok? ==> View() == old(View()).Founded(donor, child, movers) && r.value == grids[child])
                && (r.Err? ==> r == Err(NotInDonor) && exists bad ::
                    StoppedAt(old(View()), donor, child, movers, bad, View()))
    {
      if child in grids {
        return Err(Exists);
      }
      if donor !in grids {
        return Err(NoSuchGrid);
      }
      var was := View();
      var spec := GridSpec(child, grids[donor].region, |grids|);
      FoundedNobody(was, donor, child);
      grids := grids[child := spec];
      members := members[child := []];
      var ok := MoveCohort(was, donor, child, movers);
      return if ok then Ok(spec) else Err(NotInDonor);
    }

    /** The loop over the sorted movers. */
    method MoveCohort(ghost was: Layout, donor: GridId, child: GridId, movers: set<NodeId>) returns (ok: bool)
      requires was.Sound() && donor in was.grids && donor in was.members && child !in was.grids
      requires View() == was.Founded(donor, child, {})
      modifies this`assignment, this`members
      ensures View().Sound()
      ensures ok <==> forall n <- movers :: Belongs(was, n, donor)
      ensures ok ==> View() == was.Founded(donor, child, movers)
      ensures !ok ==> exists bad :: StoppedAt(was, donor, child, movers, bad, View())
    {
      hide Layout.Sound, Layout.Founded, S.Removed, StoppedAt;
      var order := S.Sorted(movers);
      assert forall n :: n in order <==> n in S.SetOf(order);
      ghost var done: set<NodeId> := {};
      for i := 0 to |order|
        invariant done == S.SetOf(order[..i])
        invariant View() == was.Founded(donor, child, done)
        invariant forall n <- done :: Belongs(was, n, donor)
      {
        var n := order[i];
        assert n in movers;
        BelowIsPrefix(order, i);
        assert forall x :: x in done <==> x in movers && x < n;
        FoundedTables(was, donor, child, done, n);
        if n !in assignment || assignment[n] != donor {
          DoneSound(was, donor, child, done);
          Stopped(was, donor, child, movers, n, done);
          assert StoppedAt(was, donor, child, movers, n, View());
          return false;
        }
        FoundedOneMore(was, donor, child, done, n);
        assignment := assignment[n := child];
        members := members[donor := S.Removed(members[donor], n)];
        members := members[child := members[child] + [n]];
        done := done + {n};
        assert order[..i + 1] == order[..i] + [n];
      }
      assert order[..|order|] == order;
      DoneSound(was, donor, child, done);
      return true;
    }

    /** Fold one grid into a sibling and renumber what is left. */
    method MergeGrid(gone: GridId, into: GridId) returns (r: Result<GridSpec, TopologyError>)
      requires Valid()
      modifies this
      ensures Valid()
      ensures r.Ok? <==>
                gone != into && gone in old(grids) && into in old(grids)
                && old(grids)[gone].region == old(grids)[into].region
      ensures View() == if r.Ok? then old(View()).Merged(gone, into) else old(View())
      ensures r.Ok? ==> r.value == grids[into]
    {
      if gone == into {
        return Err(SameGrid);
      }
      if gone !in grids || into !in grids {
        return Err(NoSuchGrid);
      }
      if |grids| < 2 {
        assert {gone, into} <= grids.Keys;
        D.SubsetSize({gone, into}, grids.Keys);
        return Err(LastGrid);
      }
      if grids[gone].region != grids[into].region {
        return Err(OtherRegion);
      }
      var was := View();
      MergedSound(was, gone, into);
      MoveAll(gone, into);
      grids := grids - {gone};
      Renumber(was, gone);
      return Ok(grids[into]);
    }

    /** Everyone in `gone` joins `into`, whose list is then sorted; the list of `gone` is deleted. */
    method MoveAll(gone: GridId, into: GridId)
      requires Valid() && gone in grids && into in grids && gone != into
      modifies this`assignment, this`members
      ensures assignment == Redirected(old(assignment), gone, into)
      ensures members == (old(members) - {gone})[into :=
                                                 Ordered(S.SetOf(old(members)[into]) + S.SetOf(old(members)[gone]))]
    {
      hide S.StrictlySorted, S.Distinct, MovedTo, Ordered;
      var list, host := members[gone], members[into];
      assert View().Listed(gone);
      assert host + list[..0] == host && MovedTo(assignment, S.SetOf(list[..0]), into) == assignment;
      for i := 0 to |list|
        invariant assignment == MovedTo(old(assignment), S.SetOf(list[..i]), into)
        invariant members == old(members)[into := host + list[..i]] && into in members && gone in members
      {
        assert list[i] in list;
        assert list[..i + 1] == list[..i] + [list[i]];
        assert S.SetOf(list[..i + 1]) == S.SetOf(list[..i]) + {list[i]};
        assert host + list[..i + 1] == host + list[..i] + [list[i]];
        assert old(View()).Listed(gone);
        OneMoreMoved(old(assignment), S.SetOf(list[..i]), list[i], into);
        assignment := assignment[list[i] := into];
        members := members[into := members[into] + [list[i]]];
      }
      assert list[..|list|] == list;
      MovedIsRedirected(old(View()), gone, into);
      var sorted := SortedTogether(host, list);
      members := members[into := sorted];
      members := members - {gone};
    }

    /** Number the grids 0, 1, ... in the order of their present numbers. */
    method Renumber(ghost was: Layout, ghost gone: GridId)
      requires was.Numbered() && gone in was.grids && grids == was.grids - {gone}
      modifies this`grids
      ensures grids == Renumbered(was.grids, gone)
    {
      hide Renumbered, Remaining, IndicesIn, Layout.Numbered;
      var order := ByIndex(was);
      assert forall g :: g in order <==> g in S.SetOf(order);
      for i := 0 to |order|
        invariant grids.Keys == was.grids.Keys - {gone}
        invariant forall j {:trigger order[j]} | 0 <= j < |order| ::
                  grids[order[j]] == (if j < i then was.grids[order[j]].(index := j) else was.grids[order[j]])
      {
        var g := order[i];
        OwnName(was, g);
        forall j | 0 <= j < |order| && j != i ensures order[j] != g {
        }
        grids := grids[g := GridSpec(g, grids[g].region, i)];
      }
      NumbersAre(was, gone, order, grids);
    }

    /** `sorted(grids, key=index)`. */
    method ByIndex(ghost was: Layout) returns (order: seq<GridId>)
      requires was.Numbered() && forall g <- grids :: g in was.grids && grids[g] == was.grids[g]
      ensures Ascending(was, order) && S.SetOf(order) == grids.Keys
    {
      var left := grids.Keys;
      order := [];
      while left != {}
        invariant left <= grids.Keys && Ascending(was, order)
        invariant forall g :: g in order <==> g in grids && g !in left
        invariant forall g, h :: g in order && h in left ==> was.grids[g].index < was.grids[h].index
        decreases left
      {
        var first := FirstByIndex(left);
        forall h | h in left && h != first ensures grids[first].index < grids[h].index {
          assert was.Apart(first, h);
        }
        order := order + [first];
        left := left - {first};
      }
    }

    method FirstByIndex(some: set<GridId>) returns (first: GridId)
      requires some != {} && some <= grids.Keys
      ensures first in some && forall h <- some :: grids[first].index <= grids[h].index
    {
      var rest := some;
      first :| first in some;
      while rest != {}
        invariant first in some && rest <= some
        invariant forall h :: h in some && h !in rest ==> grids[first].index <= grids[h].index
        decreases rest
      {
        var g :| g in rest;
        first := if grids[g].index < grids[first].index then g else first;
        rest := rest - {g};
      }
    }

    /** `submit`'s search: the grid that owns a partition is always found, and it is the only one. */
    method OwnerOf(partition: nat) returns (owner: GridId)
      requires Valid() && partition < |grids|
      ensures owner in grids && grids[owner].index == partition
      ensures forall g <- grids :: grids[g].index == partition ==> g == owner
    {
      OneOwner(View(), partition);
      var ids := S.Sorted(grids.Keys);
      assert forall g :: g in ids <==> g in S.SetOf(ids);
      for i := 0 to |ids|
        invariant forall j | 0 <= j < i :: grids[ids[j]].index != partition
      {
        assert ids[i] in S.SetOf(ids);
        if grids[ids[i]].index == partition {
          return ids[i];
        }
      }
      assert false;
    }

    /** The first name of the region's series that is not in use. */
    method NextGridId(region: Region, name: Naming) returns (next: GridId)
      requires Injective(name)
      ensures exists i: nat ::
                next == name(region, i) && (forall j: nat | j < i :: name(region, j) in View().Serving(region))
      ensures next !in View().Serving(region)
      ensures View().Named(name) ==> next !in grids
    {
      var used := set g | g in grids && grids[g].region == region;
      var i := 0;
      ghost var tried: set<GridId> := {};
      while name(region, i) in used
        invariant tried <= used && |tried| == i && Tried(tried, region, name, i)
        decreases |used| - i
      {
        OneMoreTried(tried, region, name, i);
        D.SubsetSize(tried + {name(region, i)}, used);
        tried := tried + {name(region, i)};
        i := i + 1;
      }
      next := name(region, i);
    }
  }

  method WithRoom(candidates: seq<GridId>, room: set<GridId>, ghost serving: set<GridId>) returns (fit: seq<GridId>)
    requires forall g :: g in candidates <==> g in serving
    ensures fit == Ordered(serving * room)
  {
    fit := S.Sorted((set g | g in candidates) * room);
    assert (set g | g in candidates) == serving;
    OrderedIs(serving * room, fit);
  }

  /** The members of two lists, sorted. */
  method SortedTogether(a: seq<NodeId>, b: seq<NodeId>) returns (order: seq<NodeId>)
    ensures order == Ordered(S.SetOf(a) + S.SetOf(b))
  {
    order := S.Sorted(set n | n in a + b);
    assert (set n | n in a + b) == S.SetOf(a) + S.SetOf(b);
    OrderedIs(S.SetOf(a) + S.SetOf(b), order);
  }

  lemma MovedIsRedirected(l: Layout, gone: GridId, into: GridId)
    requires l.Sound() && gone in l.grids && gone in l.members
    ensures MovedTo(l.assignment, S.SetOf(l.members[gone]), into) == Redirected(l.assignment, gone, into)
  {
    assert l.Listed(gone);
    forall n <- l.assignment ensures n in l.members[gone] <==> l.assignment[n] == gone {
      assert l.AtHome(n);
    }
  }

  /** The first `i` names of the region's series. */
  ghost predicate Tried(tried: set<GridId>, region: Region, name: Naming, i: nat) {
    forall g :: g in tried <==> exists j: nat :: j < i && g == name(region, j)
  }

  lemma OneMoreTried(tried: set<GridId>, region: Region, name: Naming, i: nat)
    requires Injective(name) && Tried(tried, region, name, i)
    ensures name(region, i) !in tried && Tried(tried + {name(region, i)}, region, name, i + 1)
  {
  }

  lemma BelowIsPrefix(order: seq<nat>, i: nat)
    requires S.StrictlySorted(order) && i < |order|
    ensures S.SetOf(order[..i]) == set x | x in S.SetOf(order) && x < order[i]
  {
  }

  /** The tables half way through a founding, as the loop meets them at `n`. */
  lemma FoundedTables(l: Layout, donor: GridId, child: GridId, done: set<NodeId>, n: NodeId)
    requires l.Sound() && donor in l.grids && child !in l.grids && n !in done
    ensures var m := l.Founded(donor, child, done);
            && donor in m.members && child in m.members
            && (n in m.assignment && m.assignment[n] == donor <==> Belongs(l, n, donor))
    ensures Belongs(l, n, donor) ==> n in l.members[donor]
  {
    if n in l.assignment {
      assert l.AtHome(n);
    }
  }

  lemma Stopped(was: Layout, donor: GridId, child: GridId, movers: set<NodeId>, bad: NodeId, done: set<NodeId>)
    requires was.Sound() && donor in was.grids && child !in was.grids && bad in movers && !Belongs(was, bad, donor)
    requires (forall x :: x in done <==> x in movers && x < bad) && forall n <- done :: Belongs(was, n, donor)
    ensures StoppedAt(was, donor, child, movers, bad, was.Founded(donor, child, done))
  {
    assert done == set n | n in movers && n < bad;
  }

  lemma DoneSound(l: Layout, donor: GridId, child: GridId, done: set<NodeId>)
    requires l.Sound() && donor in l.grids && child !in l.grids && forall n <- done :: Belongs(l, n, donor)
    ensures l.Founded(donor, child, done).Sound()
  {
    forall n <- done ensures n in l.members[donor] {
      assert Belongs(l, n, donor);
      assert l.AtHome(n);
    }
    FoundedSound(l, donor, child, done);
  }
}
