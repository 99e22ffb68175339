/** Laying out the grids and seating everyone at genesis (chain/locality.py, `Topology.build`). */
module Enrolment {
  import opened Basics
  import opened Locality
  import opened Topology
  import S = Seats
  import D = Distances

  /** How many grids a region of `n` nodes gets: n / gridSize rounded up, and at least one. */
  function GridsFor(n: nat, gridSize: nat): (k: nat)
    requires gridSize > 0
    ensures k > 0
  {
    var k := (n + gridSize - 1) / gridSize;
    if k > 1 then k else 1
  }

  /** What dealing `n` cards round-robin to `k` hands gives hand `j`. */
  function Share(n: nat, k: nat, j: nat): nat
    requires j < k
  {
    (n + k - 1 - j) / k
  }

  lemma NoMultiple(d: int, k: int, e: int)
    requires 0 <= k && d * k == e && -k < e < k
    ensures d == 0
  {
    if d > 0 {
      MulMonotone(1, d, k);
    } else if d < 0 {
      Spread(0, -d, k);
      MulMonotone(1, -d, k);
    }
  }

  lemma Spread(a: nat, b: nat, k: nat)
    ensures (a - b) * k == a * k - b * k
  {
  }

  lemma Quotient(x: nat, k: nat, q: nat, r: nat)
    requires 0 < k && r < k && x == q * k + r
    ensures x / k == q && x % k == r
  {
    assert x == (x / k) * k + x % k;
    Spread(q, x / k, k);
    NoMultiple(q - x / k, k, x % k - r);
  }

  lemma Regroup(q: nat, k: nat, r: int)
    ensures (q + 1) * k + r == q * k + (k + r)
  {
  }

  lemma ShareIs(n: nat, k: nat, j: nat)
    requires j < k
    ensures Share(n, k, j) == n / k + if n % k > j then 1 else 0
  {
    var q, r := n / k, n % k;
    assert n == q * k + r;
    if r > j {
      Regroup(q, k, r - j - 1);
      Quotient(n + k - 1 - j, k, q + 1, r - j - 1);
    } else {
      Quotient(n + k - 1 - j, k, q, k + r - j - 1);
    }
  }

  lemma NextQuotient(n: nat, k: nat)
    requires k > 0
    ensures (n + 1) / k == n / k + if n % k == k - 1 then 1 else 0
    ensures (n + 1) % k == if n % k == k - 1 then 0 else n % k + 1
  {
    var q, r := n / k, n % k;
    assert n == q * k + r;
    if r == k - 1 {
      Regroup(q, k, 0);
      Quotient(n + 1, k, q + 1, 0);
    } else {
      Quotient(n + 1, k, q, r + 1);
    }
  }

  /** One more card goes to hand n % k. */
  lemma ShareNext(n: nat, k: nat, j: nat)
    requires j < k
    ensures Share(n + 1, k, j) == Share(n, k, j) + if n % k == j then 1 else 0
  {
    hide Share;
    ShareIs(n, k, j);
    ShareIs(n + 1, k, j);
    NextQuotient(n, k);
  }

  lemma DivideMonotone(a: nat, b: nat, k: nat)
    requires a <= b && k > 0
    ensures a / k <= b / k
  {
    if a / k > b / k {
      assert a == (a / k) * k + a % k && b == (b / k) * k + b % k;
      MulMonotone(1, a / k - b / k, k);
      Spread(a / k, b / k, k);
    }
  }

  /** No grid is empty, none is over size, and no two of a region differ by more than one. */
  lemma SharesAreFair(n: nat, gridSize: nat, i: nat, j: nat)
    requires n > 0 && gridSize > 0 && i < GridsFor(n, gridSize) && j < GridsFor(n, gridSize)
    ensures var k := GridsFor(n, gridSize); 1 <= Share(n, k, j) <= gridSize && Share(n, k, i) <= Share(n, k, j) + 1
  {
    var k := GridsFor(n, gridSize);
    RoundedUp(n, gridSize);
    Quotient(k, k, 1, 0);
    DivideMonotone(k, n + k - 1 - j, k);
    Quotient(k * gridSize + (k - 1), k, gridSize, k - 1) by {
      assert gridSize * k == k * gridSize;
    }
    DivideMonotone(n + k - 1 - j, k * gridSize + (k - 1), k);
    DivideMonotone(n + k - 1 - i, n + k + (k - 1 - j), k);
    OneMoreHand(n + k - 1 - j, k);
  }

  lemma OneMoreHand(x: nat, k: nat)
    requires k > 0
    ensures (x + k) / k == x / k + 1
  {
    Regroup(x / k, k, x % k);
    Quotient(x + k, k, x / k + 1, x % k);
  }

  lemma RoundedUp(n: nat, gridSize: nat)
    requires n > 0 && gridSize > 0
    ensures n <= GridsFor(n, gridSize) * gridSize && GridsFor(n, gridSize) <= n
  {
    var m := n + gridSize - 1;
    assert m == (m / gridSize) * gridSize + m % gridSize;
    assert m / gridSize >= 1 by {
      Quotient(gridSize, gridSize, 1, 0);
      DivideMonotone(gridSize, m, gridSize);
    }
    Surplus(n, gridSize);
  }

  lemma Surplus(n: nat, gridSize: nat)
    requires n > 0 && gridSize > 0
    ensures (n + gridSize - 1) / gridSize <= n
  {
    Quotient(n * gridSize, gridSize, n, 0);
    Grows(n - 1, gridSize);
    DivideMonotone(n + gridSize - 1, n * gridSize, gridSize);
  }

  lemma Grows(a: nat, b: nat)
    requires b > 0
    ensures a + b <= (a + 1) * b
  {
  }

  // ---- one region ----

  ghost predicate Before(rank: NodeId -> nat, a: NodeId, b: NodeId) {
    rank(a) < rank(b) || (rank(a) == rank(b) && a < b)
  }

  /** `sorted(nodes, key=rank)`, ties in id order. */
  method ByRank(nodes: set<NodeId>, rank: NodeId -> nat) returns (order: seq<NodeId>)
    ensures S.SetOf(order) == nodes && S.Distinct(order)
            && forall i, j | 0 <= i < j < |order| :: Before(rank, order[i], order[j])
  {
    var left := nodes;
    order := [];
    while left != {}
      invariant left <= nodes
      invariant forall n :: n in order <==> n in nodes && n !in left
      invariant forall i, j | 0 <= i < j < |order| :: Before(rank, order[i], order[j])
      invariant forall a, b {:trigger a in order, b in left} :: a in order && b in left ==> Before(rank, a, b)
      decreases left
    {
      var first := First(left, rank);
      assert forall i | 0 <= i < |order| :: order[i] in order;
      order := order + [first];
      left := left - {first};
    }
  }

  method First(some: set<NodeId>, rank: NodeId -> nat) returns (first: NodeId)
    requires some != {}
    ensures first in some && forall n <- some :: n != first ==> Before(rank, first, n)
  {
    var rest := some;
    first :| first in some;
    while rest != {}
      invariant first in some && rest <= some
      invariant forall n :: n in some && n !in rest && n != first ==> Before(rank, first, n)
      decreases rest
    {
      var n :| n in rest;
      if rank(n) < rank(first) || (rank(n) == rank(first) && n < first) {
        first := n;
      }
      rest := rest - {n};
    }
  }

  function Names(name: Naming, region: Region, k: nat): (names: seq<GridId>)
    ensures |names| == k && forall j | 0 <= j < k :: names[j] == name(region, j)
  {
    seq(k, j requires 0 <= j < k => name(region, j))
  }

  lemma NothingDealt(seats: map<NodeId, GridId>, names: seq<GridId>, j: nat)
    requires j < |names|
    ensures Share(0, |names|, j) == 0 && Assigned(seats, {}, names[j]) == {}
  {
    Quotient(|names| - 1 - j, |names|, 0, |names| - 1 - j);
  }

  lemma NextDealt(order: seq<NodeId>, i: nat)
    requires S.Distinct(order) && i < |order|
    ensures order[i] !in S.SetOf(order[..i]) && S.SetOf(order[..i + 1]) == S.SetOf(order[..i]) + {order[i]}
  {
    assert order[..i + 1] == order[..i] + [order[i]];
  }

  lemma OneMoreCard(was: map<NodeId, GridId>, some: set<NodeId>, n: NodeId, names: seq<GridId>, here: nat, j: nat)
    requires S.Distinct(names) && here < |names| && j < |names| && n !in some
    ensures |Assigned(was[n := names[here]], some + {n}, names[j])| == |Assigned(was, some, names[j])| + if here == j
            then 1 else 0
  {
    var now := was[n := names[here]];
    assert Assigned(now, some, names[j]) == Assigned(was, some, names[j]);
    assert Assigned(now, some + {n}, names[j]) == Assigned(now, some, names[j]) + if here == j then {n} else {};
  }

  lemma NamesDistinct(name: Naming, region: Region, k: nat)
    requires Injective(name)
    ensures S.Distinct(Names(name, region, k))
  {
    forall i, j | 0 <= i < j < k ensures Names(name, region, k)[i] != Names(name, region, k)[j] {
      assert name(region, i) != name(region, j);
    }
  }

  /** After `i` cards each hand has its share. */
  ghost predicate DealtUpTo(seats: map<NodeId, GridId>, done: set<NodeId>, names: seq<GridId>, i: nat) {
    && names != [] && (forall n <- seats :: seats[n] in names)
    && forall j {:trigger names[j]} | 0 <= j < |names| :: |Assigned(seats, done, names[j])| == Share(i, |names|, j)
  }

  lemma DealtNobody(names: seq<GridId>)
    requires names != []
    ensures DealtUpTo(map[], {}, names, 0) == true
  {
    forall j {:trigger names[j]} | 0 <= j < |names| ensures |Assigned(map[], {}, names[j])| == Share(0, |names|, j) {
      NothingDealt(map[], names, j);
    }
  }

  lemma DealtNext(seats: map<NodeId, GridId>, done: set<NodeId>, names: seq<GridId>, i: nat, n: NodeId)
    requires S.Distinct(names) && DealtUpTo(seats, done, names, i) == true && n !in done
    ensures names != [] && DealtUpTo(seats[n := names[i % |names|]], done + {n}, names, i + 1) == true
  {
    hide Share, Assigned, S.Distinct;
    var now := seats[n := names[i % |names|]];
    forall j {:trigger names[j]} | 0 <= j < |names|
      ensures |Assigned(now, done + {n}, names[j])| == Share(i + 1, |names|, j) {
      ShareNext(i, |names|, j);
      OneMoreCard(seats, done, n, names, i % |names|, j);
    }
  }

  lemma DealtAll(seats: map<NodeId, GridId>, done: set<NodeId>, names: seq<GridId>, i: nat)
    requires DealtUpTo(seats, done, names, i) == true
    ensures (forall n <- seats :: seats[n] in names)
    ensures forall j {:trigger names[j]} | 0 <= j < |names| :: |Assigned(seats, done, names[j])| == Share(i, |names|, j)
  {
  }

  /** Deal the region's nodes round-robin into its grids. */
  method Deal(nodes: set<NodeId>, names: seq<GridId>, rank: NodeId -> nat) returns (seats: map<NodeId, GridId>)
    requires names != [] && S.Distinct(names)
    ensures seats.Keys == nodes && forall n <- nodes :: seats[n] in names
    ensures forall j {:trigger names[j]} | 0 <= j < |names| ::
            |Assigned(seats, nodes, names[j])| == Share(|nodes|, |names|, j)
  {
    hide *;
    var order := ByRank(nodes, rank);
    S.DistinctSize(order);
    seats := map[];
    DealtNobody(names);
    NothingYet(order);
    for i := 0 to |order|
      invariant seats.Keys == S.SetOf(order[..i])
      invariant DealtUpTo(seats, S.SetOf(order[..i]), names, i) == true
    {
      NextDealt(order, i);
      DealtNext(seats, S.SetOf(order[..i]), names, i, order[i]);
      seats := seats[order[i] := names[i % |names|]];
    }
    assert order[..|order|] == order;
    DealtAll(seats, nodes, names, |nodes|);
  }

  // ---- the whole network ----

  ghost function Living(regions: map<NodeId, Region>, region: Region): set<NodeId> {
    set n | n in regions && regions[n] == region
  }

  /** The region's nodes sit in its own grids, dealt fairly. */
  ghost predicate Dealt(regions: map<NodeId, Region>, assignment: map<NodeId, GridId>, region: Region, gridSize: nat,
                        name: Naming)
    requires gridSize > 0
  {
    var k := GridsFor(|Living(regions, region)|, gridSize);
    && (forall n <- Living(regions, region) :: n in assignment && exists j ::
        0 <= j < k && assignment[n] == name(region, j))
    && forall j {:trigger name(region, j)} | 0 <= j < k ::
         |Assigned(assignment, Living(regions, region), name(region, j))| == Share(|Living(regions, region)|, k, j)
  }

  datatype Place = Place(region: Region, id: GridId)

  ghost predicate SeatedIn(regions: map<NodeId, Region>, assignment: map<NodeId, GridId>, done: set<Region>) {
    forall n {:trigger n in assignment} :: n in assignment <==> n in regions && regions[n] in done
  }

  ghost predicate PlacesIn(regions: map<NodeId, Region>, places: set<Place>, done: set<Region>, gridSize: nat,
                           name: Naming)
    requires gridSize > 0
  {
    forall p {:trigger p in places} :: p in places <==> p.region in done && IsPlace(regions, p, gridSize, name)
  }

  /** The state of the seating once the regions in `done` are seated. */
  ghost predicate SeatedFor(regions: map<NodeId, Region>, assignment: map<NodeId, GridId>, places: set<Place>,
                            done: set<Region>, gridSize: nat, name: Naming)
    requires gridSize > 0
  {
    && SeatedIn(regions, assignment, done) && PlacesIn(regions, places, done, gridSize, name)
    && forall r {:trigger Dealt(regions, assignment, r, gridSize, name)} :: r in done ==>
       Dealt(regions, assignment, r, gridSize, name)
  }

  ghost predicate IsPlace(regions: map<NodeId, Region>, p: Place, gridSize: nat, name: Naming)
    requires gridSize > 0
  {
    exists j: nat :: j < GridsFor(|Living(regions, p.region)|, gridSize) && p.id == name(p.region, j)
  }

  function PlacesOf(r: Region, names: seq<GridId>): set<Place> {
    set g | g in names :: Place(r, g)
  }

  lemma PlacesHere(regions: map<NodeId, Region>, r: Region, gridSize: nat, name: Naming)
    requires gridSize > 0
    ensures forall p {:trigger p in PlacesOf(r, Names(name, r, GridsFor(|Living(regions, r)|, gridSize)))} ::
              p in PlacesOf(r, Names(name, r, GridsFor(|Living(regions, r)|, gridSize)))
              <==> p.region == r && IsPlace(regions, p, gridSize, name)
  {
    hide GridsFor;
    var k := GridsFor(|Living(regions, r)|, gridSize);
    forall p ensures p in PlacesOf(r, Names(name, r, k)) <==> p.region == r && IsPlace(regions, p, gridSize, name) {
      if p.region == r && IsPlace(regions, p, gridSize, name) {
        var j: nat :| j < k && p.id == name(p.region, j);
        assert Names(name, r, k)[j] == p.id;
      }
    }
  }

  lemma NotLivingThere(regions: map<NodeId, Region>, q: Region, r: Region)
    requires q != r
    ensures Living(regions, q) !! Living(regions, r)
  {
  }

  lemma MoreSeated(regions: map<NodeId, Region>, was: map<NodeId, GridId>, seats: map<NodeId, GridId>,
                   done: set<Region>, r: Region)
    requires SeatedIn(regions, was, done) && seats.Keys == Living(regions, r)
    ensures SeatedIn(regions, was + seats, done + {r})
  {
    forall n ensures n in was + seats <==> n in regions && regions[n] in done + {r} {
      assert n in seats <==> n in Living(regions, r);
    }
  }

  lemma MorePlaces(regions: map<NodeId, Region>, places: set<Place>, done: set<Region>, gridSize: nat, name: Naming,
                   r: Region)
    requires gridSize > 0 && PlacesIn(regions, places, done, gridSize, name)
    ensures PlacesIn(regions, places + PlacesOf(r, Names(name, r, GridsFor(|Living(regions, r)|, gridSize))),
                     done + {r}, gridSize, name)
  {
    hide IsPlace, PlacesOf, Names, GridsFor;
    PlacesHere(regions, r, gridSize, name);
    var here := PlacesOf(r, Names(name, r, GridsFor(|Living(regions, r)|, gridSize)));
    forall p ensures p in places + here <==> p.region in done + {r} && IsPlace(regions, p, gridSize, name) {
      assert p in here <==> p.region == r && IsPlace(regions, p, gridSize, name);
    }
  }

  lemma SeatRegion(regions: map<NodeId, Region>, was: map<NodeId, GridId>, places: set<Place>, done: set<Region>,
                   gridSize: nat, name: Naming, seats: map<NodeId, GridId>, names: seq<GridId>, r: Region)
    requires gridSize > 0 && SeatedFor(regions, was, places, done, gridSize, name) && r !in done
    requires seats.Keys == Living(regions, r) && names == Names(name, r, GridsFor(|seats.Keys|, gridSize))
             && forall n <- seats :: seats[n] in names
    requires forall j {:trigger names[j]} | 0 <= j < |names| ::
             |Assigned(seats, seats.Keys, names[j])| == Share(|seats.Keys|, |names|, j)
    ensures SeatedFor(regions, was + seats, places + PlacesOf(r, names), done + {r}, gridSize, name)
  {
    hide Dealt, GridsFor, Share, IsPlace, PlacesOf, Names, SeatedIn, PlacesIn;
    MoreSeated(regions, was, seats, done, r);
    MorePlaces(regions, places, done, gridSize, name, r);
    SeatedHere(regions, was, seats, r, gridSize, name, names);
    forall q <- done ensures Dealt(regions, was + seats, q, gridSize, name) {
      NotLivingThere(regions, q, r);
      SeatedBefore(regions, was, seats, q, gridSize, name);
    }
  }

  /** Seat the regions in turn, and list every grid. */
  method SeatAll(regions: map<NodeId, Region>, gridSize: nat, rank: NodeId -> nat, name: Naming)
    returns (assignment: map<NodeId, GridId>, places: set<Place>)
    requires gridSize > 0 && Injective(name)
    ensures SeatedFor(regions, assignment, places, regions.Values, gridSize, name)
  {
    hide *;
    assignment, places := map[], {};
    var todo := S.Sorted(regions.Values);
    ghost var done: set<Region> := {};
    NobodySeated(regions, gridSize, name);
    for i := 0 to |todo|
      invariant done == S.SetOf(todo[..i]) && SeatedFor(regions, assignment, places, done, gridSize, name)
    {
      var r := todo[i];
      NextInOrder(todo, i);
      var nodes := set n | n in regions && regions[n] == r;
      LivingIs(regions, r);
      var names := Names(name, r, GridsFor(|nodes|, gridSize));
      NamesDistinct(name, r, GridsFor(|nodes|, gridSize));
      var seats := Deal(nodes, names, rank);
      SeatRegion(regions, assignment, places, done, gridSize, name, seats, names, r);
      assignment := assignment + seats;
      places := places + PlacesOf(r, names);
      done := done + {r};
    }
    assert todo[..|todo|] == todo;
  }

  lemma NobodySeated(regions: map<NodeId, Region>, gridSize: nat, name: Naming)
    requires gridSize > 0
    ensures SeatedFor(regions, map[], {}, {}, gridSize, name) && S.SetOf<NodeId>([]) == {}
  {
  }

  lemma LivingIs(regions: map<NodeId, Region>, r: Region)
    ensures Living(regions, r) == set n | n in regions && regions[n] == r
  {
  }

  lemma SeatedHere(regions: map<NodeId, Region>, was: map<NodeId, GridId>, seats: map<NodeId, GridId>, r: Region,
                   gridSize: nat, name: Naming, names: seq<GridId>)
    requires gridSize > 0 && seats.Keys == Living(regions, r)
             && names == Names(name, r, GridsFor(|seats.Keys|, gridSize))
    requires (forall n <- seats :: seats[n] in names)
             && forall j | 0 <= j < |names| ::
               |Assigned(seats, seats.Keys, names[j])| ==
               Share(|seats.Keys|, |names|, j)
    ensures Dealt(regions, was + seats, r, gridSize, name)
  {
    hide Names, GridsFor, Share, Living;
    forall j | 0 <= j < |names|
      ensures Assigned(was + seats, seats.Keys, name(r, j)) == Assigned(seats, seats.Keys, names[j]) {
    }
  }

  lemma SeatedBefore(regions: map<NodeId, Region>, was: map<NodeId, GridId>, seats: map<NodeId, GridId>, q: Region,
                     gridSize: nat, name: Naming)
    requires gridSize > 0 && Dealt(regions, was, q, gridSize, name) && seats.Keys !! Living(regions, q)
    ensures Dealt(regions, was + seats, q, gridSize, name)
  {
    forall g ensures Assigned(was + seats, Living(regions, q), g) == Assigned(was, Living(regions, q), g) {
    }
  }

  /** `specs.sort()`. */
  method SortPlaces(places: set<Place>) returns (order: seq<Place>)
    ensures S.SetOf(order) == places
    ensures forall i, j | 0 <= i < j < |order| :: Sooner(order[i], order[j])
  {
    var left := places;
    order := [];
    while left != {}
      invariant left <= places
      invariant forall p :: p in order <==> p in places && p !in left
      invariant forall i, j | 0 <= i < j < |order| :: Sooner(order[i], order[j])
      invariant forall p, q {:trigger p in order, q in left} :: p in order && q in left ==> Sooner(p, q)
      decreases left
    {
      var first := FirstPlace(left);
      assert forall i | 0 <= i < |order| :: order[i] in order;
      order := order + [first];
      left := left - {first};
    }
  }

  predicate Sooner(a: Place, b: Place) {
    a.region < b.region || (a.region == b.region && a.id < b.id)
  }

  method FirstPlace(some: set<Place>) returns (first: Place)
    requires some != {}
    ensures first in some && forall p <- some :: p != first ==> Sooner(first, p)
  {
    var rest := some;
    first :| first in some;
    while rest != {}
      invariant first in some && rest <= some
      invariant forall p :: p in some && p !in rest && p != first ==> Sooner(first, p)
      decreases rest
    {
      var p :| p in rest;
      first := if Sooner(p, first) then p else first;
      rest := rest - {p};
    }
  }

  /** Number the grids in order. */
  function Specs(order: seq<Place>): (specs: seq<GridSpec>)
    ensures |specs| == |order| && forall i | 0 <= i < |order| :: specs[i] == GridSpec(order[i].id, order[i].region, i)
  {
    seq(|order|, i requires 0 <= i < |order| => GridSpec(order[i].id, order[i].region, i))
  }

  /** Every grid's members all live in its region, none is empty, none is over size, and siblings differ by one at
      most. */
  ghost predicate Balanced(l: Layout, regions: map<NodeId, Region>, gridSize: nat) {
    && l.assignment.Keys == regions.Keys
    && (forall g {:trigger l.grids[g]} :: g in l.grids ==>
        g in l.members && 0 < |l.members[g]| <= gridSize && forall n <- l.members[g] ::
          n in regions && regions[n] == l.grids[g].region)
    && forall g, h {:trigger l.grids[g], l.grids[h]} ::
         g in l.grids && h in l.grids && l.grids[g].region == l.grids[h].region ==>
           |l.members[g]| <= |l.members[h]| + 1
  }

  /** The genesis topology is sound, its names are its own regions', and it is balanced. */
  method Build(regions: map<NodeId, Region>, gridSize: nat, rank: NodeId -> nat, name: Naming) returns (t: Topology)
    requires gridSize > 0 && Injective(name)
    ensures fresh(t) && t.Valid() && t.View().Named(name)
    ensures Balanced(t.View(), regions, gridSize)
  {
    var assignment, places := SeatAll(regions, gridSize, rank, name);
    var order := SortPlaces(places);
    var specs := Specs(order);
    IdsAreDistinct(regions, order, gridSize, name);
    forall n <- assignment ensures exists i :: 0 <= i < |specs| && specs[i].gridId == assignment[n] {
      HasPlace(regions, assignment, places, order, n, gridSize, name);
    }
    t := new Topology(specs, assignment);
    BuiltSound(t.View(), order);
    BuiltBalanced(t.View(), regions, order, gridSize, name);
  }

  lemma IdsAreDistinct(regions: map<NodeId, Region>, order: seq<Place>, gridSize: nat, name: Naming)
    requires gridSize > 0 && Injective(name) && PlacesIn(regions, S.SetOf(order), regions.Values, gridSize, name)
    requires forall i, j | 0 <= i < j < |order| :: Sooner(order[i], order[j])
    ensures forall i, j | 0 <= i < j < |order| :: order[i].id != order[j].id
  {
    forall i, j | 0 <= i < j < |order| ensures order[i].id != order[j].id {
      assert order[i] in S.SetOf(order) && order[j] in S.SetOf(order) && Sooner(order[i], order[j]);
      var a: nat :| order[i].id == name(order[i].region, a);
      var b: nat :| order[j].id == name(order[j].region, b);
    }
  }

  lemma HasPlace(regions: map<NodeId, Region>, assignment: map<NodeId, GridId>, places: set<Place>, order: seq<Place>,
                 n: NodeId, gridSize: nat, name: Naming)
    requires gridSize > 0 && n in regions && Dealt(regions, assignment, regions[n], gridSize, name) && n in assignment
    requires PlacesIn(regions, places, regions.Values, gridSize, name) && S.SetOf(order) == places
    ensures exists i :: 0 <= i < |Specs(order)| && Specs(order)[i].gridId == assignment[n]
  {
    var r := regions[n];
    assert n in Living(regions, r);
    var p := Place(r, assignment[n]);
    assert p in places;
    assert p in S.SetOf(order);
    var i :| 0 <= i < |order| && order[i] == p;
    assert Specs(order)[i].gridId == assignment[n];
  }

  ghost predicate LaidOut(l: Layout, order: seq<Place>) {
    && l.grids.Keys == (set i | 0 <= i < |Specs(order)| :: Specs(order)[i].gridId) == l.members.Keys
    && (forall i | 0 <= i < |Specs(order)| :: l.grids[Specs(order)[i].gridId] == Specs(order)[i])
    && forall g {:trigger l.members[g]} :: g in l.members ==>
       l.members[g] == Ordered(Assigned(l.assignment, l.assignment.Keys, g))
  }

  lemma BuiltSound(l: Layout, order: seq<Place>)
    requires LaidOut(l, order) && forall i, j | 0 <= i < j < |order| :: order[i].id != order[j].id
    requires forall n <- l.assignment :: exists i ::
               0 <= i < |Specs(order)| && Specs(order)[i].gridId == l.assignment[n]
    ensures l.Sound()
  {
    BuiltNumbered(l, order);
    hide Layout.Numbered, S.StrictlySorted, S.Distinct, Ordered;
    forall g <- l.members ensures l.Listed(g) {
      OrderedHolds(Assigned(l.assignment, l.assignment.Keys, g));
    }
    forall n <- l.assignment ensures l.AtHome(n) {
      OrderedHolds(Assigned(l.assignment, l.assignment.Keys, l.assignment[n]));
    }
  }

  lemma BuiltNumbered(l: Layout, order: seq<Place>)
    requires LaidOut(l, order) && forall i, j | 0 <= i < j < |order| :: order[i].id != order[j].id
    ensures l.Numbered()
  {
    hide Ordered;
    HowMany(Specs(order), |Specs(order)|);
    forall g <- l.grids ensures l.Placed(g, |l.grids|) {
      var i :| 0 <= i < |Specs(order)| && Specs(order)[i].gridId == g;
    }
    forall g, h | g in l.grids && h in l.grids ensures l.Apart(g, h) {
      var i :| 0 <= i < |Specs(order)| && Specs(order)[i].gridId == g;
      var j :| 0 <= j < |Specs(order)| && Specs(order)[j].gridId == h;
    }
  }

  lemma {:induction false} HowMany(specs: seq<GridSpec>, n: nat)
    requires n <= |specs| && forall i, j | 0 <= i < j < |specs| :: specs[i].gridId != specs[j].gridId
    ensures |set i | 0 <= i < n :: specs[i].gridId| == n
  {
    if n > 0 {
      HowMany(specs, n - 1);
      var fewer, all := set i | 0 <= i < n - 1 :: specs[i].gridId, set i | 0 <= i < n :: specs[i].gridId;
      assert specs[n - 1].gridId !in fewer;
      forall g ensures g in all <==> g in fewer || g == specs[n - 1].gridId {
        if g in all {
          var i :| 0 <= i < n && specs[i].gridId == g;
          assert i < n - 1 ==> g in fewer;
        }
      }
      assert all == fewer + {specs[n - 1].gridId};
    }
  }

  lemma BuiltBalanced(l: Layout, regions: map<NodeId, Region>, order: seq<Place>, gridSize: nat, name: Naming)
    requires gridSize > 0 && Injective(name) && LaidOut(l, order)
             && PlacesIn(regions, S.SetOf(order), regions.Values, gridSize, name)
    requires l.assignment.Keys == regions.Keys
             && forall r <- regions.Values :: Dealt(regions, l.assignment, r, gridSize, name)
    ensures Balanced(l, regions, gridSize) && l.Named(name)
  {
    forall g <- l.grids ensures PlaceOf(l, regions, g, gridSize, name) {
      GridIsFair(l, regions, order, g, gridSize, name);
    }
    forall g, h | g in l.grids && h in l.grids && l.grids[g].region == l.grids[h].region
      ensures |l.members[g]| <= |l.members[h]| + 1 {
      var i :| IsNumber(l, regions, g, i, gridSize, name);
      var j :| IsNumber(l, regions, h, j, gridSize, name);
      SharesAreFair(|Living(regions, l.grids[g].region)|, gridSize, i, j);
    }
    forall g <- l.grids
      ensures 0 < |l.members[g]| <= gridSize && (forall n <- l.members[g] ::
                                                 n in regions && regions[n] == l.grids[g].region)
      ensures exists i: nat :: g == name(l.grids[g].region, i)
    {
      var i :| IsNumber(l, regions, g, i, gridSize, name);
      SharesAreFair(|Living(regions, l.grids[g].region)|, gridSize, i, i);
    }
  }

  /** `g` is grid number `i` of its region and holds that grid's share. */
  ghost predicate IsNumber(l: Layout, regions: map<NodeId, Region>, g: GridId, i: nat, gridSize: nat, name: Naming)
    requires gridSize > 0
  {
    && g in l.grids && g in l.members && g == name(l.grids[g].region, i) && l.grids[g].region in regions.Values
    && i < GridsFor(|Living(regions, l.grids[g].region)|, gridSize) && |Living(regions, l.grids[g].region)| > 0
    && |l.members[g]| == Share(|Living(regions, l.grids[g].region)|,
                               GridsFor(|Living(regions, l.grids[g].region)|, gridSize), i)
    && forall n <- l.members[g] :: n in regions && regions[n] == l.grids[g].region
  }

  ghost predicate PlaceOf(l: Layout, regions: map<NodeId, Region>, g: GridId, gridSize: nat, name: Naming)
    requires gridSize > 0
  {
    exists i: nat :: IsNumber(l, regions, g, i, gridSize, name)
  }

  /** Whoever sits in grid number `j` of region `r` lives there. */
  lemma SitsAtHome(regions: map<NodeId, Region>, assignment: map<NodeId, GridId>, n: NodeId, r: Region, j: nat,
                   gridSize: nat, name: Naming)
    requires gridSize > 0 && Injective(name) && n in regions && n in assignment && assignment[n] == name(r, j)
    requires Dealt(regions, assignment, regions[n], gridSize, name)
    ensures regions[n] == r
  {
    assert n in Living(regions, regions[n]);
    var m :| 0 <= m && assignment[n] == name(regions[n], m);
    assert name(regions[n], m) == name(r, j);
  }

  lemma GridIsFair(l: Layout, regions: map<NodeId, Region>, order: seq<Place>, g: GridId, gridSize: nat, name: Naming)
    requires gridSize > 0 && Injective(name) && LaidOut(l, order)
             && PlacesIn(regions, S.SetOf(order), regions.Values, gridSize, name) && g in l.grids
    requires l.assignment.Keys == regions.Keys
             && forall r <- regions.Values :: Dealt(regions, l.assignment, r, gridSize, name)
    ensures PlaceOf(l, regions, g, gridSize, name)
  {
    hide Share, GridsFor, Injective, Dealt, S.StrictlySorted, S.Distinct, Ordered;
    var i :| 0 <= i < |Specs(order)| && Specs(order)[i].gridId == g;
    assert order[i] in S.SetOf(order);
    var r := order[i].region;
    var j: nat :| j < GridsFor(|Living(regions, r)|, gridSize) && g == name(r, j);
    var mine := Assigned(l.assignment, l.assignment.Keys, g);
    forall n <- mine ensures n in Living(regions, r) {
      SitsAtHome(regions, l.assignment, n, r, j, gridSize, name);
    }
    assert mine == Assigned(l.assignment, Living(regions, r), name(r, j));
    assert l.members[g] == Ordered(mine);
    OrderedHolds(mine);
    S.DistinctSize(Ordered(mine));
    assert S.SetOf(l.members[g]) == mine;
    DealtSize(regions, l.assignment, r, gridSize, name, j);
    assert IsNumber(l, regions, g, j, gridSize, name);
  }

  lemma DealtSize(regions: map<NodeId, Region>, assignment: map<NodeId, GridId>, r: Region, gridSize: nat,
                  name: Naming, j: nat)
    requires gridSize > 0 && r in regions.Values && Dealt(regions, assignment, r, gridSize, name)
             && j < GridsFor(|Living(regions, r)|, gridSize)
    ensures |Living(regions, r)| > 0
    ensures |Assigned(assignment, Living(regions, r), name(r, j))| ==
            Share(|Living(regions, r)|, GridsFor(|Living(regions, r)|, gridSize), j)
  {
    var n :| n in regions && regions[n] == r;
    assert n in Living(regions, r);
  }
}
