/**
 Grids, who belongs to each, and the partition of nullifiers over them (chain/locality.py).

 Node ids, grid ids and regions stand for their ranks in the string order. The id of grid number i of a region
 is `name(region, i)`, an injective function: the source writes it `region-i`.
 */
module Locality {
  import opened Basics
  import S = Seats
  import D = Distances

  type NodeId = nat
  type GridId = nat
  type Region = nat
  type Naming = (Region, nat) -> GridId

  datatype GridSpec = GridSpec(gridId: GridId, region: Region, index: nat)
  datatype TopologyError = NoSuchGrid | NoGridServes | NoRoom | Exists | NotInDonor | SameGrid | LastGrid | OtherRegion

  ghost predicate Injective(name: Naming) {
    forall r, i, s, j {:trigger name(r, i), name(s, j)} :: name(r, i) == name(s, j) ==> r == s && i == j
  }

  ghost predicate IsLeast(s: set<nat>, x: nat) {
    x in s && forall y <- s :: x <= y
  }

  lemma {:induction false} HasLeast(s: set<nat>)
    requires s != {}
    ensures exists least :: IsLeast(s, least)
  {
    var x :| x in s;
    if s == {x} {
      assert IsLeast(s, x);
    } else {
      HasLeast(s - {x});
      var y :| IsLeast(s - {x}, y);
      forall z <- s ensures x <= z || y <= z {
        assert z == x || z in s - {x};
      }
      assert IsLeast(s, if x <= y then x else y);
    }
  }

  /** `sorted(s)`. */
  ghost function Ordered(s: set<nat>): (order: seq<nat>)
    ensures S.StrictlySorted(order) && S.SetOf(order) == s
  {
    if s == {} then []
    else
      HasLeast(s);
      var least :| IsLeast(s, least);
      OrderedStep(s, least, Ordered(s - {least}));
      [least] + Ordered(s - {least})
  }

  lemma OrderedStep(s: set<nat>, least: nat, rest: seq<nat>)
    requires IsLeast(s, least) && S.StrictlySorted(rest) && S.SetOf(rest) == s - {least}
    ensures S.StrictlySorted([least] + rest) && S.SetOf([least] + rest) == s
  {
    forall i | 0 <= i < |rest| ensures least < rest[i] {
      assert rest[i] in S.SetOf(rest);
    }
    forall x ensures x in S.SetOf([least] + rest) <==> x in s {
      assert x in rest <==> x in S.SetOf(rest);
    }
  }

  lemma OrderedIs(s: set<nat>, order: seq<nat>)
    requires S.StrictlySorted(order) && S.SetOf(order) == s
    ensures order == Ordered(s)
  {
    S.SortedListIsUnique(order, Ordered(s));
  }

  lemma OrderedGrows(s: set<nat>, last: nat)
    requires forall x <- s :: x < last
    ensures Ordered(s + {last}) == Ordered(s) + [last]
  {
    var order := Ordered(s) + [last];
    forall i, j | 0 <= i < j < |order| ensures order[i] < order[j] {
      assert order[i] in S.SetOf(Ordered(s));
    }
    OrderedIs(s + {last}, order);
  }

  lemma NextInOrder(order: seq<nat>, i: nat)
    requires S.StrictlySorted(order) && i < |order|
    ensures order[i] in S.SetOf(order) && order[i] !in S.SetOf(order[..i])
            && S.SetOf(order[..i + 1]) == S.SetOf(order[..i]) + {order[i]}
  {
    assert order[..i + 1] == order[..i] + [order[i]];
  }

  lemma NothingYet(order: seq<nat>)
    ensures S.SetOf(order[..0]) == {} && order[..|order|] == order
  {
  }

  function Without(list: seq<NodeId>, gone: set<NodeId>): (r: seq<NodeId>)
    ensures forall n :: n in r <==> n in list && n !in gone
  {
    if list == [] then [] else if list[0] in gone then Without(list[1..], gone)
       else [list[0]] + Without(list[1..], gone)
  }

  lemma {:induction false} RemovedOne(list: seq<NodeId>, gone: set<NodeId>, n: NodeId)
    requires S.Distinct(list) && n !in gone
    ensures S.Removed(Without(list, gone), n) == Without(list, gone + {n})
  {
    if list != [] {
      RemovedOne(list[1..], gone, n);
      if list[0] == n {
        WithoutAbsent(list[1..], gone, n);
      }
    }
  }

  lemma {:induction false} WithoutAbsent(list: seq<NodeId>, gone: set<NodeId>, n: NodeId)
    requires n !in list
    ensures Without(list, gone + {n}) == Without(list, gone)
  {
    if list != [] {
      WithoutAbsent(list[1..], gone, n);
    }
  }

  lemma {:induction false} WithoutNone(list: seq<NodeId>)
    ensures Without(list, {}) == list
  {
    if list != [] {
      WithoutNone(list[1..]);
    }
  }

  lemma {:induction false} WithoutDistinct(list: seq<NodeId>, gone: set<NodeId>)
    requires S.Distinct(list)
    ensures S.Distinct(Without(list, gone))
  {
    if list != [] {
      WithoutDistinct(list[1..], gone);
    }
  }

  ghost function MovedTo(assignment: map<NodeId, GridId>, movers: set<NodeId>, g: GridId): (r: map<NodeId, GridId>)
    ensures r.Keys == assignment.Keys
    ensures forall n {:trigger r[n]} :: n in assignment ==> r[n] == if n in movers then g else assignment[n]
  {
    map n | n in assignment :: if n in movers then g else assignment[n]
  }

  ghost function Redirected(assignment: map<NodeId, GridId>, gone: GridId, into: GridId): (r: map<NodeId, GridId>)
    ensures r.Keys == assignment.Keys
    ensures forall n {:trigger r[n]} :: n in assignment ==>
            r[n] == if assignment[n] == gone then into else assignment[n]
  {
    map n | n in assignment :: if assignment[n] == gone then into else assignment[n]
  }

  /** `index` with the numbers above `gap` come down by one. */
  function Lowered(spec: GridSpec, gap: nat): GridSpec {
    spec.(index := if spec.index > gap then spec.index - 1 else spec.index)
  }

  ghost function Renumbered(grids: map<GridId, GridSpec>, gone: GridId): (r: map<GridId, GridSpec>)
    requires gone in grids
    ensures r.Keys == grids.Keys - {gone}
    ensures forall g {:trigger r[g]} :: g in r ==> r[g] == Lowered(grids[g], grids[gone].index)
  {
    map g | g in grids && g != gone :: Lowered(grids[g], grids[gone].index)
  }

  /** What a topology holds: the grids, each node's grid, and each grid's nodes in order. */
  datatype Layout = Layout(grids: map<GridId, GridSpec>, assignment: map<NodeId, GridId>,
                           members: map<GridId, seq<NodeId>>) {
    ghost predicate AtHome(n: NodeId)
      requires n in assignment
    {
      assignment[n] in members && n in members[assignment[n]]
    }

    ghost predicate Listed(g: GridId)
      requires g in members
    {
      S.Distinct(members[g]) && forall n {:trigger n in members[g]} :: n in members[g] ==>
        n in assignment && assignment[n] == g
    }

    /** The two tables of membership are inverse. */
    ghost predicate Housed() {
      && grids.Keys == members.Keys
      && (forall n {:trigger AtHome(n)} :: n in assignment ==> AtHome(n))
      && (forall g {:trigger Listed(g)} :: g in members ==> Listed(g))
    }

    ghost predicate Placed(g: GridId, k: nat)
      requires g in grids
    {
      grids[g].gridId == g && grids[g].index < k
    }

    ghost predicate Apart(g: GridId, h: GridId)
      requires g in grids && h in grids
    {
      grids[g].index == grids[h].index ==> g == h
    }

    /** The grids are numbered 0, 1, ..., one number each. */
    ghost predicate Numbered() {
      && (forall g {:trigger Placed(g, |grids|)} :: g in grids ==> Placed(g, |grids|))
      && (forall g, h {:trigger Apart(g, h)} :: g in grids && h in grids ==> Apart(g, h))
    }

    ghost predicate Sound() {
      Housed() && Numbered()
    }

    /** Every grid's id comes from its own region's series. */
    ghost predicate Named(name: Naming) {
      forall g <- grids :: exists i: nat :: g == name(grids[g].region, i)
    }

    ghost function Serving(region: Region): set<GridId> {
      set g | g in grids && grids[g].region == region
    }

    /** `needs_split`. */
    predicate NeedsSplit(g: GridId, gridSize: nat)
      requires g in members
    {
      |members[g]| > 2 * gridSize
    }

    /** A newcomer joins `g`. */
    function Joined(n: NodeId, g: GridId): Layout
      requires g in members
    {
      Layout(grids, assignment[n := g], members[g := members[g] + [n]])
    }

    /** A cohort of `donor` moves into the new grid `child`. */
    ghost function Founded(donor: GridId, child: GridId, movers: set<NodeId>): Layout
      requires donor in grids && donor in members
    {
      Layout(grids[child := GridSpec(child, grids[donor].region, |grids|)],
             MovedTo(assignment, movers, child),
             members[donor := Without(members[donor], movers)][child := Ordered(movers)])
    }

    /** Everyone in `gone` moves into `into`, and the numbers above the one that went come down by one. */
    ghost function Merged(gone: GridId, into: GridId): Layout
      requires gone in grids && gone in members && into in members
    {
      Layout(Renumbered(grids, gone), Redirected(assignment, gone, into),
             (members - {gone})[into := Ordered(S.SetOf(members[into]) + S.SetOf(members[gone]))])
    }
  }

  // ---- every partition has one owner ----

  ghost function Range(k: nat): (r: set<nat>)
    ensures |r| == k && forall i: nat :: i in r <==> i < k
  {
    if k == 0 then {} else Range(k - 1) + {k - 1}
  }

  ghost function IndicesOf(l: Layout, some: set<GridId>): set<nat> {
    set g | g in some && g in l.grids :: l.grids[g].index
  }

  lemma {:induction false} IndexCount(l: Layout, some: set<GridId>)
    requires l.Numbered() && some <= l.grids.Keys
    ensures |IndicesOf(l, some)| == |some|
  {
    if some == {} {
      assert IndicesOf(l, some) == {};
    } else {
      var g :| g in some;
      IndexCount(l, some - {g});
      forall h <- some - {g} ensures l.grids[h].index != l.grids[g].index {
        assert l.Apart(g, h);
      }
      assert IndicesOf(l, some) == IndicesOf(l, some - {g}) + {l.grids[g].index};
    }
  }

  lemma IndicesAreAll(l: Layout)
    requires l.Numbered()
    ensures IndicesOf(l, l.grids.Keys) == Range(|l.grids|)
  {
    IndexCount(l, l.grids.Keys);
    forall i <- IndicesOf(l, l.grids.Keys) ensures i in Range(|l.grids|) {
      var g :| g in l.grids && l.grids[g].index == i;
      assert l.Placed(g, |l.grids|);
    }
    D.SameSize(IndicesOf(l, l.grids.Keys), Range(|l.grids|));
  }

  /** Each partition number below K belongs to exactly one grid. */
  lemma OneOwner(l: Layout, partition: nat)
    requires l.Numbered() && partition < |l.grids|
    ensures exists g :: g in l.grids && l.grids[g].index == partition
    ensures forall g, h ::
              g in l.grids && h in l.grids && l.grids[g].index == partition == l.grids[h].index ==> g == h
  {
    IndicesAreAll(l);
    assert partition in IndicesOf(l, l.grids.Keys);
    forall g, h | g in l.grids && h in l.grids && l.grids[g].index == partition && l.grids[h].index == partition
      ensures g == h {
      assert l.Apart(g, h);
    }
  }

  // ---- the steps keep a topology sound ----

  /** A newcomer keeps the tables inverse exactly when it had no grid yet. */
  lemma JoinedSound(l: Layout, n: NodeId, g: GridId)
    requires l.Sound() && g in l.members
    ensures l.Joined(n, g).Sound() <==> n !in l.assignment
  {
    var m := l.Joined(n, g);
    assert l.Listed(g);
    if n in l.assignment {
      assert l.AtHome(n);
      var h := l.assignment[n];
      if h == g {
        var i :| 0 <= i < |l.members[g]| && l.members[g][i] == n;
        assert m.members[g][i] == m.members[g][|l.members[g]|];
        assert !m.Listed(g);
      } else {
        assert n in m.members[h];
        assert !m.Listed(h);
      }
    } else {
      forall x <- m.assignment ensures m.AtHome(x) {
        assert x == n || l.AtHome(x);
      }
      forall h <- m.members ensures m.Listed(h) {
        assert l.Listed(h);
        assert h == g ==> n !in l.members[g];
      }
      SameNumbers(l, m);
    }
  }

  lemma SameNumbers(l: Layout, m: Layout)
    requires l.Numbered() && m.grids == l.grids
    ensures m.Numbered()
  {
    forall g <- m.grids ensures m.Placed(g, |m.grids|) {
      assert l.Placed(g, |l.grids|);
    }
    forall g, h | g in m.grids && h in m.grids ensures m.Apart(g, h) {
      assert l.Apart(g, h);
    }
  }

  lemma OrderedHolds(s: set<nat>)
    ensures forall x :: x in Ordered(s) <==> x in s
    ensures S.Distinct(Ordered(s))
  {
    assert forall x :: x in Ordered(s) <==> x in S.SetOf(Ordered(s));
  }

  lemma OrderedEmpty(s: set<nat>)
    requires Ordered(s) == []
    ensures s == {}
  {
    OrderedHolds(s);
  }

  lemma FoundedSound(l: Layout, donor: GridId, child: GridId, movers: set<NodeId>)
    requires l.Sound() && donor in l.grids && child !in l.grids && forall n <- movers :: n in l.members[donor]
    ensures l.Founded(donor, child, movers).Sound()
  {
    FoundedHoused(l, donor, child, movers);
    var m := l.Founded(donor, child, movers);
    assert |m.grids| == |l.grids| + 1;
    forall g <- m.grids ensures m.Placed(g, |m.grids|) {
      assert g == child || l.Placed(g, |l.grids|);
    }
    forall g, h | g in m.grids && h in m.grids ensures m.Apart(g, h) {
      assert g == child || l.Placed(g, |l.grids|);
      assert h == child || l.Placed(h, |l.grids|);
      assert g == child || h == child || l.Apart(g, h);
    }
  }

  lemma FoundedHoused(l: Layout, donor: GridId, child: GridId, movers: set<NodeId>)
    requires l.Housed() && donor in l.grids && child !in l.grids && forall n <- movers :: n in l.members[donor]
    ensures l.Founded(donor, child, movers).Housed()
  {
    var m := l.Founded(donor, child, movers);
    assert l.Listed(donor);
    WithoutDistinct(l.members[donor], movers);
    OrderedHolds(movers);
    forall n <- m.assignment ensures m.AtHome(n) {
      assert l.AtHome(n);
    }
    forall g <- m.members ensures m.Listed(g) {
      assert g == child || l.Listed(g);
    }
  }

  lemma MergedSound(l: Layout, gone: GridId, into: GridId)
    requires l.Sound() && gone in l.grids && into in l.grids && gone != into
    ensures l.Merged(gone, into).Sound()
  {
    MergedHoused(l, gone, into);
    var m := l.Merged(gone, into);
    assert m.grids.Keys == l.grids.Keys - {gone};
    assert |m.grids| == |l.grids| - 1;
    forall g <- m.grids ensures m.Placed(g, |m.grids|) {
      assert l.Placed(g, |l.grids|) && l.Placed(gone, |l.grids|) && l.Apart(g, gone);
    }
    forall g, h | g in m.grids && h in m.grids ensures m.Apart(g, h) {
      assert l.Apart(g, gone) && l.Apart(h, gone) && l.Apart(g, h);
    }
  }

  lemma MergedHoused(l: Layout, gone: GridId, into: GridId)
    requires l.Housed() && gone in l.grids && into in l.grids && gone != into
    ensures l.Merged(gone, into).Housed()
  {
    var m := l.Merged(gone, into);
    assert l.Listed(gone) && l.Listed(into);
    OrderedHolds(S.SetOf(l.members[into]) + S.SetOf(l.members[gone]));
    forall n <- m.assignment ensures m.AtHome(n) {
      assert l.AtHome(n);
    }
    forall g <- m.members ensures m.Listed(g) {
      assert l.Listed(g);
    }
  }

  /** The cohort changes sides and nobody else moves. */
  lemma FoundedSizes(l: Layout, donor: GridId, child: GridId, movers: set<NodeId>)
    requires l.Sound() && donor in l.grids && child !in l.grids && forall n <- movers :: n in l.members[donor]
    ensures S.SetOf(l.Founded(donor, child, movers).members[child]) == movers
    ensures S.SetOf(l.Founded(donor, child, movers).members[donor]) == S.SetOf(l.members[donor]) - movers
  {
    OrderedHolds(movers);
  }

  /** A merge adds the two sizes. */
  lemma MergedSize(l: Layout, gone: GridId, into: GridId)
    requires l.Sound() && gone in l.grids && into in l.grids && gone != into
    ensures |l.Merged(gone, into).members[into]| == |l.members[into]| + |l.members[gone]|
  {
    var a, b := l.members[into], l.members[gone];
    assert l.Listed(gone) && l.Listed(into);
    S.DistinctSize(a);
    S.DistinctSize(b);
    OrderedHolds(S.SetOf(a) + S.SetOf(b));
    S.DistinctSize(Ordered(S.SetOf(a) + S.SetOf(b)));
    assert S.SetOf(a) !! S.SetOf(b);
  }

  lemma FoundedNamed(l: Layout, donor: GridId, i: nat, movers: set<NodeId>, name: Naming)
    requires l.Named(name) && donor in l.grids && donor in l.members
    ensures l.Founded(donor, name(l.grids[donor].region, i), movers).Named(name)
  {
  }

  lemma MergedNamed(l: Layout, gone: GridId, into: GridId, name: Naming)
    requires l.Named(name) && gone in l.grids && gone in l.members && into in l.members
    ensures l.Merged(gone, into).Named(name)
  {
    var m := l.Merged(gone, into);
    forall g <- m.grids ensures exists i: nat :: g == name(m.grids[g].region, i) {
      var i: nat :| g == name(l.grids[g].region, i);
    }
  }
}
