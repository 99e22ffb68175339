/**
 Deterministic seating (chain/ceremony.py, `Grid.seat`): from the ids in keyed-hash order to rows.
 */
module Seating {
  import opened Basics
  import opened Seats
  import opened CeremonyGrid

  /** `[n for n in s if n in keep]`. */
  function Keep(s: seq<NodeId>, keep: set<NodeId>): (r: seq<NodeId>)
    ensures forall n :: n in r <==> n in s && n in keep
  {
    if s == [] then [] else Keep(s[..|s| - 1], keep) + if s[|s| - 1] in keep then [s[|s| - 1]] else []
  }

  lemma {:induction false} KeepDistinct(s: seq<NodeId>, keep: set<NodeId>)
    requires Distinct(s)
    ensures Distinct(Keep(s, keep))
  {
    if s != [] {
      var front, last := s[..|s| - 1], s[|s| - 1];
      KeepDistinct(front, keep);
      assert last !in front;
    }
  }

  /** The rows one after the other. */
  function Flatten(rows: seq<seq<NodeId>>): seq<NodeId> {
    if rows == [] then [] else Flatten(rows[..|rows| - 1]) + rows[|rows| - 1]
  }

  /** The list cut into rows of `size`, of which only the last may be short. */
  ghost predicate RowsOf(rows: seq<seq<NodeId>>, rest: seq<NodeId>, size: nat) {
    && Flatten(rows) == rest
    && (forall r | 0 <= r < |rows| :: 0 < |rows[r]| <= size)
    && (forall r | 0 <= r < |rows| - 1 :: |rows[r]| == size)
  }

  /** `[rest[i:i + size] for i in range(0, len(rest), size)]`. */
  method Rows(rest: seq<NodeId>, size: nat) returns (rows: seq<seq<NodeId>>)
    requires size > 0
    ensures RowsOf(rows, rest, size)
  {
    rows := [];
    var i := 0;
    while i < |rest|
      invariant i <= |rest| ==> RowsOf(rows, rest[..i], size) && forall r | 0 <= r < |rows| :: |rows[r]| == size
      invariant i > |rest| ==> RowsOf(rows, rest, size)
    {
      var hi := if i + size <= |rest| then i + size else |rest|;
      assert (rows + [rest[i..hi]])[..|rows|] == rows;
      assert rest[..i] + rest[i..hi] == rest[..hi];
      rows := rows + [rest[i..hi]];
      i := i + size;
      assert rest[..|rest|] == rest;
    }
    assert rest[..|rest|] == rest;
  }

  /** Where row r starts in the list. */
  function Offset(rows: seq<seq<NodeId>>, r: nat): nat
    requires r <= |rows|
  {
    if r == 0 then 0 else Offset(rows, r - 1) + |rows[r - 1]|
  }

  lemma {:induction false} OffsetOfPrefix(rows: seq<seq<NodeId>>, n: nat, r: nat)
    requires r <= n <= |rows|
    ensures Offset(rows[..n], r) == Offset(rows, r)
  {
    if r > 0 {
      OffsetOfPrefix(rows, n, r - 1);
    }
  }

  lemma {:induction false} PlaceInList(rows: seq<seq<NodeId>>, r: nat, c: nat)
    requires r < |rows| && c < |rows[r]|
    ensures Offset(rows, r) + c < |Flatten(rows)| == Offset(rows, |rows|)
    ensures Flatten(rows)[Offset(rows, r) + c] == rows[r][c]
  {
    var n := |rows| - 1;
    OffsetOfPrefix(rows, n, n);
    FlattenLength(rows[..n]);
    if r < n {
      PlaceInList(rows[..n], r, c);
      OffsetOfPrefix(rows, n, r);
    }
  }

  lemma {:induction false} FlattenLength(rows: seq<seq<NodeId>>)
    ensures |Flatten(rows)| == Offset(rows, |rows|)
  {
    if rows != [] {
      var n := |rows| - 1;
      FlattenLength(rows[..n]);
      OffsetOfPrefix(rows, n, n);
    }
  }

  lemma {:induction false} OffsetsIncrease(rows: seq<seq<NodeId>>, r: nat, s: nat)
    requires r < s <= |rows|
    ensures Offset(rows, r) + |rows[r]| <= Offset(rows, s)
  {
    if r < s - 1 {
      OffsetsIncrease(rows, r, s - 1);
    }
  }

  lemma {:induction false} PlaceOf(rows: seq<seq<NodeId>>, n: NodeId) returns (r: nat, c: nat)
    requires n in Flatten(rows)
    ensures r < |rows| && c < |rows[r]| && rows[r][c] == n
  {
    var last := |rows| - 1;
    if n in rows[last] {
      r := last;
      c :| 0 <= c < |rows[r]| && rows[r][c] == n;
    } else {
      r, c := PlaceOf(rows[..last], n);
    }
  }

  /** Two places of the rows hold different ids. */
  lemma PlacesDiffer(rows: seq<seq<NodeId>>, r: nat, c: nat, r': nat, c': nat)
    requires Distinct(Flatten(rows))
    requires r < |rows| && c < |rows[r]| && r' < |rows| && c' < |rows[r']|
    requires rows[r][c] == rows[r'][c']
    ensures r == r' && c == c'
  {
    PlaceInList(rows, r, c);
    PlaceInList(rows, r', c');
    assert Offset(rows, r) + c == Offset(rows, r') + c';
    if r < r' {
      OffsetsIncrease(rows, r, r');
    } else if r' < r {
      OffsetsIncrease(rows, r', r);
    }
  }

  /** The `seats` table of the constructor, filled row by row. */
  method SeatTable(leader: NodeId, rows: seq<seq<NodeId>>) returns (seats: map<NodeId, Seat>)
    requires Distinct(Flatten(rows)) && leader !in Flatten(rows)
    ensures SeatedUpTo(seats, leader, rows, |rows|, 0)
  {
    hide Flatten;
    seats := map[leader := Seat(0, 0)];
    for r := 0 to |rows|
      invariant SeatedUpTo(seats, leader, rows, r, 0) == true
    {
      for c := 0 to |rows[r]|
        invariant SeatedUpTo(seats, leader, rows, r, c) == true
      {
        NextSeat(seats, leader, rows, r, c);
        seats := seats[rows[r][c] := Seat(r + 1, c)];
      }
      NextRow(seats, leader, rows, r);
    }
  }

  lemma NextPlaceIsNew(leader: NodeId, rows: seq<seq<NodeId>>, r: nat, c: nat)
    requires Distinct(Flatten(rows)) && leader !in Flatten(rows)
    requires r < |rows| && c < |rows[r]|
    ensures rows[r][c] != leader
    ensures forall r', c' | 0 <= r' < |rows| && 0 <= c' < |rows[r']| && rows[r'][c'] == rows[r][c] :: r' == r && c' == c
  {
    PlaceInList(rows, r, c);
    assert rows[r][c] in Flatten(rows);
    forall r', c' | 0 <= r' < |rows| && 0 <= c' < |rows[r']| && rows[r'][c'] == rows[r][c] ensures r' == r && c' == c {
      PlacesDiffer(rows, r, c, r', c');
    }
  }

  lemma NextSeat(seats: map<NodeId, Seat>, leader: NodeId, rows: seq<seq<NodeId>>, r: nat, c: nat)
    requires Distinct(Flatten(rows)) && leader !in Flatten(rows)
    requires r < |rows| && c < |rows[r]| && SeatedUpTo(seats, leader, rows, r, c)
    ensures SeatedUpTo(seats[rows[r][c] := Seat(r + 1, c)], leader, rows, r, c + 1)
  {
    NextPlaceIsNew(leader, rows, r, c);
  }

  lemma NextRow(seats: map<NodeId, Seat>, leader: NodeId, rows: seq<seq<NodeId>>, r: nat)
    requires r < |rows| && SeatedUpTo(seats, leader, rows, r, |rows[r]|)
    ensures SeatedUpTo(seats, leader, rows, r + 1, 0)
  {
  }

  method NewGrid(leader: NodeId, rows: seq<seq<NodeId>>, rowSize: nat, ghost rest: seq<NodeId>) returns (g: Grid)
    requires rowSize > 0 && RowsOf(rows, rest, rowSize) && Distinct(rest) && leader !in rest
    ensures g.WellSeated() && g.leader == leader && g.rows == rows && g.rowSize == rowSize
    ensures g.seats.Keys == SetOf(rest) + {leader}
  {
    var seats := SeatTable(leader, rows);
    TableIsComplete(seats, leader, rows);
    g := Grid(leader, rows, rowSize, seats);
  }

  lemma PlacedIsSeated(seats: map<NodeId, Seat>, leader: NodeId, rows: seq<seq<NodeId>>, n: NodeId)
    requires SeatedUpTo(seats, leader, rows, |rows|, 0) && n in Flatten(rows)
    ensures n in seats
  {
    var r, c := PlaceOf(rows, n);
  }

  lemma SeatedIsPlaced(seats: map<NodeId, Seat>, leader: NodeId, rows: seq<seq<NodeId>>, n: NodeId)
    requires SeatedUpTo(seats, leader, rows, |rows|, 0) && n in seats && n != leader
    ensures n in Flatten(rows)
  {
    var r, c := seats[n].row - 1, seats[n].col;
    assert r < |rows| && rows[r][c] == n;
    PlaceInList(rows, r, c);
  }

  lemma LeaderIsSeated(seats: map<NodeId, Seat>, leader: NodeId, rows: seq<seq<NodeId>>)
    requires SeatedUpTo(seats, leader, rows, |rows|, 0)
    ensures leader in seats
  {
  }

  lemma TableIsComplete(seats: map<NodeId, Seat>, leader: NodeId, rows: seq<seq<NodeId>>)
    requires SeatedUpTo(seats, leader, rows, |rows|, 0)
    ensures seats.Keys == SetOf(Flatten(rows)) + {leader}
  {
    hide SeatedUpTo, Flatten;
    LeaderIsSeated(seats, leader, rows);
    forall n ensures n in seats <==> n in SetOf(Flatten(rows)) + {leader} {
      if n in Flatten(rows) {
        PlacedIsSeated(seats, leader, rows, n);
      }
      if n in seats && n != leader {
        SeatedIsPlaced(seats, leader, rows, n);
      }
    }
  }

  /** Exactly the leader and the places before (r, c) are in the table. */
  ghost predicate SeatedUpTo(seats: map<NodeId, Seat>, leader: NodeId, rows: seq<seq<NodeId>>, r: nat, c: nat) {
    && leader in seats && seats[leader] == Seat(0, 0)
    && (forall r', c' | 0 <= r' < |rows| && 0 <= c' < |rows[r']| && (r' < r || (r' == r && c' < c)) ::
          rows[r'][c'] in seats && seats[rows[r'][c']] == Seat(r' + 1, c'))
    && (forall n <- seats | n != leader ::
          var s := seats[n];
          && 0 < s.row <= |rows| && s.col < |rows[s.row - 1]| && rows[s.row - 1][s.col] == n
          && (s.row - 1 < r || (s.row - 1 == r && s.col < c)))
  }

  // ---- seating ----

  /** The ids whose standing is the one that counts. */
  function CountingIds(order: seq<NodeId>, standing: map<NodeId, string>, counting: string): set<NodeId> {
    set n | n in order && n in standing && standing[n] == counting
  }

  /** Who may lead: everyone, or the counting ids, less those already tried. */
  function Pool(order: seq<NodeId>, excluded: set<NodeId>, standing: Option<map<NodeId, string>>,
                counting: string): set<NodeId> {
    (match standing case None => SetOf(order) case Some(st) => CountingIds(order, st, counting)) - excluded
  }

  /** `order` is the ids sorted by their keyed hash. None when there are fewer than two ids or nobody
      is left to lead. With standings given, no counting seat ever has a non-counting seat in front of it. */
  method SeatAll(order: seq<NodeId>, rowSize: nat, excluded: set<NodeId>, standing: Option<map<NodeId, string>>,
                 counting: string)
    returns (r: Option<Grid>)
    requires Distinct(order) && rowSize > 0
    ensures r.None? <==> |order| < 2 || Pool(order, excluded, standing, counting) == {}
    ensures r.Some? ==>
      var g := r.value;
      && g.WellSeated() && g.seats.Keys == SetOf(order) && g.rowSize == rowSize
      && g.leader == Keep(order, Pool(order, excluded, standing, counting))[0]
    ensures r.Some? && standing.Some? ==>
      var g, c := r.value, CountingIds(order, standing.value, counting);
      g.leader in c && forall n <- g.seats | n in c && n != g.leader :: g.Front(n).value in c
  {
    hide Keep, Grid.WellSeated;
    if |order| < 2 {
      return None;
    }
    var ids := SetOf(order);
    var leader, rest;
    match standing {
      case Some(st) =>
        var front := Keep(order, CountingIds(order, st, counting));
        var back := Keep(order, ids - CountingIds(order, st, counting));
        var pool := Keep(order, Pool(order, excluded, standing, counting));
        PoolEmpty(order, Pool(order, excluded, standing, counting));
        if pool == [] {
          return None;
        }
        leader := pool[0];
        assert leader in pool;
        rest := Keep(front, ids - {leader}) + back;
        RestDistinct(order, CountingIds(order, st, counting), leader);
      case None =>
        var candidates := Keep(order, Pool(order, excluded, standing, counting));
        PoolEmpty(order, Pool(order, excluded, standing, counting));
        if candidates == [] {
          return None;
        }
        leader := candidates[0];
        assert leader in candidates;
        rest := Keep(order, ids - {leader});
        KeepDistinct(order, ids - {leader});
    }
    assert SetOf(rest) + {leader} == ids;
    var rows := Rows(rest, rowSize);
    var g := NewGrid(leader, rows, rowSize, rest);
    if standing.Some? {
      ghost var c := CountingIds(order, standing.value, counting);
      ghost var front := Keep(Keep(order, c), ids - {leader});
      forall n | n in g.seats && n in c && n != g.leader ensures g.Front(n).value in c {
        CountingInFront(g, rest, front, rest[|front|..], c, n);
      }
    }
    return Some(g);
  }

  lemma PoolEmpty(order: seq<NodeId>, pool: set<NodeId>)
    requires pool <= SetOf(order)
    ensures Keep(order, pool) == [] <==> pool == {}
  {
    if Keep(order, pool) != [] {
      assert Keep(order, pool)[0] in Keep(order, pool);
    }
    if pool != {} {
      var n :| n in pool;
      assert n in Keep(order, pool);
    }
  }

  lemma RestDistinct(order: seq<NodeId>, c: set<NodeId>, leader: NodeId)
    requires Distinct(order)
    ensures Distinct(Keep(Keep(order, c), SetOf(order) - {leader}) + Keep(order, SetOf(order) - c))
  {
    KeepDistinct(order, c);
    KeepDistinct(Keep(order, c), SetOf(order) - {leader});
    KeepDistinct(order, SetOf(order) - c);
    var a, b := Keep(Keep(order, c), SetOf(order) - {leader}), Keep(order, SetOf(order) - c);
    forall i, j | 0 <= i < j < |a + b| ensures (a + b)[i] != (a + b)[j] {
      if i < |a| <= j {
        assert a[i] in a && b[j - |a|] in b;
      }
    }
  }

  lemma InOneHalf(a: seq<NodeId>, b: seq<NodeId>, i: nat)
    requires i < |a| + |b|
    ensures i < |a| ==> (a + b)[i] in a
    ensures i >= |a| ==> (a + b)[i] in b
  {
  }

  /** The seat in front sits `rowSize` places earlier, so it is among the counting ids too. */
  lemma CountingInFront(g: Grid, rest: seq<NodeId>, front: seq<NodeId>, back: seq<NodeId>, c: set<NodeId>, n: NodeId)
    requires g.WellSeated() && RowsOf(g.rows, rest, g.rowSize) && rest == front + back
    requires (forall x <- front :: x in c) && (forall x <- back :: x !in c) && g.leader in c
    requires n in g.seats && n in c && n != g.leader
    ensures g.Front(n).value in c
  {
    hide Flatten;
    var row, col := g.seats[n].row, g.seats[n].col;
    if row > 1 {
      PlaceInList(g.rows, row - 1, col);
      InOneHalf(front, back, Offset(g.rows, row - 1) + col);
      assert g.HasSeat(row - 2, col);
      PlaceInList(g.rows, row - 2, col);
      InOneHalf(front, back, Offset(g.rows, row - 2) + col);
    }
  }
}
