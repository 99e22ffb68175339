/**
 The ceremony's seating and its fixed communication graph (chain/ceremony.py, `Grid`).
 */
module CeremonyGrid {
  import opened Basics
  import opened Seats
  import opened Distances

  datatype Seat = Seat(row: nat, col: nat)
  datatype Edge = Edge(a: NodeId, b: NodeId)

  ghost predicate Joined(edges: seq<Edge>, n: NodeId, m: NodeId) {
    Edge(n, m) in edges || Edge(m, n) in edges
  }

  /** rows[0] is grid row 1; `seats` is the inverse table. */
  datatype Grid = Grid(leader: NodeId, rows: seq<seq<NodeId>>, rowSize: nat, seats: map<NodeId, Seat>) {

    predicate HasSeat(r: nat, c: nat) {
      r < |rows| && c < |rows[r]|
    }

    /** The rows as seating leaves them: full but for the last, everyone in one place. */
    ghost predicate WellSeated() {
      && rowSize > 0
      && (forall r | 0 <= r < |rows| :: 0 < |rows[r]| <= rowSize)
      && (forall r | 0 <= r < |rows| - 1 :: |rows[r]| == rowSize)
      && leader in seats && seats[leader] == Seat(0, 0)
      && (forall r: nat, c: nat | HasSeat(r, c) :: rows[r][c] in seats && seats[rows[r][c]] == Seat(r + 1, c))
      && (forall n <- seats | n != leader ::
            seats[n].row > 0 && HasSeat(seats[n].row - 1, seats[n].col) && rows[seats[n].row - 1][seats[n].col] == n)
    }

    function Front(n: NodeId): Option<NodeId>
      requires WellSeated() && n in seats
    {
      var s := seats[n];
      if s.row == 0 then None
      else if s.row == 1 then Some(leader)
      else Some(rows[s.row - 2][s.col])
    }

    function Right(n: NodeId): Option<NodeId>
      requires WellSeated() && n in seats
    {
      var s := seats[n];
      if s.row == 0 then None
      else
        var row := rows[s.row - 1];
        if |row| < 2 then None else Some(row[(s.col + 1) % |row|])
    }

    function Neighbours(n: NodeId): (r: set<NodeId>)
      requires WellSeated() && n in seats
      ensures r <= seats.Keys && n !in r
    {
      var f := if Front(n).Some? then {Front(n).value} else {};
      var t := if Right(n).Some? then {Right(n).value} else {};
      (f + t) - {n}
    }

    /** The undirected sync graph. */
    predicate Linked(a: NodeId, b: NodeId)
      requires WellSeated()
    {
      a in seats && b in seats && (b in Neighbours(a) || a in Neighbours(b))
    }

    /** `b` is in front of `a`: the leader for the first row, then the same column one row up. */
    predicate InFront(a: NodeId, b: NodeId)
      requires a in seats && b in seats
    {
      seats[a].row == seats[b].row + 1 && (seats[b].row == 0 || seats[a].col == seats[b].col)
    }

    /** `b` is the next seat of `a`'s row, the first one after the last. */
    predicate OnTheRight(a: NodeId, b: NodeId)
      requires a in seats && b in seats && seats[a].row <= |rows|
      requires seats[a].row > 0 ==> 0 < |rows[seats[a].row - 1]|
    {
      seats[a].row == seats[b].row > 0 && seats[b].col == (seats[a].col + 1) % |rows[seats[a].row - 1]|
    }

    lemma SeatOf(n: NodeId)
      requires WellSeated() && n in seats
      ensures seats[n].row <= |rows|
      ensures seats[n].row == 0 ==> n == leader
      ensures seats[n].row > 0 ==>
                seats[n].col < |rows[seats[n].row - 1]| && rows[seats[n].row - 1][seats[n].col] == n
    {
      if n != leader {
        assert HasSeat(seats[n].row - 1, seats[n].col);
      }
    }

    /** Two seats are linked exactly when one is in front of the other or next to it in its row. */
    lemma LinkedIff(a: NodeId, b: NodeId)
      requires WellSeated() && a in seats && b in seats
      ensures seats[a].row <= |rows| && (seats[a].row > 0 ==> 0 < |rows[seats[a].row - 1]|)
      ensures seats[b].row <= |rows| && (seats[b].row > 0 ==> 0 < |rows[seats[b].row - 1]|)
      ensures Linked(a, b)
              <==> a != b && (InFront(a, b) || InFront(b, a) || OnTheRight(a, b) || OnTheRight(b, a))
    {
      hide WellSeated;
      NeighbourIff(a, b);
      NeighbourIff(b, a);
    }

    lemma NeighbourIff(a: NodeId, b: NodeId)
      requires WellSeated() && a in seats && b in seats
      ensures seats[a].row <= |rows| && (seats[a].row > 0 ==> 0 < |rows[seats[a].row - 1]|)
      ensures b in Neighbours(a) <==> a != b && (InFront(a, b) || OnTheRight(a, b))
    {
      SeatOf(a);
      SeatOf(b);
      var s := seats[a];
      if s.row > 1 {
        assert HasSeat(s.row - 2, s.col);
      }
      if s.row > 0 {
        assert HasSeat(s.row - 1, (s.col + 1) % |rows[s.row - 1]|);
      }
    }

    ghost function Graph(): (adj: Adjacency)
      requires WellSeated()
      ensures Closed(adj) && adj.Keys == seats.Keys
    {
      map n | n in seats :: set m | m in seats && Linked(n, m)
    }

    /** Undirected sync edges, each once, smaller end first, in ascending order. */
    method Edges() returns (edges: seq<Edge>)
      requires WellSeated()
      ensures forall a: NodeId, b: NodeId :: Edge(a, b) in edges <==> a < b && Linked(a, b)
      ensures forall i, j | 0 <= i < j < |edges| :: Before(edges[i], edges[j])
    {
      var found := CollectEdges();
      edges := [];
      var left := found;
      while left != {}
        invariant forall e :: e in found <==> e in edges || e in left
        invariant forall i, j | 0 <= i < j < |edges| :: Before(edges[i], edges[j])
        invariant forall e, f :: e in edges && f in left ==> Before(e, f)
        decreases left
      {
        var least := LeastEdge(left);
        ghost var was := edges;
        edges := edges + [least];
        left := left - {least};
        assert forall e :: e in edges <==> e in was || e == least;
        assert forall i | 0 <= i < |was| :: was[i] in was;
      }
    }

    method CollectEdges() returns (found: set<Edge>)
      requires WellSeated()
      ensures forall a: NodeId, b: NodeId :: Edge(a, b) in found <==> a < b && Linked(a, b)
    {
      found := {};
      var left := seats.Keys;
      while left != {}
        invariant left <= seats.Keys
        invariant forall a: NodeId, b: NodeId :: Edge(a, b) in found <==>
          a < b && a in seats && b in seats && ((a !in left && b in Neighbours(a))
                                                || (b !in left && a in Neighbours(b)))
        decreases left
      {
        var n :| n in left;
        found := found + set p | p in Neighbours(n) :: if n < p then Edge(n, p) else Edge(p, n);
        left := left - {n};
      }
    }

    method AdjacencyOf() returns (adj: Adjacency)
      requires WellSeated()
      ensures adj == Graph()
    {
      var edges := Edges();
      EdgesJoinSeats(edges);
      adj := JoinAll(edges);
      JoinedIsLinked(adj, edges);
    }

    method JoinAll(edges: seq<Edge>) returns (adj: Adjacency)
      requires forall e <- edges :: e.a in seats && e.b in seats
      ensures JoinsExactly(adj, edges) == true
    {
      adj := map n | n in seats :: {};
      for i := 0 to |edges|
        invariant JoinsExactly(adj, edges[..i]) == true
      {
        assert edges[i] in edges && edges[..i + 1] == edges[..i] + [edges[i]];
        adj := JoinEnds(adj, edges[i], edges[..i]);
      }
      assert edges[..|edges|] == edges;
    }

    lemma EdgesJoinSeats(edges: seq<Edge>)
      requires WellSeated()
      requires forall a: NodeId, b: NodeId :: Edge(a, b) in edges <==> a < b && Linked(a, b)
      ensures forall e <- edges :: e.a in seats && e.b in seats
    {
      forall e <- edges ensures e.a in seats && e.b in seats {
        assert e == Edge(e.a, e.b);
        assert Linked(e.a, e.b);
      }
    }

    lemma JoinedIsLinked(adj: Adjacency, edges: seq<Edge>)
      requires WellSeated()
      requires forall a: NodeId, b: NodeId :: Edge(a, b) in edges <==> a < b && Linked(a, b)
      requires JoinsExactly(adj, edges) == true
      ensures adj == Graph()
    {
      forall n | n in seats ensures adj[n] == Graph()[n] {
        forall m: NodeId ensures m in adj[n] <==> m in seats && Linked(n, m) {
          assert m in adj[n] <==> Joined(edges, n, m);
        }
      }
    }

    ghost predicate JoinsExactly(adj: Adjacency, edges: seq<Edge>) {
      adj.Keys == seats.Keys && forall n <- adj, m: NodeId :: m in adj[n] <==> Joined(edges, n, m)
    }

    method JoinEnds(adj: Adjacency, e: Edge, ghost done: seq<Edge>) returns (r: Adjacency)
      requires JoinsExactly(adj, done) == true && e.a in seats && e.b in seats
      ensures JoinsExactly(r, done + [e]) == true
    {
      r := adj[e.a := adj[e.a] + {e.b}];
      r := r[e.b := r[e.b] + {e.a}];
      assert forall n, m :: Joined(done + [e], n, m) <==> Joined(done, n, m) || e == Edge(n, m) || e == Edge(m, n);
    }

    /** The diameter is never -1, and at most twice the number of rows: every seat reaches the leader
        straight up its column. */
    method DiameterOf() returns (d: int)
      requires WellSeated()
      ensures 0 <= d <= 2 * |rows|
      ensures Covers(Graph(), seats.Keys, d)
      ensures d > 0 ==> Misses(Graph(), d - 1)
    {
      var adj := AdjacencyOf();
      AllWithin(adj);
      d := Diameter(adj);
      DiameterIsBounded(adj, d, 2 * |rows|);
    }

    /** Every seat reaches the leader straight up its column, one row at a time. */
    lemma AllWithin(adj: Adjacency)
      requires WellSeated() && adj == Graph()
      ensures Within(adj, 2 * |rows|)
    {
      RowsAreLayers(adj);
      LayeredIsWithin(adj, leader, RowNumbers(), Fronts(), |rows|);
    }

    function RowNumbers(): map<NodeId, nat> {
      map n | n in seats :: seats[n].row
    }

    function Fronts(): map<NodeId, NodeId>
      requires WellSeated()
    {
      map n | n in seats && n != leader && Front(n).Some? :: Front(n).value
    }

    lemma LayerAt(adj: Adjacency, n: NodeId)
      requires WellSeated() && adj == Graph() && n in Fronts()
      ensures Fronts()[n] in adj && Fronts()[n] in seats && seats[n].row == seats[Fronts()[n]].row + 1
      ensures Fronts()[n] in adj[n] && n in adj[Fronts()[n]]
    {
      FrontIsOneRowUp(n);
    }

    lemma FrontsIsTotal()
      requires WellSeated()
      ensures Fronts().Keys == seats.Keys - {leader}
    {
      forall n | n in seats && n != leader ensures Front(n).Some? {
        FrontIsOneRowUp(n);
      }
    }

    lemma RowsAreLayers(adj: Adjacency)
      requires WellSeated() && adj == Graph()
      ensures Layered(adj, leader, RowNumbers(), Fronts())
    {
      FrontsIsTotal();
      var up, level := Fronts(), RowNumbers();
      forall n | n in up
        ensures up[n] in adj && level[n] == level[up[n]] + 1 && up[n] in adj[n] && n in adj[up[n]]
      {
        LayerAt(adj, n);
      }
    }

    lemma FrontIsOneRowUp(n: NodeId)
      requires WellSeated() && n in seats && n != leader
      ensures Front(n).Some? && Front(n).value in seats && seats[n].row == seats[Front(n).value].row + 1
      ensures Front(n).value in Graph()[n] && n in Graph()[Front(n).value]
    {
      assert seats[n].row == 1 || HasSeat(seats[n].row - 2, seats[n].col);
    }
  }

  ghost predicate Before(e: Edge, f: Edge) {
    e.a < f.a || (e.a == f.a && e.b < f.b)
  }

  method LeastEdge(s: set<Edge>) returns (least: Edge)
    requires s != {}
    ensures least in s && forall e <- s :: e == least || Before(least, e)
  {
    var rest := s;
    least :| least in s;
    while rest != {}
      invariant least in s && rest <= s
      invariant forall e :: e in s && e !in rest ==> e == least || Before(least, e)
      decreases rest
    {
      var e :| e in rest;
      if e.a < least.a || (e.a == least.a && e.b < least.b) {
        least := e;
      }
      rest := rest - {e};
    }
  }
}
