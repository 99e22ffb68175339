/**
 Breadth-first search over an adjacency dict, as `Grid.diameter` runs it (chain/ceremony.py).
 */
module Distances {
  import opened Seats

  type Adjacency = map<NodeId, set<NodeId>>

  ghost predicate Closed(adj: Adjacency) {
    forall n <- adj :: adj[n] <= adj.Keys
  }

  ghost predicate Steps(adj: Adjacency, n: NodeId, m: NodeId) {
    n in adj && m in adj[n]
  }

  /** The nodes within `k` steps of `src`. */
  ghost function Ball(adj: Adjacency, src: NodeId, k: nat): set<NodeId> {
    if k == 0 then {src} else Spread(adj, Ball(adj, src, k - 1))
  }

  ghost function Spread(adj: Adjacency, near: set<NodeId>): set<NodeId> {
    near + set m | m in adj.Keys && exists n {:trigger Steps(adj, n, m)} :: n in near && Steps(adj, n, m)
  }

  lemma {:induction false} BallStaysInside(adj: Adjacency, src: NodeId, k: nat)
    requires Closed(adj) && src in adj
    ensures Ball(adj, src, k) <= adj.Keys
  {
    if k > 0 {
      BallStaysInside(adj, src, k - 1);
    }
  }

  lemma {:induction false} BallGrows(adj: Adjacency, src: NodeId, j: nat, k: nat)
    requires j <= k
    ensures Ball(adj, src, j) <= Ball(adj, src, k)
  {
    if j < k {
      BallGrows(adj, src, j, k - 1);
    }
  }

  /** Balls compose: what is `j` steps from something `i` steps away is `i + j` steps away. */
  lemma {:induction false} BallsCompose(adj: Adjacency, a: NodeId, b: NodeId, c: NodeId, i: nat, j: nat)
    requires b in Ball(adj, a, i) && c in Ball(adj, b, j)
    ensures c in Ball(adj, a, i + j)
    decreases j
  {
    if j > 0 {
      if c in Ball(adj, b, j - 1) {
        BallsCompose(adj, a, b, c, i, j - 1);
      } else {
        var n :| n in Ball(adj, b, j - 1) && Steps(adj, n, c);
        BallsCompose(adj, a, b, n, i, j - 1);
      }
    }
  }

  lemma OneStep(adj: Adjacency, src: NodeId, n: NodeId, m: NodeId, k: nat)
    requires n in Ball(adj, src, k) && Steps(adj, n, m) && m in adj
    ensures m in Ball(adj, src, k + 1)
  {
  }

  lemma OneMoreHop(adj: Adjacency, n: NodeId, f: NodeId, hub: NodeId, r: nat)
    requires n in adj && f in adj && f in adj[n] && n in adj[f]
    requires hub in Ball(adj, f, r) && f in Ball(adj, hub, r)
    ensures hub in Ball(adj, n, r + 1) && n in Ball(adj, hub, r + 1)
  {
    OneStep(adj, n, n, f, 0);
    OneStep(adj, f, f, n, 0);
    BallsCompose(adj, n, f, hub, 1, r);
    BallsCompose(adj, hub, f, n, r, 1);
  }

  /** More than `k` steps away. */
  ghost predicate Beyond(adj: Adjacency, a: NodeId, b: NodeId, k: nat) {
    b !in Ball(adj, a, k)
  }

  /** `seen` is the distance table of `src`: it holds exactly what can be reached, at its distance. */
  ghost predicate DistanceTable(adj: Adjacency, src: NodeId, seen: map<NodeId, nat>) {
    forall v, k: nat :: v in Ball(adj, src, k) <==> v in seen && seen[v] <= k
  }

  /** No recorded distance is too short. */
  ghost predicate Recorded(adj: Adjacency, src: NodeId, seen: map<NodeId, nat>) {
    forall v {:trigger Beyond(adj, src, v, seen[v])} | v in seen :: !Beyond(adj, src, v, seen[v])
  }

  /** The queue lists different recorded nodes in order of distance, at most one step apart. */
  ghost predicate Lined(seen: map<NodeId, nat>, queue: seq<NodeId>, cur: set<NodeId>) {
    && Distinct(queue) && (forall v <- queue :: v in seen && v !in cur)
    && (forall i, j | 0 <= i < j < |queue| :: seen[queue[i]] <= seen[queue[j]])
    && (forall v <- queue, w <- seen :: seen[w] <= seen[v] + 1)
  }

  /** Whoever is neither queued nor being expanded has all its neighbours recorded. */
  ghost predicate Settled(adj: Adjacency, seen: map<NodeId, nat>, queue: seq<NodeId>, cur: set<NodeId>) {
    forall v <- seen :: v in queue || v in cur || (v in adj && Finished(adj, seen, v))
  }

  /** The loop invariant of the search. */
  ghost predicate Searching(adj: Adjacency, src: NodeId, seen: map<NodeId, nat>, queue: seq<NodeId>, cur: set<NodeId>) {
    && seen.Keys <= adj.Keys && src in seen && seen[src] == 0
    && Recorded(adj, src, seen) && Lined(seen, queue, cur) && Settled(adj, seen, queue, cur)
  }

  ghost predicate Finished(adj: Adjacency, seen: map<NodeId, nat>, v: NodeId)
    requires v in adj && v in seen
  {
    forall n <- adj[v] :: n in seen && seen[n] <= seen[v] + 1
  }

  /** When the queue is empty the table is exact. */
  lemma {:induction false} SearchDone(adj: Adjacency, src: NodeId, seen: map<NodeId, nat>, k: nat)
    requires Closed(adj) && Searching(adj, src, seen, [], {})
    ensures forall v :: v in Ball(adj, src, k) <==> v in seen && seen[v] <= k
  {
    forall v | v in Ball(adj, src, k) ensures v in seen && seen[v] <= k {
      if k > 0 {
        SearchDone(adj, src, seen, k - 1);
        if v !in Ball(adj, src, k - 1) {
          var n :| n in Ball(adj, src, k - 1) && Steps(adj, n, v);
          assert Finished(adj, seen, n);
        }
      }
    }
    forall v | v in seen && seen[v] <= k ensures v in Ball(adj, src, k) {
      assert !Beyond(adj, src, v, seen[v]);
      BallGrows(adj, src, seen[v], k);
    }
  }

  /** While the neighbours of `cur` are looked at, `left` of them still to go. */
  ghost predicate Expanding(adj: Adjacency, src: NodeId, seen: map<NodeId, nat>, queue: seq<NodeId>, cur: NodeId,
                            left: set<NodeId>) {
    && cur in seen && cur in adj && left <= adj[cur]
    && Searching(adj, src, seen, queue, {cur})
    && (forall w <- seen :: seen[w] <= seen[cur] + 1)
    && (forall v <- queue :: seen[cur] <= seen[v])
    && (forall n :: n in adj[cur] && n !in left ==> n in seen)
  }

  lemma QueueDistinct(queue: seq<NodeId>)
    requires queue != [] && Distinct(queue)
    ensures queue[0] !in queue[1..] && Distinct(queue[1..])
  {
    forall j | 0 <= j < |queue[1..]| ensures queue[1..][j] != queue[0] {
      assert queue[1..][j] == queue[j + 1];
    }
  }

  lemma StartExpanding(adj: Adjacency, src: NodeId, seen: map<NodeId, nat>, queue: seq<NodeId>)
    requires queue != [] && Searching(adj, src, seen, queue, {})
    ensures Expanding(adj, src, seen, queue[1..], queue[0], adj[queue[0]])
  {
    QueueDistinct(queue);
    var cur := queue[0];
    assert cur in queue;
    forall v <- queue[1..] ensures v in queue && seen[cur] <= seen[v] {
      var j :| 0 <= j < |queue[1..]| && queue[1..][j] == v;
      assert queue[j + 1] == v;
    }
    forall v <- seen ensures v in queue[1..] || v in {cur} || Finished(adj, seen, v) {
      if v in queue {
        var j :| 0 <= j < |queue| && queue[j] == v;
        assert j > 0 ==> queue[1..][j - 1] == v;
      }
    }
  }

  /** A step beyond the node being expanded joins the end of the queue. */
  lemma EnqueueLined(seen: map<NodeId, nat>, queue: seq<NodeId>, cur: NodeId, nxt: NodeId)
    requires cur in seen && nxt !in seen && Lined(seen, queue, {cur})
    requires (forall w <- seen :: seen[w] <= seen[cur] + 1) && (forall v <- queue :: seen[cur] <= seen[v])
    ensures Lined(seen[nxt := seen[cur] + 1], queue + [nxt], {cur})
  {
    var seen', queue' := seen[nxt := seen[cur] + 1], queue + [nxt];
    assert forall v :: v in queue' <==> v in queue || v == nxt;
    forall i, j | 0 <= i < j < |queue'| ensures seen'[queue'[i]] <= seen'[queue'[j]] && queue'[i] != queue'[j] {
      assert queue'[i] == queue[i] && queue[i] in queue;
      if j < |queue| {
        assert queue[j] in queue;
      }
    }
  }

  lemma StillSettled(adj: Adjacency, seen: map<NodeId, nat>, queue: seq<NodeId>, cur: NodeId, nxt: NodeId, d: nat)
    requires nxt !in seen && Settled(adj, seen, queue, {cur})
    ensures Settled(adj, seen[nxt := d], queue + [nxt], {cur})
  {
    forall v <- seen[nxt := d]
      ensures v in queue + [nxt] || v in {cur} || (v in adj && Finished(adj, seen[nxt := d], v)) {
      if v == nxt {
        assert (queue + [nxt])[|queue|] == nxt;
      } else if v !in queue && v != cur {
        assert Finished(adj, seen, v);
      }
    }
  }

  lemma StillRecorded(adj: Adjacency, src: NodeId, seen: map<NodeId, nat>, cur: NodeId, nxt: NodeId)
    requires Recorded(adj, src, seen) && cur in seen && nxt !in seen && Steps(adj, cur, nxt) && Closed(adj)
    ensures Recorded(adj, src, seen[nxt := seen[cur] + 1])
  {
    assert !Beyond(adj, src, cur, seen[cur]);
    OneStep(adj, src, cur, nxt, seen[cur]);
    hide Ball;
    var seen' := seen[nxt := seen[cur] + 1];
    forall v | v in seen' ensures !Beyond(adj, src, v, seen'[v]) {
      if v != nxt {
        assert !Beyond(adj, src, v, seen[v]);
      }
    }
  }

  lemma EnqueueNew(adj: Adjacency, src: NodeId, seen: map<NodeId, nat>, queue: seq<NodeId>, cur: NodeId,
                   left: set<NodeId>, nxt: NodeId)
    requires Closed(adj) && Expanding(adj, src, seen, queue, cur, left) && nxt in left && nxt !in seen
    ensures Expanding(adj, src, seen[nxt := seen[cur] + 1], queue + [nxt], cur, left - {nxt})
  {
    hide Ball, Finished, Beyond, Recorded, Lined, Settled;
    EnqueueLined(seen, queue, cur, nxt);
    StillRecorded(adj, src, seen, cur, nxt);
    StillSettled(adj, seen, queue, cur, nxt, seen[cur] + 1);
    assert forall v :: v in queue + [nxt] ==> v in queue || v == nxt;
  }

  lemma SkipKnown(adj: Adjacency, src: NodeId, seen: map<NodeId, nat>, queue: seq<NodeId>, cur: NodeId,
                  left: set<NodeId>, nxt: NodeId)
    requires Expanding(adj, src, seen, queue, cur, left) && nxt in seen
    ensures Expanding(adj, src, seen, queue, cur, left - {nxt})
  {
  }

  lemma DoneExpanding(adj: Adjacency, src: NodeId, seen: map<NodeId, nat>, queue: seq<NodeId>, cur: NodeId)
    requires Expanding(adj, src, seen, queue, cur, {})
    ensures Searching(adj, src, seen, queue, {})
  {
    assert Finished(adj, seen, cur);
  }

  method Bfs(adj: Adjacency, src: NodeId) returns (seen: map<NodeId, nat>)
    requires Closed(adj) && src in adj
    ensures DistanceTable(adj, src, seen) && src in seen && seen.Keys <= adj.Keys
  {
    seen := map[src := 0];
    var queue := [src];
    while queue != []
      invariant Searching(adj, src, seen, queue, {})
      decreases |adj.Keys - seen.Keys|, |queue|
    {
      StartExpanding(adj, src, seen, queue);
      var cur := queue[0];
      queue := queue[1..];
      var left := adj[cur];
      ghost var seen0, queue0 := seen, queue;
      while left != {}
        invariant Expanding(adj, src, seen, queue, cur, left)
        invariant (seen == seen0 && queue == queue0) || seen0.Keys < seen.Keys
        decreases left
      {
        var nxt :| nxt in left;
        if nxt !in seen {
          EnqueueNew(adj, src, seen, queue, cur, left, nxt);
          seen := seen[nxt := seen[cur] + 1];
          queue := queue + [nxt];
        } else {
          SkipKnown(adj, src, seen, queue, cur, left, nxt);
        }
        left := left - {nxt};
      }
      DoneExpanding(adj, src, seen, queue, cur);
      if seen != seen0 {
        SmallerRest(adj.Keys, seen0.Keys, seen.Keys);
      }
    }
    forall k: nat {
      SearchDone(adj, src, seen, k);
    }
  }

  lemma SmallerRest(all: set<NodeId>, a: set<NodeId>, b: set<NodeId>)
    requires a < b <= all
    ensures |all - b| < |all - a|
  {
    var x :| x in b && x !in a;
    assert all - b <= all - a - {x};
    SubsetSize(all - b, all - a - {x});
  }

  lemma {:induction false} SubsetSize(a: set<NodeId>, b: set<NodeId>)
    requires a <= b
    ensures |a| <= |b|
  {
    if a != {} {
      var x :| x in a;
      SubsetSize(a - {x}, b - {x});
    }
  }

  method Furthest(seen: map<NodeId, nat>) returns (most: nat)
    requires seen != map[]
    ensures (forall v <- seen :: seen[v] <= most) && exists v <- seen :: seen[v] == most
  {
    var left := seen.Keys;
    var first :| first in seen;
    most := seen[first];
    while left != {}
      invariant left <= seen.Keys
      invariant forall v <- seen :: v in left || seen[v] <= most
      invariant exists v <- seen :: seen[v] == most
      decreases left
    {
      var v :| v in left;
      most := if seen[v] > most then seen[v] else most;
      left := left - {v};
    }
  }

  /** Every node of `from` reaches the whole graph within `d` steps. */
  ghost predicate Covers(adj: Adjacency, from: set<NodeId>, d: nat) {
    forall a: NodeId {:trigger Ball(adj, a, d)} :: a in from ==> Ball(adj, a, d) == adj.Keys
  }

  /** Some node is more than `d` steps from another. */
  ghost predicate Misses(adj: Adjacency, d: nat) {
    exists a: NodeId, b: NodeId {:trigger Beyond(adj, a, b, d)} :: a in adj && b in adj && Beyond(adj, a, b, d)
  }

  ghost predicate Apart(adj: Adjacency, a: NodeId, b: NodeId) {
    forall k: nat :: Beyond(adj, a, b, k)
  }

  ghost predicate Disconnected(adj: Adjacency) {
    exists a: NodeId, b: NodeId {:trigger Apart(adj, a, b)} :: a in adj && b in adj && Apart(adj, a, b)
  }

  lemma CoverGrows(adj: Adjacency, from: set<NodeId>, d: nat, e: nat)
    requires Closed(adj) && from <= adj.Keys && Covers(adj, from, d) && d <= e
    ensures Covers(adj, from, e)
  {
    forall a <- from ensures Ball(adj, a, e) == adj.Keys {
      BallGrows(adj, a, d, e);
      BallStaysInside(adj, a, e);
    }
  }

  /** The distance from `src` to the node furthest from it, or -1 when some node cannot be reached. */
  method Eccentricity(adj: Adjacency, src: NodeId) returns (e: int)
    requires Closed(adj) && src in adj
    ensures e >= -1
    ensures e == -1 ==> Disconnected(adj)
    ensures e >= 0 ==> Measured(adj, {src}, e)
  {
    var seen := Bfs(adj, src);
    if |seen| != |adj| {
      ghost var far := MissingElement(seen.Keys, adj.Keys);
      assert Apart(adj, src, far);
      return -1;
    }
    SameSize(seen.Keys, adj.Keys);
    e := Furthest(seen);
    BallStaysInside(adj, src, e);
    assert forall v <- adj :: v in Ball(adj, src, e);
    ghost var v :| v in seen && seen[v] == e;
    assert e > 0 ==> Beyond(adj, src, v, e - 1);
  }

  lemma CoverConnects(adj: Adjacency, d: nat)
    requires Covers(adj, adj.Keys, d)
    ensures !Disconnected(adj)
  {
    forall a, b | a in adj && b in adj ensures !Apart(adj, a, b) {
      assert !Beyond(adj, a, b, d);
    }
  }

  /** `best` is the greatest eccentricity among `done`. */
  ghost predicate Measured(adj: Adjacency, done: set<NodeId>, best: nat) {
    Covers(adj, done, best) && (best > 0 ==> Misses(adj, best - 1))
  }

  lemma MeasureOneMore(adj: Adjacency, done: set<NodeId>, best: nat, src: NodeId, e: nat)
    requires Closed(adj) && done <= adj.Keys && src in adj && Measured(adj, done, best) && Measured(adj, {src}, e)
    ensures Measured(adj, done + {src}, if e > best then e else best)
  {
    if e > best {
      CoverGrows(adj, done, best, e);
    } else {
      CoverGrows(adj, {src}, e, best);
    }
  }

  /** The longest shortest path, or -1 when some node cannot reach some other. */
  method Diameter(adj: Adjacency) returns (d: int)
    requires Closed(adj)
    ensures d >= -1
    ensures d == -1 ==> Disconnected(adj)
    ensures d >= 0 ==> Covers(adj, adj.Keys, d)
    ensures d > 0 ==> Misses(adj, d - 1)
  {
    var best := 0;
    var left := adj.Keys;
    while left != {}
      invariant best >= 0 && left <= adj.Keys
      invariant Measured(adj, adj.Keys - left, best) == true
      decreases left
    {
      var src :| src in left;
      var e := Eccentricity(adj, src);
      if e == -1 {
        return -1;
      }
      MeasureOneMore(adj, adj.Keys - left, best, src, e);
      if e > best {
        best := e;
      }
      left := left - {src};
      assert adj.Keys - left == adj.Keys - (left + {src}) + {src};
    }
    assert adj.Keys - {} == adj.Keys;
    CoverConnects(adj, best);
    return best;
  }

  lemma MissingElement(a: set<NodeId>, b: set<NodeId>) returns (x: NodeId)
    requires a <= b && |a| != |b|
    ensures x in b && x !in a
  {
    assert a != b;
    x :| x in b && x !in a;
  }

  lemma SameSize(a: set<NodeId>, b: set<NodeId>)
    requires a <= b && |a| == |b|
    ensures a == b
  {
    if a != b {
      var x :| x in b && x !in a;
      SubsetSize(a, b - {x});
    }
  }

  ghost predicate Within(adj: Adjacency, bound: nat) {
    forall a: NodeId, b: NodeId {:trigger Beyond(adj, a, b, bound)} :: a in adj && b in adj ==>
      !Beyond(adj, a, b, bound)
  }

  lemma NothingMissed(adj: Adjacency, bound: nat, k: nat)
    requires Closed(adj) && Within(adj, bound) && bound <= k
    ensures !Misses(adj, k)
  {
    forall a, b | a in adj && b in adj ensures !Beyond(adj, a, b, k) {
      assert !Beyond(adj, a, b, bound);
      BallGrows(adj, a, bound, k);
    }
  }

  /** What `Diameter` returns on a graph where everyone is within `bound` steps of everyone. */
  lemma DiameterIsBounded(adj: Adjacency, d: int, bound: nat)
    requires Closed(adj) && Within(adj, bound)
    requires d >= -1 && (d == -1 ==> Disconnected(adj)) && (d > 0 ==> Misses(adj, d - 1))
    ensures 0 <= d <= bound
  {
    forall a, b | a in adj && b in adj ensures !Apart(adj, a, b) {
      assert !Beyond(adj, a, b, bound);
    }
    if d > bound {
      NothingMissed(adj, bound, d - 1);
    }
  }

  /** Every node but the hub has a neighbour one level nearer to it. */
  ghost predicate Layered(adj: Adjacency, hub: NodeId, level: map<NodeId, nat>, up: map<NodeId, NodeId>) {
    && level.Keys == adj.Keys && up.Keys == adj.Keys - {hub} && hub in adj && level[hub] == 0
    && forall n {:trigger up[n]} | n in up ::
         up[n] in adj && level[n] == level[up[n]] + 1 && up[n] in adj[n] && n in adj[up[n]]
  }

  lemma {:induction false} LevelReachesHub(adj: Adjacency, hub: NodeId, level: map<NodeId, nat>,
                                           up: map<NodeId, NodeId>, n: NodeId)
    requires Closed(adj) && Layered(adj, hub, level, up) == true && n in adj
    ensures hub in Ball(adj, n, level[n]) && n in Ball(adj, hub, level[n])
    decreases level[n]
  {
    if n != hub {
      LevelReachesHub(adj, hub, level, up, up[n]);
      OneMoreHop(adj, n, up[n], hub, level[up[n]]);
    }
  }

  lemma LayeredIsWithin(adj: Adjacency, hub: NodeId, level: map<NodeId, nat>, up: map<NodeId, NodeId>, depth: nat)
    requires Closed(adj) && Layered(adj, hub, level, up) == true && forall n <- level :: level[n] <= depth
    ensures Within(adj, 2 * depth)
  {
    forall a, b | a in adj && b in adj ensures !Beyond(adj, a, b, 2 * depth) {
      LevelReachesHub(adj, hub, level, up, a);
      LevelReachesHub(adj, hub, level, up, b);
      BallsCompose(adj, a, hub, b, level[a], level[b]);
      BallGrows(adj, a, level[a] + level[b], 2 * depth);
    }
  }
}
