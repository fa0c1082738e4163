/** Breadth-first search over explicit relations: exact hop distances from a set of
    starting nodes, up to a depth. */
module Distances {
  import opened Graphs

  /** The nodes within `k` hops of `from`. */
  ghost function Ball(g: Graph, from: set<string>, k: nat): set<string> {
    if k == 0 then from else
      Ball(g, from, k - 1) + Successors(g, Ball(g, from, k - 1))
  }

  ghost function Successors(g: Graph, s: set<string>): set<string> {
    set x, y | x in s && x in g && y in g[x] :: y
  }

  /** The hop distance of `v` is exactly `k`. */
  ghost predicate AtDistance(g: Graph, from: set<string>, v: string, k: nat) {
    v in Ball(g, from, k) && (k > 0 ==> v !in Ball(g, from, k - 1))
  }

  lemma {:induction false} BallGrows(g: Graph, from: set<string>, j: nat, k: nat)
    requires j <= k
    ensures Ball(g, from, j) <= Ball(g, from, k)
    decreases k
  {
    if j < k { BallGrows(g, from, j, k - 1); }
  }

  lemma DistanceUnique(g: Graph, from: set<string>, v: string, j: nat, k: nat)
    requires AtDistance(g, from, v, j) && AtDistance(g, from, v, k)
    ensures j == k
  {
    if j < k { BallGrows(g, from, j, k - 1); }
    if k < j { BallGrows(g, from, k, j - 1); }
  }

  lemma BallStep(g: Graph, from: set<string>, k: nat, x: string, y: string)
    requires x in Ball(g, from, k) && Edge(g, x, y)
    ensures y in Ball(g, from, k + 1)
  {
  }

  lemma {:induction false} BallClosed(g: Graph, from: set<string>, k: nat)
    requires Closed(g) && from <= g.Keys
    ensures Ball(g, from, k) <= g.Keys
  {
    if k > 0 { BallClosed(g, from, k - 1); }
  }

  // ----- hop distance and walks ---------------------------------------------------------

  /** Being in the ball is being at the end of a short walk. */
  lemma {:induction false} BallWalk(g: Graph, from: set<string>, k: nat, v: string) returns (p: seq<string>)
    requires v in Ball(g, from, k)
    ensures Walk(g, p) && p[0] in from && p[|p| - 1] == v && |p| <= k + 1
  {
    if k == 0 {
      p := [v];
    } else if v in Ball(g, from, k - 1) {
      p := BallWalk(g, from, k - 1, v);
    } else {
      var x :| x in Ball(g, from, k - 1) && x in g && v in g[x];
      var q := BallWalk(g, from, k - 1, x);
      assert Walk(g, [x, v]) by { assert Step(g, [x, v], 0); }
      WalkJoin(g, q, [x, v]);
      p := q + [x, v][1..];
    }
  }

  lemma {:induction false} WalkBall(g: Graph, from: set<string>, p: seq<string>)
    requires Walk(g, p) && p[0] in from
    ensures p[|p| - 1] in Ball(g, from, |p| - 1)
  {
    if |p| > 1 {
      var n := |p| - 1;
      var q := p[..n];
      forall i | 0 <= i < |q| - 1 ensures Step(g, q, i) { assert Step(g, p, i); }
      WalkBall(g, from, q);
      assert Step(g, p, n - 1);
      BallStep(g, from, n - 1, p[n - 1], p[n]);
    }
  }

  // ----- the search state ---------------------------------------------------------------

  type Distance = map<string, nat>

  /** Every recorded distance is the hop distance, and none exceeds the depth. */
  ghost predicate Exact(g: Graph, from: set<string>, depth: nat, d: Distance) {
    forall v {:trigger Recorded(d, v)} :: v in d && Recorded(d, v) ==> d[v] <= depth && AtDistance(g, from, v, d[v])
  }

  predicate Recorded(d: Distance, v: string) { true }

  /** The queue holds recorded nodes of level `c`, then of level `c + 1`. */
  ghost predicate Queued(d: Distance, queue: seq<string>, c: nat) {
    && (forall i :: 0 <= i < |queue| ==> queue[i] in d && c <= d[queue[i]] <= c + 1)
    && (forall i, j :: 0 <= i < j < |queue| ==> d[queue[i]] <= d[queue[j]])
    && (forall v :: v in d ==> d[v] <= c + 1)
  }

  /** Every recorded node that is neither queued nor in `open` has all its successors
      recorded, unless it lies at the depth limit. */
  ghost predicate Expanded(g: Graph, depth: nat, d: Distance, queue: seq<string>, open: set<string>) {
    forall v, w :: v in d && v !in queue && v !in open && d[v] < depth && Edge(g, v, w) ==> w in d
  }

  ghost predicate BfsInv(g: Graph, from: set<string>, depth: nat, d: Distance, queue: seq<string>, c: nat) {
    && Closed(g) && from <= g.Keys
    && d.Keys <= g.Keys
    && Exact(g, from, depth, d)
    && Queued(d, queue, c)
    && Expanded(g, depth, d, queue, {})
    && Ball(g, from, c) <= d.Keys
    && c <= depth
  }

  /** What the search delivers: exactly the nodes within `depth` hops, each with its hop
      distance. */
  ghost predicate IsDistanceMap(g: Graph, from: set<string>, depth: nat, d: Distance) {
    d.Keys == Ball(g, from, depth) && Exact(g, from, depth, d)
  }

  /** A walk from one of `from` to `v`. */
  ghost predicate WalkInto(g: Graph, from: set<string>, v: string, p: seq<string>) {
    Walk(g, p) && p[0] in from && p[|p| - 1] == v
  }

  /** A distance map holds exactly the ends of short walks, with the length of the shortest. */
  lemma DistanceByWalk(g: Graph, from: set<string>, depth: nat, d: Distance, v: string)
    requires IsDistanceMap(g, from, depth, d)
    ensures v in d <==> exists p :: WalkInto(g, from, v, p) && |p| <= depth + 1
    ensures v in d ==> exists p :: WalkInto(g, from, v, p) && |p| == d[v] + 1
    ensures v in d ==> forall p :: WalkInto(g, from, v, p) ==> d[v] + 1 <= |p|
  {
    forall p | WalkInto(g, from, v, p) && |p| <= depth + 1 ensures v in d {
      WalkBall(g, from, p);
      BallGrows(g, from, |p| - 1, depth);
    }
    if v in d {
      assert Recorded(d, v);
      forall p | WalkInto(g, from, v, p) ensures d[v] + 1 <= |p| {
        WalkBall(g, from, p);
        RecordedWithin(g, from, depth, d, v, |p| - 1);
      }
      var p := BallWalk(g, from, d[v], v);
      assert WalkInto(g, from, v, p);
    }
  }

  lemma BfsStart(g: Graph, from: set<string>, depth: nat, d: Distance, queue: seq<string>)
    requires Closed(g) && from <= g.Keys && Elems(queue) == from
    requires d.Keys == from && forall v :: v in d ==> d[v] == 0
    ensures BfsInv(g, from, depth, d, queue, 0)
  {
    assert forall i :: 0 <= i < |queue| ==> queue[i] in Elems(queue);
  }

  /** A recorded node in the `k`-ball is recorded with at most `k`. */
  lemma RecordedWithin(g: Graph, from: set<string>, depth: nat, d: Distance, v: string, k: nat)
    requires Exact(g, from, depth, d) && v in d && v in Ball(g, from, k)
    ensures d[v] <= k
  {
    assert Recorded(d, v);
    if d[v] > k { BallGrows(g, from, k, d[v] - 1); }
  }

  /** Once level `c` is exhausted, the next level is completely recorded. */
  lemma NextLevel(g: Graph, from: set<string>, depth: nat, d: Distance, queue: seq<string>, c: nat)
    requires Exact(g, from, depth, d) && Expanded(g, depth, d, queue, {})
    requires Ball(g, from, c) <= d.Keys && c < depth
    requires forall i :: 0 <= i < |queue| ==> queue[i] in d && c < d[queue[i]]
    ensures Ball(g, from, c + 1) <= d.Keys
  {
    forall y | y in Ball(g, from, c + 1) ensures y in d {
      if y !in Ball(g, from, c) {
        var x :| x in Ball(g, from, c) && x in g && y in g[x];
        RecordedWithin(g, from, depth, d, x, c);
        assert Edge(g, x, y);
      }
    }
  }

  /** The level of the node about to be expanded. */
  lemma Front(g: Graph, from: set<string>, depth: nat, d: Distance, queue: seq<string>, c: nat) returns (b: nat)
    requires BfsInv(g, from, depth, d, queue, c) && queue != []
    ensures BfsInv(g, from, depth, d, queue, b) && d[queue[0]] == b
  {
    b := d[queue[0]];
    if b == c + 1 {
      assert Recorded(d, queue[0]);
      FrontRaised(d, queue, c);
      NextLevel(g, from, depth, d, queue, c);
    }
  }

  lemma FrontRaised(d: Distance, queue: seq<string>, c: nat)
    requires Queued(d, queue, c) && queue != [] && d[queue[0]] == c + 1
    ensures Queued(d, queue, c + 1)
    ensures forall i :: 0 <= i < |queue| ==> queue[i] in d && c < d[queue[i]]
  {
    forall i | 0 <= i < |queue| ensures d[queue[i]] == c + 1 {
      if i > 0 { assert d[queue[0]] <= d[queue[i]]; }
    }
  }

  /** At the depth limit a node is dropped. */
  lemma Dropped(g: Graph, from: set<string>, depth: nat, d: Distance, queue: seq<string>, c: nat)
    requires BfsInv(g, from, depth, d, queue, c) && queue != [] && d[queue[0]] >= depth
    ensures BfsInv(g, from, depth, d, queue[1..], c)
  {
    assert forall v :: v in queue ==> v == queue[0] || v in queue[1..];
  }

  /** The state while the successors of `cur`, at level `c`, are looked at. */
  ghost predicate Expanding(g: Graph, from: set<string>, depth: nat, d: Distance, queue: seq<string>, c: nat, cur: string, i: nat) {
    && Closed(g) && from <= g.Keys
    && d.Keys <= g.Keys
    && Exact(g, from, depth, d)
    && Queued(d, queue, c)
    && Expanded(g, depth, d, queue, {cur})
    && Ball(g, from, c) <= d.Keys
    && c < depth && cur in d && d[cur] == c
    && i <= |g[cur]| && forall j :: 0 <= j < i ==> g[cur][j] in d
  }

  lemma Opened(g: Graph, from: set<string>, depth: nat, d: Distance, queue: seq<string>, c: nat)
    requires BfsInv(g, from, depth, d, queue, c) && queue != [] && d[queue[0]] == c < depth
    ensures Expanding(g, from, depth, d, queue[1..], c, queue[0], 0)
  {
    assert forall v :: v in queue ==> v == queue[0] || v in queue[1..];
  }

  lemma Found(g: Graph, from: set<string>, depth: nat, d: Distance, queue: seq<string>, c: nat, cur: string, i: nat)
    requires Expanding(g, from, depth, d, queue, c, cur, i) && i < |g[cur]| && g[cur][i] !in d
    ensures Expanding(g, from, depth, d[g[cur][i] := c + 1], queue + [g[cur][i]], c, cur, i + 1)
  {
    var w := g[cur][i];
    var d' := d[w := c + 1];
    var queue' := queue + [w];
    FoundExact(g, from, depth, d, c, cur, w);
    FoundExpanded(g, depth, d, queue, c, cur, w);
    assert Queued(d', queue', c);
  }

  lemma Seen(g: Graph, from: set<string>, depth: nat, d: Distance, queue: seq<string>, c: nat, cur: string, i: nat)
    requires Expanding(g, from, depth, d, queue, c, cur, i) && i < |g[cur]| && g[cur][i] in d
    ensures Expanding(g, from, depth, d, queue, c, cur, i + 1)
    ensures d[g[cur][i]] <= c + 1
  {
  }

  lemma Grown(d0: Distance, d: Distance, w: string, n: nat)
    requires d.Keys >= d0.Keys && w !in d
    ensures d[w := n].Keys > d0.Keys
  {
    assert w in d[w := n];
  }

  lemma FoundExact(g: Graph, from: set<string>, depth: nat, d: Distance, c: nat, cur: string, w: string)
    requires Exact(g, from, depth, d) && Ball(g, from, c) <= d.Keys && c < depth
    requires cur in d && d[cur] == c && Edge(g, cur, w) && w !in d
    ensures Exact(g, from, depth, d[w := c + 1])
  {
    assert Recorded(d, cur);
    BallStep(g, from, c, cur, w);
    assert forall v :: v in d ==> Recorded(d, v);
  }

  lemma FoundExpanded(g: Graph, depth: nat, d: Distance, queue: seq<string>, c: nat, cur: string, w: string)
    requires Expanded(g, depth, d, queue, {cur}) && w !in d
    ensures Expanded(g, depth, d[w := c + 1], queue + [w], {cur})
  {
    assert forall v :: v in queue ==> v in queue + [w];
    assert w in queue + [w];
  }

  lemma Finished(g: Graph, from: set<string>, depth: nat, d: Distance, queue: seq<string>, c: nat, cur: string)
    requires cur in g && Expanding(g, from, depth, d, queue, c, cur, |g[cur]|)
    ensures BfsInv(g, from, depth, d, queue, c)
  {
  }

  /** When the queue is empty everything within the depth has been recorded. */
  lemma {:induction false} Exhausted(g: Graph, from: set<string>, depth: nat, d: Distance, c: nat)
    requires BfsInv(g, from, depth, d, [], c)
    ensures IsDistanceMap(g, from, depth, d)
    decreases depth - c
  {
    if c < depth {
      NextLevel(g, from, depth, d, [], c);
      Exhausted(g, from, depth, d, c + 1);
    } else {
      forall v | v in d ensures v in Ball(g, from, depth) {
        assert Recorded(d, v);
        BallGrows(g, from, d[v], depth);
      }
    }
  }

  // ----- the two searches of the engine -------------------------------------------------

  /** The loop of `neighborhood`: all focus nodes start at distance 0. */
  method NeighborhoodDistances(g: Graph, focus: seq<string>, depth: nat) returns (distance: Distance)
    requires Closed(g) && forall f :: f in focus ==> f in g
    ensures IsDistanceMap(g, Elems(focus), depth, distance)
  {
    distance := map f | f in focus :: 0;
    var queue := focus;
    ghost var c := 0;
    ghost var from := Elems(focus);
    BfsStart(g, from, depth, distance, queue);
    while queue != []
      invariant BfsInv(g, from, depth, distance, queue, c)
      decreases g.Keys - distance.Keys, |queue|
    {
      c := Front(g, from, depth, distance, queue, c);
      var current := queue[0];
      if distance[current] >= depth {
        Dropped(g, from, depth, distance, queue, c);
        queue := queue[1..];
        continue;
      }
      Opened(g, from, depth, distance, queue, c);
      distance, queue := Relax(g, from, depth, distance, queue[1..], c, current);
    }
    Exhausted(g, from, depth, distance, c);
  }

  /** Records the neighbours of `current` that are new, or now closer (which none ever is). */
  method Relax(g: Graph, ghost from: set<string>, ghost depth: nat, d0: Distance, q0: seq<string>, ghost c: nat, current: string)
    returns (distance: Distance, queue: seq<string>)
    requires Expanding(g, from, depth, d0, q0, c, current, 0)
    ensures BfsInv(g, from, depth, distance, queue, c)
    ensures (distance == d0 && queue == q0) || distance.Keys > d0.Keys
  {
    distance, queue := d0, q0;
    for i := 0 to |g[current]|
      invariant Expanding(g, from, depth, distance, queue, c, current, i)
      invariant (distance == d0 && queue == q0) || distance.Keys > d0.Keys
    {
      var neighbor := g[current][i];
      var nextDistance := distance[current] + 1;
      if neighbor in distance {
        Seen(g, from, depth, distance, queue, c, current, i);
      }
      if neighbor !in distance || nextDistance < distance[neighbor] {
        Found(g, from, depth, distance, queue, c, current, i);
        Grown(d0, distance, neighbor, c + 1);
        distance := distance[neighbor := nextDistance];
        queue := queue + [neighbor];
      }
    }
    Finished(g, from, depth, distance, queue, c, current);
  }

  /** `_shortest_distances`: one start, every node recorded once. */
  method ShortestDistances(g: Graph, start: string, maxDepth: nat) returns (distance: Distance)
    requires Closed(g) && start in g
    ensures IsDistanceMap(g, {start}, maxDepth, distance)
  {
    distance := map[start := 0];
    var queue := [start];
    ghost var c := 0;
    BfsStart(g, {start}, maxDepth, distance, queue);
    while queue != []
      invariant BfsInv(g, {start}, maxDepth, distance, queue, c)
      decreases g.Keys - distance.Keys, |queue|
    {
      c := Front(g, {start}, maxDepth, distance, queue, c);
      var current := queue[0];
      if distance[current] >= maxDepth {
        Dropped(g, {start}, maxDepth, distance, queue, c);
        queue := queue[1..];
        continue;
      }
      Opened(g, {start}, maxDepth, distance, queue, c);
      distance, queue := Discover(g, {start}, maxDepth, distance, queue[1..], c, current);
    }
    Exhausted(g, {start}, maxDepth, distance, c);
  }

  /** Records the neighbours of `current` that are new. */
  method Discover(g: Graph, ghost from: set<string>, ghost depth: nat, d0: Distance, q0: seq<string>, ghost c: nat, current: string)
    returns (distance: Distance, queue: seq<string>)
    requires Expanding(g, from, depth, d0, q0, c, current, 0)
    ensures BfsInv(g, from, depth, distance, queue, c)
    ensures (distance == d0 && queue == q0) || distance.Keys > d0.Keys
  {
    distance, queue := d0, q0;
    for i := 0 to |g[current]|
      invariant Expanding(g, from, depth, distance, queue, c, current, i)
      invariant (distance == d0 && queue == q0) || distance.Keys > d0.Keys
    {
      var neighbor := g[current][i];
      if neighbor !in distance {
        Found(g, from, depth, distance, queue, c, current, i);
        Grown(d0, distance, neighbor, c + 1);
        distance := distance[neighbor := distance[current] + 1];
        queue := queue + [neighbor];
      } else {
        Seen(g, from, depth, distance, queue, c, current, i);
      }
    }
    Finished(g, from, depth, distance, queue, c, current);
  }
}
