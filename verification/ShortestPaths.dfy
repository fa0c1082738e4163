/** Enumeration of shortest paths between two nodes: a depth-first walk along increasing
    hop distance that stops once enough paths are collected. */
module ShortestPaths {
  import opened Ordering
  import opened Graphs
  import opened Distances

  type Path = seq<string>

  function Last(p: Path): string
    requires p != []
  {
    p[|p| - 1]
  }

  /** A shortest path: a walk whose number of steps is the hop distance `n` of its end. */
  ghost predicate IsShortest(g: Graph, start: string, goal: string, n: nat, p: Path) {
    WalkFromTo(g, p, start, goal) && |p| == n + 1
  }

  /** A walk from `start` on which the recorded distance counts the steps. */
  ghost predicate Levelled(g: Graph, d: Distance, start: string, p: Path) {
    && Walk(g, p) && p[0] == start
    && Last(p) in g
    && forall i :: 0 <= i < |p| ==> p[i] in d && d[p[i]] == i
  }

  /** The test made before the walk goes on to neighbour `n`. */
  predicate GoesOn(d: Distance, target: nat, p: Path, n: string)
    requires p != [] && Last(p) in d
  {
    n in d && d[n] == d[Last(p)] + 1 && d[n] <= target && n !in p
  }

  ghost predicate Fits(g: Graph, d: Distance, target: nat, p: Path) {
    Closed(g) && p != [] && Last(p) in g && Last(p) in d && d[Last(p)] <= target
  }

  /** The paths the walk finds from `p` on, in the order in which it finds them. */
  ghost function Extensions(g: Graph, d: Distance, goal: string, target: nat, p: Path): seq<Path>
    requires Fits(g, d, target, p)
    decreases target - d[Last(p)], |g[Last(p)]| + 1
  {
    if Last(p) == goal then [p] else Branches(g, d, goal, target, p, |g[Last(p)]|)
  }

  /** The part of them that goes through the first `i` neighbours. */
  ghost function Branches(g: Graph, d: Distance, goal: string, target: nat, p: Path, i: nat): seq<Path>
    requires Fits(g, d, target, p) && i <= |g[Last(p)]|
    decreases target - d[Last(p)], i
  {
    if i == 0 then [] else
      var n := g[Last(p)][i - 1];
      Branches(g, d, goal, target, p, i - 1)
      + if GoesOn(d, target, p, n) then Extensions(g, d, goal, target, p + [n]) else []
  }

  // ----- completeness and soundness -----------------------------------------------------

  /** On a shortest path the recorded distance counts the steps. */
  lemma ShortestIsLevelled(g: Graph, d: Distance, start: string, goal: string, maxDepth: nat, p: Path)
    requires Closed(g) && start in g && IsDistanceMap(g, {start}, maxDepth, d)
    requires goal in d && IsShortest(g, start, goal, d[goal], p)
    ensures Levelled(g, d, start, p)
  {
    assert Recorded(d, goal);
    forall i | 0 <= i < |p| ensures p[i] in d && d[p[i]] == i {
      StepCount(g, d, start, goal, maxDepth, p, i);
    }
    BallClosed(g, {start}, maxDepth);
  }

  lemma StepCount(g: Graph, d: Distance, start: string, goal: string, maxDepth: nat, p: Path, i: nat)
    requires IsDistanceMap(g, {start}, maxDepth, d)
    requires goal in d && IsShortest(g, start, goal, d[goal], p) && i < |p|
    ensures p[i] in d && d[p[i]] == i
  {
    var v, n := p[i], d[goal];
    assert Recorded(d, goal);
    Segment(g, p, 0, i);
    WalkBall(g, {start}, p[0..i + 1]);
    BallGrows(g, {start}, i, maxDepth);
    RecordedWithin(g, {start}, maxDepth, d, v, i);
    NoShortcut(g, d, start, goal, maxDepth, p, i);
  }

  lemma NoShortcut(g: Graph, d: Distance, start: string, goal: string, maxDepth: nat, p: Path, i: nat)
    requires IsDistanceMap(g, {start}, maxDepth, d)
    requires goal in d && IsShortest(g, start, goal, d[goal], p) && i < |p| && p[i] in d
    ensures i <= d[p[i]]
  {
    var v := p[i];
    var after := p[i..|p| - 1 + 1];
    assert Recorded(d, v);
    Segment(g, p, i, |p| - 1);
    var q := BallWalk(g, {start}, d[v], v);
    WalkJoin(g, q, after);
    WalkBall(g, {start}, q + after[1..]);
    RecordedWithin(g, {start}, maxDepth, d, goal, |q + after[1..]| - 1);
  }

  lemma LevelledStep(g: Graph, d: Distance, start: string, target: nat, p: Path, n: string)
    requires Closed(g) && Levelled(g, d, start, p) && Edge(g, Last(p), n) && GoesOn(d, target, p, n)
    ensures Levelled(g, d, start, p + [n])
  {
    var q := p + [n];
    forall i | 0 <= i < |q| - 1 ensures Step(g, q, i) {
      if i < |p| - 1 { assert Step(g, p, i); }
    }
  }

  /** The next node of a shortest path passes the test. */
  lemma GoesOnAlong(g: Graph, d: Distance, start: string, target: nat, p: Path, q: Path)
    requires Levelled(g, d, start, p) && Levelled(g, d, start, q) && p <= q && |p| < |q| <= target + 1
    ensures Edge(g, Last(p), q[|p|]) && GoesOn(d, target, p, q[|p|])
  {
    assert Step(g, q, |p| - 1);
    assert q[|p| - 1] == Last(p);
    assert forall i :: 0 <= i < |p| ==> d[p[i]] == i;
  }

  lemma ProperPrefix(p: Path, q: Path)
    requires p <= q && p != q
    ensures |p| < |q|
  {
    assert p + q[|p|..] == q;
  }

  /** Exactly the shortest paths that begin with `p`. */
  lemma {:induction false} ExtensionsExact(g: Graph, d: Distance, start: string, goal: string, maxDepth: nat, p: Path, r: Path)
    requires Closed(g) && start in g && IsDistanceMap(g, {start}, maxDepth, d) && goal in d
    requires Levelled(g, d, start, p) && |p| <= d[goal] + 1
    ensures r in Extensions(g, d, goal, d[goal], p) <==> IsShortest(g, start, goal, d[goal], r) && p <= r
    decreases d[goal] + 1 - |p|, 1, 0
  {
    var n := d[goal];
    if Last(p) == goal {
      assert d[Last(p)] == |p| - 1;
      if IsShortest(g, start, goal, n, r) && p <= r { assert r == p; }
    } else {
      BranchesExact(g, d, start, goal, maxDepth, p, |g[Last(p)]|, r);
      if IsShortest(g, start, goal, n, r) && p <= r {
        ShortestIsLevelled(g, d, start, goal, maxDepth, r);
        ProperPrefix(p, r);
        GoesOnAlong(g, d, start, n, p, r);
        var j :| 0 <= j < |g[Last(p)]| && g[Last(p)][j] == r[|p|];
        assert Through(g, d, start, goal, p, r, j);
      }
    }
  }

  /** `r` is a shortest path that leaves `p` through its neighbour number `j`. */
  ghost predicate Through(g: Graph, d: Distance, start: string, goal: string, p: Path, r: Path, j: int) {
    && goal in d && p != [] && Last(p) in g && Last(p) in d && 0 <= j < |g[Last(p)]|
    && GoesOn(d, d[goal], p, g[Last(p)][j])
    && IsShortest(g, start, goal, d[goal], r)
    && p + [g[Last(p)][j]] <= r
  }

  lemma {:induction false} BranchesExact(g: Graph, d: Distance, start: string, goal: string, maxDepth: nat, p: Path, i: nat, r: Path)
    requires Closed(g) && start in g && IsDistanceMap(g, {start}, maxDepth, d) && goal in d
    requires Levelled(g, d, start, p) && |p| <= d[goal] + 1 && i <= |g[Last(p)]|
    ensures r in Branches(g, d, goal, d[goal], p, i) <==> exists j :: j < i && Through(g, d, start, goal, p, r, j)
    decreases d[goal] + 1 - |p|, 0, i
  {
    if i > 0 {
      var n := g[Last(p)][i - 1];
      BranchesExact(g, d, start, goal, maxDepth, p, i - 1, r);
      if GoesOn(d, d[goal], p, n) {
        LevelledStep(g, d, start, d[goal], p, n);
        assert d[Last(p)] == |p| - 1;
        ExtensionsExact(g, d, start, goal, maxDepth, p + [n], r);
      }
      assert r in Branches(g, d, goal, d[goal], p, i)
        <==> r in Branches(g, d, goal, d[goal], p, i - 1) || Through(g, d, start, goal, p, r, i - 1);
    }
  }

  // ----- order --------------------------------------------------------------------------

  predicate TupleLt(a: Path, b: Path) {
    TupleLe(a, b) && a != b
  }

  /** In strictly ascending lexicographic order: sorted, and no path twice. */
  ghost predicate Listed(s: seq<Path>) {
    Ordered(s, TupleLt)
  }

  lemma {:induction false} PrefixOrders(p: Path, m: string, n: string, a: Path, b: Path)
    requires p + [m] <= a && p + [n] <= b && Lt(m, n)
    ensures TupleLt(a, b)
  {
    if p == [] {
      assert a[0] == m && b[0] == n;
    } else {
      assert a[0] == p[0] && b[0] == p[0];
      assert a[1..][..|p|] == p[1..] + [m] && b[1..][..|p|] == p[1..] + [n];
      PrefixOrders(p[1..], m, n, a[1..], b[1..]);
    }
  }

  lemma ListedJoin(a: seq<Path>, b: seq<Path>)
    requires Listed(a) && Listed(b) && forall x, y :: x in a && y in b ==> TupleLt(x, y)
    ensures Listed(a + b)
  {
    var c := a + b;
    forall i, j | 0 <= i < j < |c| ensures InOrder(c, TupleLt, i, j) {
      if j < |a| {
        assert InOrder(a, TupleLt, i, j);
      } else if i >= |a| {
        assert InOrder(b, TupleLt, i - |a|, j - |a|);
      } else {
        assert c[i] in a && c[j] in b;
      }
    }
  }

  lemma {:induction false} ExtensionsListed(g: Graph, d: Distance, start: string, goal: string, maxDepth: nat, p: Path)
    requires Closed(g) && start in g && IsDistanceMap(g, {start}, maxDepth, d) && goal in d
    requires forall v :: v in g ==> Ascending(g[v])
    requires Levelled(g, d, start, p) && |p| <= d[goal] + 1
    ensures Listed(Extensions(g, d, goal, d[goal], p))
    decreases d[goal] + 1 - |p|, 1, 0
  {
    if Last(p) != goal {
      BranchesListed(g, d, start, goal, maxDepth, p, |g[Last(p)]|);
    }
  }

  lemma {:induction false} BranchesListed(g: Graph, d: Distance, start: string, goal: string, maxDepth: nat, p: Path, i: nat)
    requires Closed(g) && start in g && IsDistanceMap(g, {start}, maxDepth, d) && goal in d
    requires forall v :: v in g ==> Ascending(g[v])
    requires Levelled(g, d, start, p) && |p| <= d[goal] + 1 && i <= |g[Last(p)]|
    ensures Listed(Branches(g, d, goal, d[goal], p, i))
    decreases d[goal] + 1 - |p|, 0, i
  {
    if i > 0 {
      var next := g[Last(p)];
      var n := next[i - 1];
      BranchesListed(g, d, start, goal, maxDepth, p, i - 1);
      if GoesOn(d, d[goal], p, n) {
        LevelledStep(g, d, start, d[goal], p, n);
        assert d[Last(p)] == |p| - 1;
        ExtensionsListed(g, d, start, goal, maxDepth, p + [n]);
        var a := Branches(g, d, goal, d[goal], p, i - 1);
        var b := Extensions(g, d, goal, d[goal], p + [n]);
        forall x, y | x in a && y in b ensures TupleLt(x, y) {
          BranchesExact(g, d, start, goal, maxDepth, p, i - 1, x);
          ExtensionsExact(g, d, start, goal, maxDepth, p + [n], y);
          var j :| j < i - 1 && Through(g, d, start, goal, p, x, j);
          assert Precedes(next, j, i - 1);
          PrefixOrders(p, next[j], n, x, y);
        }
        ListedJoin(a, b);
      } else {
        assert Branches(g, d, goal, d[goal], p, i) == Branches(g, d, goal, d[goal], p, i - 1);
      }
    }
  }

  // ----- the capped walk ----------------------------------------------------------------

  function Take(s: seq<Path>, n: nat): seq<Path> {
    if |s| <= n then s else s[..n]
  }

  lemma TakeTake(a: seq<Path>, b: seq<Path>, c: seq<Path>, n: nat)
    ensures Take(Take(a + b, n) + c, n) == Take(a + (b + c), n)
  {
    assert a + (b + c) == (a + b) + c;
  }

  class PathSearch {
    const graph: Graph
    const distance: Distance
    const goal: string
    const target: nat
    const maxPaths: nat
    var paths: seq<Path>

    constructor (g: Graph, d: Distance, goal: string, target: nat, maxPaths: nat)
      ensures graph == g && distance == d && this.goal == goal && this.target == target && this.maxPaths == maxPaths
      ensures paths == []
    {
      graph, distance, this.goal, this.target, this.maxPaths := g, d, goal, target, maxPaths;
      paths := [];
    }

    /** Adds the paths found from `path` on, as many as there is room for. */
    method Walk(path: Path)
      requires Fits(graph, distance, target, path) && |paths| <= maxPaths
      modifies this
      ensures paths == Take(old(paths) + Extensions(graph, distance, goal, target, path), maxPaths)
      decreases target - distance[Last(path)]
    {
      if |paths| >= maxPaths {
        return;
      }
      var current := Last(path);
      if current == goal {
        paths := paths + [path];
        return;
      }
      for i := 0 to |graph[current]|
        invariant paths == Take(old(paths) + Branches(graph, distance, goal, target, path, i), maxPaths)
      {
        var neighbor := graph[current][i];
        ghost var found := Branches(graph, distance, goal, target, path, i);
        if GoesOn(distance, target, path, neighbor) {
          Walk(path + [neighbor]);
          TakeTake(old(paths), found, Extensions(graph, distance, goal, target, path + [neighbor]), maxPaths);
        } else {
          assert Branches(graph, distance, goal, target, path, i + 1) == found;
        }
      }
    }
  }

  ghost predicate ListsShortest(g: Graph, start: string, goal: string, n: nat, all: seq<Path>) {
    Listed(all) && forall p :: p in all <==> IsShortest(g, start, goal, n, p)
  }

  /** The answer to a bridge query: nothing if the goal is out of reach, else the
      lexicographically first `maxPaths` of all shortest paths (all of them if there are
      no more than that). */
  ghost predicate BridgePaths(g: Graph, start: string, goal: string, maxDepth: nat, maxPaths: nat, paths: seq<Path>) {
    && (goal !in Ball(g, {start}, maxDepth) ==> paths == [])
    && (goal in Ball(g, {start}, maxDepth) ==>
          exists n: nat, all: seq<Path> :: AtDistance(g, {start}, goal, n) && ListsShortest(g, start, goal, n, all) && paths == Take(all, maxPaths))
  }

  lemma TakeListed(s: seq<Path>, n: nat)
    requires Listed(s)
    ensures Listed(Take(s, n))
    ensures SortBy(Take(s, n), TupleLe) == Take(s, n)
  {
    var t := Take(s, n);
    forall i, j | 0 <= i < j < |t| ensures InOrder(t, TupleLt, i, j) && InOrder(t, TupleLe, i, j) {
      assert InOrder(s, TupleLt, i, j);
    }
    SortByIdle(t, TupleLe);
  }

  lemma AllListed(g: Graph, d: Distance, start: string, goal: string, maxDepth: nat)
    requires Closed(g) && start in g && IsDistanceMap(g, {start}, maxDepth, d) && goal in d
    requires forall v :: v in g ==> Ascending(g[v])
    ensures Levelled(g, d, start, [start])
    ensures ListsShortest(g, start, goal, d[goal], Extensions(g, d, goal, d[goal], [start]))
  {
    var p := [start];
    assert AtDistance(g, {start}, start, 0);
    BallGrows(g, {start}, 0, maxDepth);
    assert Recorded(d, start);
    DistanceUnique(g, {start}, start, d[start], 0);
    ExtensionsListed(g, d, start, goal, maxDepth, p);
    forall r ensures r in Extensions(g, d, goal, d[goal], p) <==> IsShortest(g, start, goal, d[goal], r) {
      ExtensionsExact(g, d, start, goal, maxDepth, p, r);
    }
  }

  /** The paths of a bridge query between different nodes. The closing sort changes nothing. */
  method FindPaths(g: Graph, start: string, goal: string, maxDepth: nat, maxPaths: nat) returns (paths: seq<Path>)
    requires Closed(g) && start in g && forall v :: v in g ==> Ascending(g[v])
    ensures BridgePaths(g, start, goal, maxDepth, maxPaths, paths)
  {
    var distance := ShortestDistances(g, start, maxDepth);
    if goal !in distance {
      return [];
    }
    AllListed(g, distance, start, goal, maxDepth);
    ghost var all := Extensions(g, distance, goal, distance[goal], [start]);
    var search := new PathSearch(g, distance, goal, distance[goal], maxPaths);
    search.Walk([start]);
    assert search.paths == Take(all, maxPaths);
    TakeListed(all, maxPaths);
    assert Recorded(distance, goal);
    paths := SortBy(search.paths, TupleLe);
  }

  /** A bridge answer is determined by the graph and the query. */
  lemma BridgeUnique(g: Graph, start: string, goal: string, maxDepth: nat, maxPaths: nat, a: seq<Path>, b: seq<Path>)
    requires BridgePaths(g, start, goal, maxDepth, maxPaths, a) && BridgePaths(g, start, goal, maxDepth, maxPaths, b)
    ensures a == b
  {
    if goal in Ball(g, {start}, maxDepth) {
      var m: nat, all: seq<Path> :| AtDistance(g, {start}, goal, m) && ListsShortest(g, start, goal, m, all) && a == Take(all, maxPaths);
      var n: nat, all': seq<Path> :| AtDistance(g, {start}, goal, n) && ListsShortest(g, start, goal, n, all') && b == Take(all', maxPaths);
      DistanceUnique(g, {start}, goal, m, n);
      ListedUnique(all, all');
    }
  }

  lemma {:induction false} ListedUnique(a: seq<Path>, b: seq<Path>)
    requires Listed(a) && Listed(b) && forall p :: p in a <==> p in b
    ensures a == b
  {
    HeadIn(a);
    HeadIn(b);
    if a != [] {
      ListedHead(a, b[0]);
      ListedHead(b, a[0]);
      if a[0] != b[0] { TupleLeAntisym(a[0], b[0]); }
      ListedTail(a);
      ListedTail(b);
      ListedUnique(a[1..], b[1..]);
      assert a == [a[0]] + a[1..] && b == [b[0]] + b[1..];
    }
  }

  lemma ListedHead(s: seq<Path>, p: Path)
    requires Listed(s) && s != [] && p in s
    ensures p == s[0] || TupleLt(s[0], p)
  {
    var j :| 0 <= j < |s| && s[j] == p;
    if j > 0 { assert InOrder(s, TupleLt, 0, j); }
  }

  lemma ListedTail(s: seq<Path>)
    requires Listed(s) && s != []
    ensures Listed(s[1..])
    ensures forall p :: p in s[1..] <==> p in s && p != s[0]
  {
    var t := s[1..];
    forall i, j | 0 <= i < j < |t| ensures InOrder(t, TupleLt, i, j) { assert InOrder(s, TupleLt, i + 1, j + 1); }
    forall p | p in t ensures p != s[0] {
      var j :| 0 <= j < |t| && t[j] == p;
      assert InOrder(s, TupleLt, 0, j + 1);
    }
  }

  /** There is an answer exactly when the goal is within `maxDepth` hops. */
  lemma BridgeFound(g: Graph, start: string, goal: string, maxDepth: nat, maxPaths: nat, paths: seq<Path>)
    requires BridgePaths(g, start, goal, maxDepth, maxPaths, paths) && maxPaths > 0
    ensures paths != [] <==> goal in Ball(g, {start}, maxDepth)
  {
    if goal in Ball(g, {start}, maxDepth) {
      var n: nat, all: seq<Path> :| AtDistance(g, {start}, goal, n) && ListsShortest(g, start, goal, n, all) && paths == Take(all, maxPaths);
      var p := BallWalk(g, {start}, n, goal);
      WalkBall(g, {start}, p);
      if |p| - 1 < n { BallGrows(g, {start}, |p| - 1, n - 1); }
      assert IsShortest(g, start, goal, n, p);
      assert p in all;
    }
  }

  /** Every path of an answer is a walk from start to goal. */
  lemma BridgePathsWalk(g: Graph, start: string, goal: string, maxDepth: nat, maxPaths: nat, paths: seq<Path>)
    requires BridgePaths(g, start, goal, maxDepth, maxPaths, paths)
    ensures forall p :: p in paths ==> WalkFromTo(g, p, start, goal)
  {
    forall p | p in paths ensures WalkFromTo(g, p, start, goal) {
      var n: nat, all: seq<Path> :| AtDistance(g, {start}, goal, n) && ListsShortest(g, start, goal, n, all) && paths == Take(all, maxPaths);
      assert p in all;
    }
  }
}
