/** The dependency stage of an issue: how many layers of unfinished work lie below it,
    with 999 standing for "cannot be resolved". */
module Stages {
  import opened Graphs
  import opened Memos

  const UNRESOLVED := 999

  ghost predicate ChainFrom(g: Graph, c: seq<string>, p: string) {
    Walk(g, c) && c[0] == p
  }

  /** A chain that makes `p` unresolvable: it runs into a missing path, or it has 999 steps
      (as it does for every length once a cycle can be reached). */
  ghost predicate Unresolving(g: Graph, c: seq<string>, p: string) {
    ChainFrom(g, c, p) && (|c| == UNRESOLVED + 1 || c[|c| - 1] !in g)
  }

  /** Every chain from `p` stays on known paths and has at most `n` steps. */
  ghost predicate Bounded(g: Graph, p: string, n: int) {
    forall c :: ChainFrom(g, c, p) ==> |c| <= n + 1 && c[|c| - 1] in g
  }

  /** `n` is the stage of `p`: the length of the longest dependency chain from `p`, or 999. */
  ghost predicate IsStage(g: Graph, p: string, n: int) {
    && 0 <= n <= UNRESOLVED
    && (n < UNRESOLVED ==> Bounded(g, p, n) && exists c :: ChainFrom(g, c, p) && |c| == n + 1)
    && (n == UNRESOLVED ==> exists c :: Unresolving(g, c, p))
  }

  /** An issue has only one stage. */
  lemma StageUnique(g: Graph, p: string, m: int, n: int)
    requires IsStage(g, p, m) && IsStage(g, p, n)
    ensures m == n
  {
    if m < n {
      StageNotAbove(g, p, m, n);
    } else if n < m {
      StageNotAbove(g, p, n, m);
    }
  }

  lemma StageNotAbove(g: Graph, p: string, m: int, n: int)
    requires IsStage(g, p, m) && IsStage(g, p, n)
    ensures n <= m
  {
    if n < UNRESOLVED {
      var c :| ChainFrom(g, c, p) && |c| == n + 1;
    } else {
      var c :| Unresolving(g, c, p);
    }
  }

  lemma Cons(g: Graph, p: string, c: seq<string>)
    requires Walk(g, c) && Edge(g, p, c[0])
    ensures ChainFrom(g, [p] + c, p)
    ensures ([p] + c)[|c|] == c[|c| - 1]
  {
    var r := [p] + c;
    forall i | 0 <= i < |r| - 1 ensures Step(g, r, i) {
      if i > 0 { assert Step(g, c, i - 1); }
    }
  }

  lemma Take(g: Graph, c: seq<string>, n: nat)
    requires Walk(g, c) && 0 < n <= |c|
    ensures ChainFrom(g, c[..n], c[0])
  {
    forall i | 0 <= i < n - 1 ensures Step(g, c[..n], i) { assert Step(g, c, i); }
  }

  lemma Drop(g: Graph, c: seq<string>)
    requires Walk(g, c) && |c| > 1
    ensures Edge(g, c[0], c[1]) && ChainFrom(g, c[1..], c[1])
  {
    assert Step(g, c, 0);
    forall i | 0 <= i < |c| - 2 ensures Step(g, c[1..], i) { assert Step(g, c, i + 1); }
  }

  // ----- leaves, missing paths, cycles --------------------------------------------------

  lemma LeafStage(g: Graph, p: string)
    requires p in g && g[p] == []
    ensures IsStage(g, p, 0)
  {
    forall c | ChainFrom(g, c, p) ensures |c| <= 1 && c[|c| - 1] in g {
      assert Step(g, c, 0);
    }
    assert ChainFrom(g, [p], p);
  }

  lemma MissingStage(g: Graph, p: string)
    requires p !in g
    ensures IsStage(g, p, UNRESOLVED)
  {
    assert Unresolving(g, [p], p);
  }

  /** At least one step from `x` to `y`. */
  ghost predicate Below(g: Graph, x: string, y: string) {
    exists c :: WalkFromTo(g, c, x, y) && |c| > 1
  }

  lemma BelowStep(g: Graph, x: string, y: string, z: string)
    requires x == y || Below(g, x, y)
    requires Edge(g, y, z)
    ensures Below(g, x, z)
  {
    assert WalkFromTo(g, [y, z], y, z) by { assert Step(g, [y, z], 0); }
    if x != y {
      var c :| WalkFromTo(g, c, x, y) && |c| > 1;
      WalkJoin(g, c, [y, z]);
    }
  }

  /** Around a cycle there are chains of every length. */
  lemma {:induction false} Pump(g: Graph, p: string, c: seq<string>, n: nat) returns (d: seq<string>)
    requires WalkFromTo(g, c, p, p) && |c| > 1
    ensures WalkFromTo(g, d, p, p) && |d| > n
  {
    if n == 0 {
      d := c;
    } else {
      var e := Pump(g, p, c, n - 1);
      WalkJoin(g, e, c);
      d := e + c[1..];
    }
  }

  lemma CycleStage(g: Graph, p: string)
    requires Below(g, p, p)
    ensures IsStage(g, p, UNRESOLVED)
  {
    var c :| WalkFromTo(g, c, p, p) && |c| > 1;
    var d := Pump(g, p, c, UNRESOLVED);
    Take(g, d, UNRESOLVED + 1);
    assert Unresolving(g, d[..UNRESOLVED + 1], p);
  }

  /** Whatever leads to an unresolvable issue is unresolvable. */
  lemma UnresolvedUp(g: Graph, p: string, q: string)
    requires Edge(g, p, q) && IsStage(g, q, UNRESOLVED)
    ensures IsStage(g, p, UNRESOLVED)
  {
    var c :| Unresolving(g, c, q);
    Cons(g, p, c);
    var d := [p] + c;
    if |d| > UNRESOLVED + 1 {
      Take(g, d, UNRESOLVED + 1);
      assert Unresolving(g, d[..UNRESOLVED + 1], p);
    } else {
      assert Unresolving(g, d, p);
    }
  }

  // ----- one layer ----------------------------------------------------------------------

  function Max(s: seq<int>): (m: int)
    requires s != []
    ensures m in s && forall x :: x in s ==> x <= m
  {
    if |s| == 1 then s[0] else
      var r := Max(s[1..]);
      assert forall x :: x in s <==> x == s[0] || x in s[1..];
      if s[0] > r then s[0] else r
  }

  predicate AnyUnresolved(s: seq<int>) {
    exists i :: 0 <= i < |s| && s[i] >= UNRESOLVED
  }

  function Combine(s: seq<int>): int
    requires s != []
  {
    if AnyUnresolved(s) then UNRESOLVED else Max(s) + 1
  }

  lemma StageStep(g: Graph, p: string, stages: seq<int>)
    requires p in g && |stages| == |g[p]| > 0
    requires forall j :: 0 <= j < |stages| ==> IsStage(g, g[p][j], stages[j])
    ensures IsStage(g, p, Combine(stages))
  {
    if AnyUnresolved(stages) {
      var j :| 0 <= j < |stages| && stages[j] >= UNRESOLVED;
      UnresolvedUp(g, p, g[p][j]);
    } else {
      var m := Max(stages);
      assert forall j :: 0 <= j < |stages| ==> stages[j] in stages && stages[j] < UNRESOLVED;
      StageAbove(g, p, stages, m);
      var j :| 0 <= j < |stages| && stages[j] == m;
      var c :| ChainFrom(g, c, g[p][j]) && |c| == m + 1;
      Cons(g, p, c);
      assert m + 1 == UNRESOLVED ==> Unresolving(g, [p] + c, p);
    }
  }

  lemma StageAbove(g: Graph, p: string, stages: seq<int>, m: int)
    requires p in g && |stages| == |g[p]| && 0 <= m
    requires forall j :: 0 <= j < |stages| ==> IsStage(g, g[p][j], stages[j]) && stages[j] <= m < UNRESOLVED
    ensures Bounded(g, p, m + 1)
  {
    forall c | ChainFrom(g, c, p) ensures |c| <= m + 2 && c[|c| - 1] in g {
      if |c| > 1 {
        Drop(g, c);
        var j :| 0 <= j < |g[p]| && g[p][j] == c[1];
        assert Bounded(g, c[1], stages[j]);
        assert c[1..][|c| - 2] == c[|c| - 1];
      }
    }
  }

  // ----- what the sentinel means --------------------------------------------------------

  lemma {:induction false} UnresolvedAlong(g: Graph, c: seq<string>)
    requires Walk(g, c) && IsStage(g, c[|c| - 1], UNRESOLVED)
    ensures IsStage(g, c[0], UNRESOLVED)
  {
    if |c| > 1 {
      Drop(g, c);
      UnresolvedAlong(g, c[1..]);
      UnresolvedUp(g, c[0], c[1]);
    }
  }

  /** What can put an issue beyond resolution. */
  ghost predicate ReachesMissing(g: Graph, p: string) {
    exists q :: Reach(g, p, q) && q !in g
  }

  ghost predicate ReachesCycle(g: Graph, p: string) {
    exists q :: Reach(g, p, q) && Below(g, q, q)
  }

  ghost predicate LongChain(g: Graph, p: string) {
    exists c :: ChainFrom(g, c, p) && |c| == UNRESOLVED + 1 && NoRepeats(c) && c[|c| - 1] in g
  }

  /** Stage 999 says: a missing path or a cycle can be reached, or there is a chain of 999
      distinct issues below this one. */
  lemma SentinelMeaning(g: Graph, p: string)
    ensures IsStage(g, p, UNRESOLVED) <==> ReachesMissing(g, p) || ReachesCycle(g, p) || LongChain(g, p)
  {
    if IsStage(g, p, UNRESOLVED) {
      var c :| Unresolving(g, c, p);
      if c[|c| - 1] !in g {
        assert WalkFromTo(g, c, p, c[|c| - 1]);
      } else if !NoRepeats(c) {
        var i, j :| 0 <= i < j < |c| && c[i] == c[j];
        Segment(g, c, 0, i);
        Segment(g, c, i, j);
        assert Reach(g, p, c[i]) && Below(g, c[i], c[i]);
      }
    }
    if q :| Reach(g, p, q) && (q !in g || Below(g, q, q)) {
      if q !in g { MissingStage(g, q); } else { CycleStage(g, q); }
      var c :| WalkFromTo(g, c, p, q);
      UnresolvedAlong(g, c);
    }
    if c :| ChainFrom(g, c, p) && |c| == UNRESOLVED + 1 && NoRepeats(c) && c[|c| - 1] in g {
      assert Unresolving(g, c, p);
    }
  }

  lemma SubsetCard(a: set<string>, b: set<string>)
    requires a <= b
    ensures |a| <= |b|
  {
    assert b == a + (b - a);
  }

  /** With fewer than 1000 issues the sentinel never stands for a long but sound chain. */
  lemma SentinelSound(g: Graph, p: string)
    requires |g| <= UNRESOLVED
    ensures IsStage(g, p, UNRESOLVED) <==> ReachesMissing(g, p) || ReachesCycle(g, p)
  {
    SentinelMeaning(g, p);
    forall c | ChainFrom(g, c, p) && NoRepeats(c) && c[|c| - 1] in g ensures |c| <= UNRESOLVED {
      NoRepeatsCard(c);
      forall x | x in c ensures x in g {
        var i :| 0 <= i < |c| && c[i] == x;
        assert Step(g, c, i);
      }
      assert |g| == |g.Keys|;
      SubsetCard(Elems(c), g.Keys);
    }
  }

  // ----- a sound chain that is too long -------------------------------------------------

  function Rung(i: nat): string { seq(i, _ => 'x') }

  /** Issues 0 to `n`, each depending on the next. */
  function Ladder(n: nat): Graph {
    var rungs := set i | 0 <= i <= n :: Rung(i);
    map p | p in rungs :: if |p| < n then [Rung(|p| + 1)] else []
  }

  lemma RungIn(n: nat, i: nat)
    ensures |Rung(i)| == i && (Rung(i) in Ladder(n) <==> i <= n)
  {
  }

  lemma LadderEdge(n: nat, p: string, q: string)
    requires Edge(Ladder(n), p, q)
    ensures |q| == |p| + 1 && q in Ladder(n)
  {
    RungIn(n, |p| + 1);
  }

  lemma {:induction false} LadderWalk(n: nat, c: seq<string>)
    requires Walk(Ladder(n), c) && c[0] in Ladder(n)
    ensures |c[|c| - 1]| == |c[0]| + |c| - 1 && c[|c| - 1] in Ladder(n)
  {
    if |c| > 1 {
      assert Step(Ladder(n), c, 0);
      LadderEdge(n, c[0], c[1]);
      Drop(Ladder(n), c);
      LadderWalk(n, c[1..]);
    }
  }

  lemma LadderSound(n: nat, p: string)
    requires p in Ladder(n)
    ensures !ReachesMissing(Ladder(n), p) && !ReachesCycle(Ladder(n), p)
  {
    forall q | Reach(Ladder(n), p, q) ensures q in Ladder(n) && !Below(Ladder(n), q, q) {
      var c :| WalkFromTo(Ladder(n), c, p, q);
      LadderWalk(n, c);
      forall d | WalkFromTo(Ladder(n), d, q, q) ensures |d| <= 1 { LadderWalk(n, d); }
    }
  }

  lemma LadderChain(n: nat) returns (c: seq<string>)
    ensures ChainFrom(Ladder(n), c, Rung(0)) && |c| == n + 1 && NoRepeats(c) && c[n] in Ladder(n)
  {
    c := seq(n + 1, (i: nat) => Rung(i));
    forall i | 0 <= i < n ensures Step(Ladder(n), c, i) {
      RungIn(n, i);
      assert c[i + 1] == Rung(i + 1);
    }
    forall i, j | 0 <= i < j < |c| ensures c[i] != c[j] { RungIn(n, i); RungIn(n, j); }
    RungIn(n, n);
  }

  /** On a ladder of 1000 issues the first has stage 999, though nothing is missing or cyclic. */
  lemma SoundButUnresolved()
    ensures var g, p := Ladder(UNRESOLVED), Rung(0);
            && LongChain(g, p) && !ReachesMissing(g, p) && !ReachesCycle(g, p)
            && IsStage(g, p, UNRESOLVED)
  {
    RungIn(UNRESOLVED, 0);
    LadderSound(UNRESOLVED, Rung(0));
    var c := LadderChain(UNRESOLVED);
    SentinelMeaning(Ladder(UNRESOLVED), Rung(0));
  }

  // ----- the memoised search ------------------------------------------------------------

  class StageSearch {
    const byPath: map<string, IssueMemo>
    var stageCache: map<string, int>

    ghost function G(): Graph { DependencyGraph(byPath) }

    /** Whatever is cached is right. */
    ghost predicate Valid()
      reads this
    {
      forall q :: q in stageCache ==> IsStage(G(), q, stageCache[q])
    }

    constructor (m: map<string, IssueMemo>)
      ensures byPath == m && Valid()
    {
      byPath := m;
      stageCache := map[];
    }

    /** The answer is the stage of `path`, whatever is cached and whatever is above it. */
    method DependencyStage(path: string, above: set<string>) returns (r: int)
      requires Valid()
      requires forall s :: s in above ==> Below(G(), s, path)
      modifies this
      ensures Valid()
      ensures IsStage(G(), path, r)
      ensures stageCache.Keys >= old(stageCache.Keys)
      decreases byPath.Keys - above
    {
      if path in stageCache {
        return stageCache[path];
      }
      if path in above {
        CycleStage(G(), path);
        return UNRESOLVED;
      }
      if path !in byPath {
        MissingStage(G(), path);
        return UNRESOLVED;
      }
      var issue := byPath[path];
      if issue.status == DONE || issue.dependencyPaths == [] {
        LeafStage(G(), path);
        stageCache := stageCache[path := 0];
        return 0;
      }
      var deps := issue.dependencyPaths;
      assert G()[path] == deps;
      var stages: seq<int> := [];
      for i := 0 to |deps|
        invariant Valid() && stageCache.Keys >= old(stageCache.Keys)
        invariant |stages| == i && forall j :: 0 <= j < i ==> IsStage(G(), deps[j], stages[j])
      {
        assert Edge(G(), path, deps[i]);
        forall s | s in above + {path} ensures Below(G(), s, deps[i]) {
          BelowStep(G(), s, path, deps[i]);
        }
        var stage := DependencyStage(deps[i], above + {path});
        stages := stages + [stage];
      }
      StageStep(G(), path, stages);
      r := Combine(stages);
      stageCache := stageCache[path := r];
    }
  }
}
