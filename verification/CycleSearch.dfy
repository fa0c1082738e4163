/** The search for dependency cycles: one depth-first pass that numbers vertices, keeps
    the open ones on a stack, and pops a strongly connected component whenever a vertex
    cannot reach anything older than itself. */
module CycleSearch {
  import opened Folding
  import opened Ordering
  import opened Graphs

  /** What the search has established so far. `gray` and `comps` are proof state: the
      vertices whose visit is under way, and every component popped, singletons included. */
  datatype Env = Env(next: nat, num: map<string, nat>, stack: seq<string>, gray: set<string>, comps: seq<set<string>>)

  /** Visited and popped. */
  function Done(e: Env): set<string> {
    e.num.Keys - Elems(e.stack)
  }

  ghost predicate Numbered(g: Graph, e: Env) {
    && e.num.Keys <= g.Keys
    && (forall x :: x in e.num ==> e.num[x] < e.next)
    && (forall x :: x in e.stack ==> x in e.num)
    && (forall i, j :: 0 <= i < j < |e.stack| ==> e.num[e.stack[i]] < e.num[e.stack[j]])
    && (forall x :: x in e.gray ==> x in e.stack)
  }

  /** No finished vertex has an unvisited successor; no popped one a successor still open. */
  ghost predicate Explored(g: Graph, e: Env) {
    && (forall x, y :: x in e.num && x !in e.gray && Edge(g, x, y) ==> y in e.num)
    && (forall x, y :: x in Done(e) && Edge(g, x, y) ==> y in Done(e))
  }

  ghost predicate OlderGray(g: Graph, e: Env, y: string, z: string)
    requires Numbered(g, e) && y in e.stack
  {
    z in e.gray && e.num[z] <= e.num[y] && Reach(g, y, z)
  }

  ghost predicate Anchored(g: Graph, e: Env, y: string)
    requires Numbered(g, e) && y in e.stack
  {
    exists z :: OlderGray(g, e, y, z)
  }

  /** The stack is a chain under reachability, and everything on it can reach a vertex
      whose visit is under way and which is at least as old. */
  ghost predicate Chained(g: Graph, e: Env)
    requires Numbered(g, e)
  {
    && (forall i, j :: 0 <= i <= j < |e.stack| ==> Reach(g, e.stack[i], e.stack[j]))
    && (forall y {:trigger Anchored(g, e, y)} :: y in e.stack ==> Anchored(g, e, y))
  }

  predicate Popped(comps: seq<set<string>>, x: string) {
    exists i :: 0 <= i < |comps| && x in comps[i]
  }

  /** The popped components are strongly connected components, pairwise disjoint, and
      together exactly the popped vertices. */
  ghost predicate Split(g: Graph, e: Env) {
    && (forall i :: 0 <= i < |e.comps| ==> IsScc(g, e.comps[i]))
    && (forall i, j :: 0 <= i < j < |e.comps| ==> e.comps[i] !! e.comps[j])
    && (forall i :: 0 <= i < |e.comps| ==> e.comps[i] <= Done(e))
    && (forall x {:trigger Popped(e.comps, x)} :: x in Done(e) ==> Popped(e.comps, x))
  }

  ghost predicate Inv(g: Graph, e: Env) {
    Closed(g) && Numbered(g, e) && Explored(g, e) && Chained(g, e) && Split(g, e)
  }

  ghost predicate Extends(a: Env, b: Env) {
    && a.stack <= b.stack
    && a.comps <= b.comps
    && a.next <= b.next
    && (forall x :: x in a.num ==> x in b.num && b.num[x] == a.num[x])
    && (forall x :: x in b.num && x !in a.num ==> a.next <= b.num[x])
  }

  lemma ExtendsTrans(a: Env, b: Env, c: Env)
    requires Extends(a, b) && Extends(b, c)
    ensures Extends(a, c)
  {
  }

  /** `low` bounds every edge from the part of the stack above `from` back into `base`. */
  ghost predicate Bounds(g: Graph, base: Env, e: Env, from: nat, low: nat)
    requires Numbered(g, base)
  {
    forall i, y :: from <= i < |e.stack| && y in base.stack && Edge(g, e.stack[i], y) ==> low <= base.num[y]
  }

  /** Some vertex of `base`'s stack carries the number `low` and is reachable from `v`. */
  ghost predicate Witnessed(g: Graph, base: Env, v: string, low: nat)
    requires Numbered(g, base)
  {
    exists y :: y in base.stack && base.num[y] == low && Reach(g, v, y)
  }

  ghost predicate CanVisit(g: Graph, e: Env, v: string) {
    Inv(g, e) && v in g && v !in e.num && forall z :: z in e.gray ==> Reach(g, z, v)
  }

  /** The contract of one visit, from `a` to `b`, with resulting low link `low`. */
  ghost predicate Visited(g: Graph, a: Env, b: Env, v: string, low: nat)
    requires Numbered(g, a)
  {
    && Inv(g, b)
    && Extends(a, b)
    && b.gray == a.gray
    && v in b.num && b.num[v] == a.next
    && Bounds(g, a, b, |a.stack|, low)
    && ((b.stack == a.stack && low == a.next) || (Witnessed(g, a, v, low) && low < a.next))
  }

  // ----- opening a vertex ---------------------------------------------------------------

  function Push(e: Env, v: string): Env {
    Env(e.next + 1, e.num[v := e.next], e.stack + [v], e.gray + {v}, e.comps)
  }

  lemma PushNumbered(g: Graph, e: Env, v: string)
    requires CanVisit(g, e, v)
    ensures Numbered(g, Push(e, v)) && Extends(e, Push(e, v))
    ensures Done(Push(e, v)) == Done(e)
  {
  }

  lemma PushChained(g: Graph, e: Env, v: string)
    requires CanVisit(g, e, v) && Numbered(g, Push(e, v))
    ensures Chained(g, Push(e, v))
  {
    var f := Push(e, v);
    ReachRefl(g, v);
    forall i | 0 <= i < |e.stack| ensures Reach(g, e.stack[i], v) {
      assert e.stack[i] in e.stack;
      assert Anchored(g, e, e.stack[i]);
      var z :| OlderGray(g, e, e.stack[i], z);
      ReachTrans(g, e.stack[i], z, v);
    }
    forall y | y in f.stack ensures Anchored(g, f, y) {
      if y == v {
        assert OlderGray(g, f, v, v);
      } else {
        assert Anchored(g, e, y);
        var z :| OlderGray(g, e, y, z);
        assert OlderGray(g, f, y, z);
      }
    }
  }

  lemma PushInv(g: Graph, e: Env, v: string)
    requires CanVisit(g, e, v)
    ensures Inv(g, Push(e, v)) && Extends(e, Push(e, v))
  {
    PushNumbered(g, e, v);
    PushChained(g, e, v);
  }

  // ----- scanning its successors --------------------------------------------------------

  /** The first `i` successors of `v` are visited, and `low` accounts for those in `a`. */
  ghost predicate Looked(g: Graph, a: Env, v: string, e: Env, i: nat, low: nat)
    requires Numbered(g, a) && v in g
  {
    && i <= |g[v]|
    && (forall j :: 0 <= j < i ==> g[v][j] in e.num)
    && (forall j :: 0 <= j < i && g[v][j] in a.stack ==> low <= a.num[g[v][j]])
  }

  ghost predicate LowLink(g: Graph, a: Env, v: string, low: nat)
    requires Numbered(g, a)
  {
    low <= a.next && (low == a.next || Witnessed(g, a, v, low))
  }

  /** After `i` successors of `v` (opened over `a`) have been looked at, in `e`. */
  ghost predicate Scanned(g: Graph, a: Env, v: string, e: Env, i: nat, low: nat)
    requires Numbered(g, a) && v in g
  {
    && Inv(g, e)
    && Extends(Push(a, v), e)
    && e.gray == a.gray + {v}
    && Bounds(g, a, e, |a.stack| + 1, low)
    && Looked(g, a, v, e, i, low)
    && LowLink(g, a, v, low)
  }

  lemma ScanStart(g: Graph, a: Env, v: string)
    requires CanVisit(g, a, v)
    ensures Scanned(g, a, v, Push(a, v), 0, a.next)
  {
    PushInv(g, a, v);
  }

  lemma ScanCanVisit(g: Graph, a: Env, v: string, e: Env, i: nat, low: nat)
    requires CanVisit(g, a, v) && Scanned(g, a, v, e, i, low)
    requires i < |g[v]| && g[v][i] !in e.num
    ensures CanVisit(g, e, g[v][i])
  {
    var d := g[v][i];
    ReachEdge(g, v, d);
    forall z | z in e.gray ensures Reach(g, z, d) {
      if z != v { ReachTrans(g, z, v, d); }
    }
  }

  function Minimum(a: nat, b: nat): nat { if b < a then b else a }

  /** One successor visited recursively, from `e` to `f`. */
  lemma ScanVisited(g: Graph, a: Env, v: string, e: Env, i: nat, low: nat, f: Env, dlow: nat)
    requires CanVisit(g, a, v) && Scanned(g, a, v, e, i, low)
    requires i < |g[v]| && g[v][i] !in e.num
    requires Visited(g, e, f, g[v][i], dlow)
    ensures Scanned(g, a, v, f, i + 1, Minimum(low, dlow))
  {
    PushNumbered(g, a, v);
    ExtendsTrans(Push(a, v), e, f);
    ExtendsTrans(a, Push(a, v), e);
    BoundsVisited(g, a, e, low, f, dlow);
    LookedVisited(g, a, v, e, i, low, f, Minimum(low, dlow));
    LowVisited(g, a, v, e, g[v][i], low, f, dlow);
  }

  lemma LookedVisited(g: Graph, a: Env, v: string, e: Env, i: nat, low: nat, f: Env, m: nat)
    requires Numbered(g, a) && v in g && i < |g[v]| && Looked(g, a, v, e, i, low)
    requires Extends(a, e) && Extends(e, f) && m <= low
    requires g[v][i] !in e.num && g[v][i] in f.num
    ensures Looked(g, a, v, f, i + 1, m)
  {
  }

  lemma BoundsVisited(g: Graph, a: Env, e: Env, low: nat, f: Env, dlow: nat)
    requires Numbered(g, a) && Numbered(g, e) && Extends(a, e) && Extends(e, f)
    requires |a.stack| < |e.stack|
    requires Bounds(g, a, e, |a.stack| + 1, low) && Bounds(g, e, f, |e.stack|, dlow)
    ensures Bounds(g, a, f, |a.stack| + 1, Minimum(low, dlow))
  {
    InPrefix(a.stack, e.stack);
    forall k, y | |a.stack| + 1 <= k < |f.stack| && y in a.stack && Edge(g, f.stack[k], y)
      ensures Minimum(low, dlow) <= a.num[y]
    {
      assert y in e.stack && e.num[y] == a.num[y];
      if k < |e.stack| {
        assert e.stack[k] == f.stack[k];
      }
    }
  }

  lemma LowVisited(g: Graph, a: Env, v: string, e: Env, d: string, low: nat, f: Env, dlow: nat)
    requires CanVisit(g, a, v) && Numbered(g, e) && Extends(Push(a, v), e)
    requires Edge(g, v, d) && LowLink(g, a, v, low)
    requires (f.stack == e.stack && dlow == e.next) || Witnessed(g, e, d, dlow)
    ensures LowLink(g, a, v, Minimum(low, dlow))
  {
    if dlow < low {
      var y :| y in e.stack && e.num[y] == dlow && Reach(g, d, y);
      ReachEdge(g, v, d);
      ReachTrans(g, v, d, y);
      StackOlder(g, a, v, e, y);
    }
  }

  /** What is on the stack and older than `v` was there before `v` was opened. */
  lemma StackOlder(g: Graph, a: Env, v: string, e: Env, y: string)
    requires CanVisit(g, a, v) && Numbered(g, e) && Extends(Push(a, v), e)
    requires y in e.stack && e.num[y] < a.next
    ensures y in a.stack && a.num[y] == e.num[y]
  {
    PushNumbered(g, a, v);
    var k :| 0 <= k < |e.stack| && e.stack[k] == y;
    var n := |a.stack|;
    assert e.stack[n] == Push(a, v).stack[n] == v;
    assert e.num[v] == a.next;
    assert k < n;
    assert e.stack[k] == Push(a, v).stack[k] == a.stack[k];
  }

  /** One successor already visited: it counts only while it is on the stack. */
  lemma ScanSeen(g: Graph, a: Env, v: string, e: Env, i: nat, low: nat, m: nat)
    requires CanVisit(g, a, v) && Scanned(g, a, v, e, i, low)
    requires i < |g[v]| && g[v][i] in e.num
    requires m == if g[v][i] in e.stack then Minimum(low, e.num[g[v][i]]) else low
    ensures Scanned(g, a, v, e, i + 1, m)
  {
    PushNumbered(g, a, v);
    ExtendsTrans(a, Push(a, v), e);
    LookedSeen(g, a, v, e, i, low, m);
    if m < low {
      StackOlder(g, a, v, e, g[v][i]);
      ReachEdge(g, v, g[v][i]);
      assert LowLink(g, a, v, m);
    }
    assert Bounds(g, a, e, |a.stack| + 1, m);
  }

  lemma LookedSeen(g: Graph, a: Env, v: string, e: Env, i: nat, low: nat, m: nat)
    requires Numbered(g, a) && v in g && i < |g[v]| && Looked(g, a, v, e, i, low)
    requires Extends(a, e) && g[v][i] in e.num
    requires m == if g[v][i] in e.stack then Minimum(low, e.num[g[v][i]]) else low
    ensures Looked(g, a, v, e, i + 1, m)
  {
    InPrefix(a.stack, e.stack);
  }

  // ----- closing it ---------------------------------------------------------------------

  ghost predicate FullyScanned(g: Graph, a: Env, v: string, e: Env, low: nat)
    requires CanVisit(g, a, v)
  {
    Scanned(g, a, v, e, |g[v]|, low)
  }

  lemma AllBounded(g: Graph, a: Env, v: string, e: Env, low: nat)
    requires CanVisit(g, a, v) && FullyScanned(g, a, v, e, low)
    ensures |a.stack| < |e.stack| && e.stack[|a.stack|] == v
    ensures e.stack[..|a.stack|] == a.stack
    ensures Bounds(g, a, e, |a.stack|, low)
  {
    PushNumbered(g, a, v);
    var n := |a.stack|;
    assert Push(a, v).stack[n] == v;
    assert Push(a, v).stack <= e.stack;
    assert e.stack[..n] == Push(a, v).stack[..n] == a.stack;
    forall y | y in a.stack && Edge(g, v, y) ensures low <= a.num[y] {
      var j :| 0 <= j < |g[v]| && g[v][j] == y;
    }
  }

  lemma AllVisited(g: Graph, a: Env, v: string, e: Env, low: nat)
    requires Numbered(g, a) && v in g && Looked(g, a, v, e, |g[v]|, low)
    ensures forall y :: Edge(g, v, y) ==> y in e.num
  {
    forall y | Edge(g, v, y) ensures y in e.num {
      var j :| 0 <= j < |g[v]| && g[v][j] == y;
    }
  }

  /** `v` can reach something older: it stays on the stack. */
  lemma Keep(g: Graph, a: Env, v: string, e: Env, low: nat)
    requires CanVisit(g, a, v) && FullyScanned(g, a, v, e, low)
    requires low != a.next
    ensures Visited(g, a, e.(gray := a.gray), v, low)
  {
    var f := e.(gray := a.gray);
    PushNumbered(g, a, v);
    ExtendsTrans(a, Push(a, v), e);
    AllBounded(g, a, v, e, low);
    AllVisited(g, a, v, e, low);
    InPrefix(a.stack, e.stack);
    KeepExplored(g, a, v, e);
    var z := OlderGrayOf(g, a, v, low);
    KeepChained(g, a, v, e, z);
    assert Inv(g, f);
  }

  lemma KeepExplored(g: Graph, a: Env, v: string, e: Env)
    requires Numbered(g, e) && Explored(g, e) && Split(g, e) && e.gray == a.gray + {v}
    requires forall y :: Edge(g, v, y) ==> y in e.num
    ensures Numbered(g, e.(gray := a.gray)) && Explored(g, e.(gray := a.gray)) && Split(g, e.(gray := a.gray))
  {
    assert Done(e.(gray := a.gray)) == Done(e);
  }

  lemma OlderGrayOf(g: Graph, a: Env, v: string, low: nat) returns (z: string)
    requires Numbered(g, a) && Chained(g, a) && Witnessed(g, a, v, low)
    ensures z in a.gray && z in a.num && a.num[z] <= low && Reach(g, v, z)
  {
    var w :| w in a.stack && a.num[w] == low && Reach(g, v, w);
    assert Anchored(g, a, w);
    z :| OlderGray(g, a, w, z);
    ReachTrans(g, v, w, z);
  }

  lemma KeepChained(g: Graph, a: Env, v: string, e: Env, z: string)
    requires Numbered(g, e) && Numbered(g, e.(gray := a.gray)) && Chained(g, e)
    requires e.gray == a.gray + {v}
    requires v in e.num && z in a.gray && e.num[z] <= e.num[v] && Reach(g, v, z)
    ensures Chained(g, e.(gray := a.gray))
  {
    forall y | y in e.stack ensures Anchored(g, e.(gray := a.gray), y) {
      assert Anchored(g, e, y);
      KeepAnchored(g, a, v, e, y, z);
    }
  }

  lemma KeepAnchored(g: Graph, a: Env, v: string, e: Env, y: string, z0: string)
    requires Numbered(g, e) && Numbered(g, e.(gray := a.gray)) && e.gray == a.gray + {v}
    requires v in e.num && z0 in a.gray && e.num[z0] <= e.num[v] && Reach(g, v, z0)
    requires y in e.stack && Anchored(g, e, y)
    ensures Anchored(g, e.(gray := a.gray), y)
  {
    var f := e.(gray := a.gray);
    var z :| OlderGray(g, e, y, z);
    if z == v {
      ReachTrans(g, y, v, z0);
      assert OlderGray(g, f, y, z0);
    } else {
      assert OlderGray(g, f, y, z);
    }
  }

  lemma InPrefix(s: seq<string>, t: seq<string>)
    requires s <= t
    ensures forall x :: x in s ==> x in t
  {
    forall x | x in s ensures x in t {
      var k :| 0 <= k < |s| && s[k] == x;
      assert t[k] == x;
    }
  }

  function Pop(a: Env, e: Env): Env
    requires |a.stack| <= |e.stack|
  {
    Env(e.next, e.num, e.stack[..|a.stack|], a.gray, e.comps + [Elems(e.stack[|a.stack|..])])
  }

  /** The part of the stack above `a` is disjoint from `a`'s stack. */
  lemma TopFresh(g: Graph, a: Env, e: Env)
    requires Numbered(g, e) && a.stack <= e.stack
    ensures e.stack == a.stack + e.stack[|a.stack|..]
    ensures forall x :: x in e.stack[|a.stack|..] ==> x !in a.stack
  {
    var top := e.stack[|a.stack|..];
    forall x | x in top ensures x !in a.stack {
      var i :| 0 <= i < |top| && top[i] == x;
      assert e.stack[|a.stack| + i] == x;
      assert forall j :: 0 <= j < |a.stack| ==> a.stack[j] == e.stack[j];
    }
  }

  /** Nothing leads from the popped vertices to what stays on the stack. */
  lemma PopCloses(g: Graph, a: Env, v: string, e: Env)
    requires CanVisit(g, a, v) && FullyScanned(g, a, v, e, a.next)
    requires |a.stack| <= |e.stack|
    ensures Done(Pop(a, e)) == Done(e) + Elems(e.stack[|a.stack|..])
    ensures forall x, y :: x in Done(Pop(a, e)) && Edge(g, x, y) ==> y in Done(Pop(a, e))
    ensures forall x :: x in Done(e) ==> x !in Elems(e.stack[|a.stack|..])
  {
    AllBounded(g, a, v, e, a.next);
    PushNumbered(g, a, v);
    TopFresh(g, a, e);
    forall x, y | x in e.stack[|a.stack|..] && Edge(g, x, y) ensures y in Done(Pop(a, e)) {
      PopEdge(g, a, v, e, x, y);
    }
  }

  lemma PopEdge(g: Graph, a: Env, v: string, e: Env, x: string, y: string)
    requires CanVisit(g, a, v) && FullyScanned(g, a, v, e, a.next)
    requires |a.stack| <= |e.stack| && Bounds(g, a, e, |a.stack|, a.next)
    requires e.stack[..|a.stack|] == a.stack
    requires x in e.stack[|a.stack|..] && x !in a.stack && Edge(g, x, y)
    ensures y in e.num && y !in a.stack
  {
    var n := |a.stack|;
    var i :| 0 <= i < |e.stack[n..]| && e.stack[n..][i] == x;
    assert e.stack[n + i] == x;
    if x == v {
      AllVisited(g, a, v, e, a.next);
    } else {
      assert x !in e.gray;
    }
  }

  /** Every popped vertex and `v` reach each other. */
  lemma PopMutual(g: Graph, a: Env, v: string, e: Env, x: string)
    requires CanVisit(g, a, v) && FullyScanned(g, a, v, e, a.next)
    requires |a.stack| <= |e.stack| && x in Elems(e.stack[|a.stack|..])
    ensures Reach(g, v, x) && Reach(g, x, v)
  {
    AllBounded(g, a, v, e, a.next);
    PopCloses(g, a, v, e);
    var n := |a.stack|;
    var f := Pop(a, e);
    assert e.stack[n..][0] == v;
    var i :| 0 <= i < |e.stack[n..]| && e.stack[n..][i] == x;
    assert e.stack[n + i] == x;
    assert Reach(g, e.stack[n], e.stack[n + i]);
    assert Anchored(g, e, x);
    var z :| OlderGray(g, e, x, z);
    ReachStaysInside(g, Done(f), x, z);
    assert z == v || z in f.stack;
  }

  /** The popped vertices are one strongly connected component. */
  lemma PopIsScc(g: Graph, a: Env, v: string, e: Env)
    requires CanVisit(g, a, v) && FullyScanned(g, a, v, e, a.next)
    requires |a.stack| <= |e.stack|
    ensures IsScc(g, Elems(e.stack[|a.stack|..]))
  {
    AllBounded(g, a, v, e, a.next);
    PopCloses(g, a, v, e);
    var c := Elems(e.stack[|a.stack|..]);
    var closed := Done(Pop(a, e));
    assert e.stack[|a.stack|..][0] == v;
    assert v in c;
    forall x | x in c ensures Reach(g, v, x) && Reach(g, x, v) { PopMutual(g, a, v, e, x); }
    forall x, y | x in c ensures y in c <==> Mutual(g, x, y) {
      if y in c {
        ReachTrans(g, x, v, y);
        ReachTrans(g, y, v, x);
      }
      if Mutual(g, x, y) {
        ReachStaysInside(g, closed, x, y);
        if y in Done(e) {
          ReachStaysInside(g, Done(e), y, x);
        }
      }
    }
  }

  lemma PopSplit(g: Graph, e: Env, f: Env, c: set<string>)
    requires Split(g, e) && IsScc(g, c) && f.comps == e.comps + [c]
    requires Done(f) == Done(e) + c && Done(e) !! c
    ensures Split(g, f)
  {
    forall x | x in Done(f) ensures Popped(f.comps, x) {
      if x in c {
        assert x in f.comps[|e.comps|];
      } else {
        assert Popped(e.comps, x);
        var i :| 0 <= i < |e.comps| && x in e.comps[i];
        assert x in f.comps[i];
      }
    }
  }

  lemma PopChained(g: Graph, a: Env, f: Env)
    requires Numbered(g, a) && Chained(g, a) && Numbered(g, f)
    requires f.stack == a.stack && f.gray == a.gray
    requires forall x :: x in a.num ==> x in f.num && f.num[x] == a.num[x]
    ensures Chained(g, f)
  {
    forall y | y in f.stack ensures Anchored(g, f, y) {
      assert Anchored(g, a, y);
      var z :| OlderGray(g, a, y, z);
      assert OlderGray(g, f, y, z);
    }
  }

  lemma PopNumbered(g: Graph, a: Env, e: Env, f: Env)
    requires Numbered(g, a) && Numbered(g, e) && Extends(a, e)
    requires f.num == e.num && f.next == e.next && f.stack == a.stack && f.gray == a.gray
    ensures Numbered(g, f)
  {
  }

  lemma PopInv(g: Graph, a: Env, v: string, e: Env)
    requires CanVisit(g, a, v) && FullyScanned(g, a, v, e, a.next)
    requires |a.stack| <= |e.stack|
    ensures Visited(g, a, Pop(a, e), v, a.next)
  {
    var f := Pop(a, e);
    PushNumbered(g, a, v);
    ExtendsTrans(a, Push(a, v), e);
    AllBounded(g, a, v, e, a.next);
    AllVisited(g, a, v, e, a.next);
    PopCloses(g, a, v, e);
    PopIsScc(g, a, v, e);
    PopNumbered(g, a, e, f);
    PopChained(g, a, f);
    PopSplit(g, e, f, Elems(e.stack[|a.stack|..]));
    assert Inv(g, f);
  }

  // ----- the visit, step by step --------------------------------------------------------

  // The search method carries the invariants above through its loop without looking into
  // them; each of the following predicates shows its body only where `Unfold` is mentioned.

  ghost predicate Pending(g: Graph, a: Env, v: string) {
    forall u {:trigger Unfold(u)} :: Unfold(u) ==> CanVisit(g, a, v)
  }

  ghost predicate Scanning(g: Graph, a: Env, v: string, e: Env, i: nat, low: nat) {
    forall u {:trigger Unfold(u)} :: Unfold(u) ==> CanVisit(g, a, v) && Scanned(g, a, v, e, i, low)
  }

  ghost predicate Closing(g: Graph, a: Env, b: Env, v: string, low: nat) {
    forall u {:trigger Unfold(u)} :: Unfold(u) ==> Numbered(g, a) && Visited(g, a, b, v, low)
  }

  ghost predicate Steady(g: Graph, e: Env) {
    forall u {:trigger Unfold(u)} :: Unfold(u) ==> Inv(g, e) && e.gray == {}
  }

  lemma Begin(g: Graph, a: Env, v: string)
    requires Pending(g, a, v)
    ensures v in g && v !in a.num
    ensures Scanning(g, a, v, Push(a, v), 0, a.next)
  {
    assert Unfold(true);
    ScanStart(g, a, v);
  }

  lemma Enter(g: Graph, a: Env, v: string, e: Env, i: nat, low: nat)
    requires v in g && i < |g[v]| && g[v][i] !in e.num
    requires Scanning(g, a, v, e, i, low)
    ensures Pending(g, e, g[v][i])
    ensures v in e.num
    ensures forall x :: x in a.num ==> x in e.num
  {
    assert Unfold(true);
    ScanCanVisit(g, a, v, e, i, low);
  }

  lemma Leave(g: Graph, a: Env, v: string, e: Env, i: nat, low: nat, f: Env, dlow: nat)
    requires v in g && i < |g[v]| && g[v][i] !in e.num
    requires Scanning(g, a, v, e, i, low) && Closing(g, e, f, g[v][i], dlow)
    ensures Scanning(g, a, v, f, i + 1, Minimum(low, dlow))
    ensures Kept(e.num, f.num, {})
  {
    assert Unfold(true);
    ScanVisited(g, a, v, e, i, low, f, dlow);
  }

  lemma Skip(g: Graph, a: Env, v: string, e: Env, i: nat, low: nat, m: nat)
    requires v in g && i < |g[v]| && g[v][i] in e.num
    requires Scanning(g, a, v, e, i, low)
    requires m == if g[v][i] in e.stack then Minimum(low, e.num[g[v][i]]) else low
    ensures Scanning(g, a, v, e, i + 1, m)
  {
    assert Unfold(true);
    ScanSeen(g, a, v, e, i, low, m);
  }

  lemma Scan(g: Graph, a: Env, v: string, e: Env, low: nat)
    requires v in g && Scanning(g, a, v, e, |g[v]|, low)
    ensures |a.stack| < |e.stack| && e.stack[|a.stack|] == v
    ensures forall i, j :: 0 <= i < j < |e.stack| ==> e.stack[i] != e.stack[j]
    ensures v in e.num && e.num[v] == a.next
  {
    assert Unfold(true);
    AllBounded(g, a, v, e, low);
  }

  lemma Close(g: Graph, a: Env, v: string, e: Env, low: nat)
    requires v in g && Scanning(g, a, v, e, |g[v]|, low) && |a.stack| <= |e.stack|
    ensures Closing(g, a, if low == a.next then Pop(a, e) else e.(gray := a.gray), v, low)
  {
    assert Unfold(true);
    if low == a.next {
      PopInv(g, a, v, e);
    } else {
      Keep(g, a, v, e, low);
    }
  }

  // ----- the whole search ---------------------------------------------------------------

  lemma StackEmpty(g: Graph, e: Env)
    requires Inv(g, e) && e.gray == {}
    ensures e.stack == []
  {
    HeadIn(e.stack);
    assert e.stack != [] ==> Anchored(g, e, e.stack[0]);
  }

  lemma InOneOnly(comps: seq<set<string>>, x: string, i: nat, j: nat)
    requires (forall i, j :: 0 <= i < j < |comps| ==> comps[i] !! comps[j]) && i < |comps| && j < |comps| && x in comps[i] && x in comps[j]
    ensures i == j
  {
  }

  /** Between root visits nothing is open: the stack is empty and everything visited is
      in exactly one popped component. */
  lemma NothingOpen(g: Graph, e: Env)
    requires Inv(g, e) && e.gray == {}
    ensures e.stack == []
    ensures forall x :: x in e.num ==> exists i :: 0 <= i < |e.comps| && x in e.comps[i]
    ensures forall x, i, j :: 0 <= i < |e.comps| && 0 <= j < |e.comps| && x in e.comps[i] && x in e.comps[j] ==> i == j
  {
    StackEmpty(g, e);
    assert Done(e) == e.num.Keys;
    forall x | x in e.num ensures exists i :: 0 <= i < |e.comps| && x in e.comps[i] {
      assert Popped(e.comps, x);
    }
    forall x, i, j | 0 <= i < |e.comps| && 0 <= j < |e.comps| && x in e.comps[i] && x in e.comps[j] ensures i == j {
      InOneOnly(e.comps, x, i, j);
    }
  }

  /** The reported part of the popped components: those with two or more members, sorted. */
  function Report(comps: seq<set<string>>): seq<seq<string>> {
    if comps == [] then [] else
      var n := |comps| - 1;
      Report(comps[..n]) + (if |comps[n]| > 1 then [Sorted(comps[n])] else [])
  }

  predicate Reported(comps: seq<set<string>>, c: seq<string>, i: int) {
    0 <= i < |comps| && |comps[i]| > 1 && c == Sorted(comps[i])
  }

  lemma ReportedSplit(comps: seq<set<string>>, pre: seq<set<string>>, c: seq<string>)
    requires comps != [] && pre == comps[..|comps| - 1]
    ensures (exists i :: Reported(comps, c, i))
       <==> (exists i :: Reported(pre, c, i)) || Reported(comps, c, |comps| - 1)
  {
    if i :| Reported(pre, c, i) { assert Reported(comps, c, i); }
    if i :| Reported(comps, c, i) { assert i == |comps| - 1 || Reported(pre, c, i); }
  }

  lemma {:induction false} ReportMembers(comps: seq<set<string>>, c: seq<string>)
    ensures c in Report(comps) <==> exists i :: Reported(comps, c, i)
  {
    if comps != [] {
      var pre := comps[..|comps| - 1];
      ReportMembers(pre, c);
      ReportedSplit(comps, pre, c);
    }
  }

  lemma SortedDiffer(a: set<string>, b: set<string>)
    requires a != {} && a !! b
    ensures Sorted(a) != Sorted(b)
  {
    var x :| x in a;
    assert x in Sorted(a) && x !in Sorted(b);
  }

  lemma {:induction false} ReportDistinct(comps: seq<set<string>>)
    requires forall i :: 0 <= i < |comps| ==> comps[i] != {}
    requires forall i, j :: 0 <= i < j < |comps| ==> comps[i] !! comps[j]
    ensures forall i, j :: 0 <= i < j < |Report(comps)| ==> Report(comps)[i] != Report(comps)[j]
  {
    if comps != [] {
      var n := |comps| - 1;
      var pre := comps[..n];
      ReportDistinct(pre);
      var c := Sorted(comps[n]);
      ReportMembers(pre, c);
      forall i | 0 <= i < n ensures Sorted(pre[i]) != c {
        SortedDiffer(comps[i], comps[n]);
      }
    }
  }

  ghost predicate CycleOf(g: Graph, c: seq<string>, s: set<string>) {
    IsScc(g, s) && |s| >= 2 && c == Sorted(s)
  }

  /** The search's answer: the strongly connected components with at least two members,
      each as its sorted member list, each once, in ascending order. */
  ghost predicate ExactCycles(g: Graph, r: seq<seq<string>>) {
    && (forall c :: c in r <==> exists s :: CycleOf(g, c, s))
    && (forall i, j :: 0 <= i < j < |r| ==> TupleLe(r[i], r[j]) && r[i] != r[j])
  }

  lemma ReportComplete(g: Graph, e: Env, c: seq<string>)
    requires Inv(g, e) && e.stack == [] && e.num.Keys == g.Keys
    ensures c in Report(e.comps) <==> exists s :: CycleOf(g, c, s)
  {
    ReportMembers(e.comps, c);
    if i :| Reported(e.comps, c, i) {
      assert CycleOf(g, c, e.comps[i]);
    }
    if s :| CycleOf(g, c, s) {
      var x :| x in s;
      assert x in Done(e);
      assert Popped(e.comps, x);
      var i :| 0 <= i < |e.comps| && x in e.comps[i];
      SccsDisjoint(g, s, e.comps[i], x);
      assert Reported(e.comps, c, i);
    }
  }

  lemma SortedReport(u: seq<seq<string>>)
    requires forall i, j :: 0 <= i < j < |u| ==> u[i] != u[j]
    ensures var r := SortBy(u, TupleLe);
      && (forall c :: c in r <==> c in u)
      && (forall i, j :: 0 <= i < j < |r| ==> TupleLe(r[i], r[j]) && r[i] != r[j])
  {
    var r := SortBy(u, TupleLe);
    TupleOrder();
    SortByOrdered(u, TupleLe);
    SameElements(r, u);
    forall i, j | 0 <= i < j < |r| ensures TupleLe(r[i], r[j]) && r[i] != r[j] {
      assert InOrder(r, TupleLe, i, j);
      if r[i] == r[j] {
        CountAtLeastTwo(r, i, j);
        CountAtMostOne(u, r[i]);
      }
    }
  }

  lemma ReportExact(g: Graph, e: Env, cycles: seq<seq<string>>)
    requires Steady(g, e) && e.num.Keys == g.Keys && Faithful(cycles, e.comps)
    ensures ExactCycles(g, SortBy(cycles, TupleLe))
  {
    assert Unfold(true);
    NothingOpen(g, e);
    ReportDistinct(e.comps);
    SortedReport(Report(e.comps));
    forall c ensures c in Report(e.comps) <==> exists s :: CycleOf(g, c, s) {
      ReportComplete(g, e, c);
    }
  }

  ghost predicate Faithful(cycles: seq<seq<string>>, comps: seq<set<string>>) {
    forall u {:trigger Unfold(u)} :: Unfold(u) ==> cycles == Report(comps)
  }

  lemma FaithfulStep(cycles: seq<seq<string>>, comps: seq<set<string>>, top: seq<string>, component: seq<string>)
    requires Faithful(cycles, comps)
    requires forall i, j :: 0 <= i < j < |top| ==> top[i] != top[j]
    requires |component| == |top| && forall k :: 0 <= k < |component| ==> component[k] == top[|top| - 1 - k]
    ensures Faithful(if |component| > 1 then cycles + [SortBy(component, Le)] else cycles, comps + [Elems(top)])
  {
    assert Unfold(true);
    ComponentElems(component, top);
    SortByDistinct(component);
    NoRepeatsCard(component);
    assert (comps + [Elems(top)])[..|comps|] == comps;
  }

  /** `b` has every entry of `a`, changed at most at `but`. */
  ghost predicate Kept(a: map<string, nat>, b: map<string, nat>, but: set<string>) {
    forall x :: x in a ==> x in b && (x in but || b[x] == a[x])
  }

  class Search {
    const graph: Graph
    var index: nat
    var indices: map<string, nat>
    var lowlinks: map<string, nat>
    var stack: seq<string>
    var onStack: set<string>
    var cycles: seq<seq<string>>
    ghost var env: Env

    ghost predicate Consistent()
      reads this
    {
      && env.next == index && env.num == indices && env.stack == stack
      && onStack == Elems(stack)
      && lowlinks.Keys == indices.Keys
      && Faithful(cycles, env.comps)
    }

    constructor (g: Graph)
      requires Closed(g)
      ensures graph == g && Consistent() && Steady(g, env)
    {
      graph := g;
      index := 0;
      indices, lowlinks := map[], map[];
      stack, onStack, cycles := [], {}, [];
      env := Env(0, map[], [], {}, []);
    }

    method Visit(path: string)
      requires Consistent() && Pending(graph, env, path)
      modifies this
      ensures Consistent() && path in lowlinks
      ensures Closing(graph, old(env), env, path, lowlinks[path])
      ensures Kept(old(lowlinks), lowlinks, {})
      decreases graph.Keys - indices.Keys, 0
    {
      ghost var a := env;
      Begin(graph, a, path);
      Open(path);

      for i := 0 to |graph[path]|
        invariant Consistent() && path in lowlinks
        invariant Scanning(graph, a, path, env, i, lowlinks[path])
        invariant Kept(old(lowlinks), lowlinks, {path})
        invariant Kept(a.num[path := a.next], indices, {})
      {
        Look(path, i, a);
      }

      Settle(path, a);
    }

    /** Looks at one successor of `path`. */
    method Look(path: string, i: nat, ghost a: Env)
      requires Consistent() && path in graph && i < |graph[path]| && path in lowlinks
      requires Scanning(graph, a, path, env, i, lowlinks[path])
      modifies this
      ensures Consistent() && path in lowlinks
      ensures Scanning(graph, a, path, env, i + 1, lowlinks[path])
      ensures Kept(old(lowlinks), lowlinks, {path})
      ensures Kept(old(indices), indices, {})
      decreases graph.Keys - indices.Keys, 1
    {
      var dep := graph[path][i];
      ghost var e := env;
      ghost var low := lowlinks[path];
      if dep !in indices {
        Enter(graph, a, path, e, i, low);
        Visit(dep);
        Leave(graph, a, path, e, i, low, env, lowlinks[dep]);
        lowlinks := lowlinks[path := Minimum(lowlinks[path], lowlinks[dep])];
      } else {
        if dep in onStack {
          lowlinks := lowlinks[path := Minimum(lowlinks[path], indices[dep])];
        }
        Skip(graph, a, path, e, i, low, lowlinks[path]);
      }
    }

    /** Numbers `path` and puts it on the stack. */
    method Open(path: string)
      requires Consistent()
      modifies this
      ensures Consistent()
      ensures env == Push(old(env), path)
      ensures lowlinks == old(lowlinks)[path := old(index)]
    {
      indices := indices[path := index];
      lowlinks := lowlinks[path := index];
      index := index + 1;
      stack := stack + [path];
      onStack := onStack + {path};
      env := Push(env, path);
    }

    /** All successors seen: `path` stays open or its component is popped. */
    method Settle(path: string, ghost a: Env)
      requires Consistent() && path in graph && path in lowlinks
      requires Scanning(graph, a, path, env, |graph[path]|, lowlinks[path])
      modifies this`stack, this`onStack, this`cycles, this`env
      ensures Consistent()
      ensures Closing(graph, a, env, path, lowlinks[path])
    {
      Scan(graph, a, path, env, lowlinks[path]);
      Close(graph, a, path, env, lowlinks[path]);
      if lowlinks[path] != indices[path] {
        env := env.(gray := a.gray);
        return;
      }
      PopComponent(path, a);
    }

    /** Takes the stack down to and including `path`, which was opened over `a`. */
    method PopComponent(path: string, ghost a: Env)
      requires Consistent()
      requires |a.stack| < |stack| && stack[|a.stack|] == path
      requires forall i, j :: 0 <= i < j < |stack| ==> stack[i] != stack[j]
      modifies this`stack, this`onStack, this`cycles, this`env
      ensures Consistent()
      ensures env == Pop(a, old(env))
    {
      var component := PopDown(path, |a.stack|);
      FaithfulStep(cycles, env.comps, env.stack[|a.stack|..], component);
      if |component| > 1 {
        cycles := cycles + [SortBy(component, Le)];
      }
      env := Pop(a, env);
    }

    method PopDown(path: string, ghost base: nat) returns (component: seq<string>)
      requires onStack == Elems(stack)
      requires base < |stack| && stack[base] == path
      requires forall i, j :: 0 <= i < j < |stack| ==> stack[i] != stack[j]
      modifies this`stack, this`onStack
      ensures stack == old(stack)[..base] && onStack == Elems(stack)
      ensures |component| == |old(stack)| - base
      ensures forall k :: 0 <= k < |component| ==> component[k] == old(stack)[base..][|component| - 1 - k]
    {
      ghost var full := stack;
      component := [];
      while true
        invariant base < |stack| <= |full| && stack == full[..|stack|]
        invariant onStack == Elems(stack)
        invariant |component| == |full| - |stack|
        invariant forall k :: 0 <= k < |component| ==> component[k] == full[|full| - 1 - k]
        decreases |stack|
      {
        var member := stack[|stack| - 1];
        stack := stack[..|stack| - 1];
        onStack := onStack - {member};
        component := component + [member];
        assert Elems(stack) == onStack by {
          assert full[..|stack| + 1] == stack + [member];
        }
        if member == path {
          break;
        }
      }
    }
  }

  lemma ComponentElems(component: seq<string>, top: seq<string>)
    requires |component| == |top|
    requires forall k :: 0 <= k < |component| ==> component[k] == top[|top| - 1 - k]
    ensures Elems(component) == Elems(top)
  {
    forall x | x in top ensures x in component {
      var i :| 0 <= i < |top| && top[i] == x;
      assert component[|top| - 1 - i] == x;
    }
  }

  /** Searches a whole graph, roots in ascending order. */
  method FindCycles(g: Graph) returns (r: seq<seq<string>>)
    requires Closed(g)
    ensures ExactCycles(g, r)
  {
    var search := new Search(g);
    var roots := Sorted(g.Keys);
    for i := 0 to |roots|
      invariant search.graph == g && search.Consistent() && Steady(g, search.env)
      invariant Covered(roots, i, search.indices)
    {
      if roots[i] !in search.indices {
        ghost var a := search.env;
        Root(g, a, roots[i]);
        search.Visit(roots[i]);
        Rooted(g, a, search.env, roots, i, search.lowlinks[roots[i]]);
      }
    }
    AllKeys(g, search.env, roots);
    ReportExact(g, search.env, search.cycles);
    r := SortBy(search.cycles, TupleLe);
  }

  lemma Root(g: Graph, e: Env, v: string)
    requires Steady(g, e) && v in g && v !in e.num
    ensures Pending(g, e, v)
  {
    assert Unfold(true);
  }

  lemma Rooted(g: Graph, a: Env, b: Env, roots: seq<string>, i: nat, low: nat)
    requires i < |roots| && Steady(g, a) && Closing(g, a, b, roots[i], low) && Covered(roots, i, a.num)
    ensures Steady(g, b) && Covered(roots, i + 1, b.num)
  {
    assert Unfold(true);
  }

  ghost predicate Covered(roots: seq<string>, n: nat, num: map<string, nat>) {
    n <= |roots| && forall j :: 0 <= j < n ==> roots[j] in num
  }

  lemma AllKeys(g: Graph, e: Env, roots: seq<string>)
    requires Steady(g, e) && roots == Sorted(g.Keys) && Covered(roots, |roots|, e.num)
    ensures e.num.Keys == g.Keys
  {
    assert Unfold(true);
    forall x | x in g ensures x in e.num { assert x in roots; }
  }
}
