/** Directed graphs over strings, reachability, and strongly connected components:
    the vocabulary in which the searches of this project are specified. */
module Graphs {

  /** Each vertex with its successors, in the order the program lists them. */
  type Graph = map<string, seq<string>>

  predicate Closed(g: Graph) {
    forall x, y :: x in g && y in g[x] ==> y in g
  }

  predicate Edge(g: Graph, x: string, y: string) {
    x in g && y in g[x]
  }

  predicate Step(g: Graph, p: seq<string>, i: int) {
    0 <= i < |p| - 1 ==> Edge(g, p[i], p[i + 1])
  }

  predicate Walk(g: Graph, p: seq<string>) {
    |p| > 0 && forall i {:trigger Step(g, p, i)} :: 0 <= i < |p| - 1 ==> Step(g, p, i)
  }

  predicate WalkFromTo(g: Graph, p: seq<string>, x: string, y: string) {
    Walk(g, p) && p[0] == x && p[|p| - 1] == y
  }

  ghost predicate Reach(g: Graph, x: string, y: string) {
    exists p :: WalkFromTo(g, p, x, y)
  }

  lemma ReachRefl(g: Graph, x: string)
    ensures Reach(g, x, x)
  {
    assert WalkFromTo(g, [x], x, x);
  }

  lemma ReachEdge(g: Graph, x: string, y: string)
    requires Edge(g, x, y)
    ensures Reach(g, x, y)
  {
    assert WalkFromTo(g, [x, y], x, y);
  }

  lemma WalkJoin(g: Graph, p: seq<string>, q: seq<string>)
    requires Walk(g, p) && Walk(g, q) && p[|p| - 1] == q[0]
    ensures WalkFromTo(g, p + q[1..], p[0], q[|q| - 1])
  {
    var r := p + q[1..];
    forall i | 0 <= i < |r| - 1 ensures Step(g, r, i) {
      if i < |p| - 1 {
        assert Step(g, p, i);
      } else {
        assert Step(g, q, i - (|p| - 1));
        assert r[i] == q[i - (|p| - 1)];
        assert r[i + 1] == q[i - (|p| - 1) + 1];
      }
    }
  }

  lemma Segment(g: Graph, c: seq<string>, i: nat, j: nat)
    requires Walk(g, c) && i <= j < |c|
    ensures WalkFromTo(g, c[i..j + 1], c[i], c[j])
  {
    var d := c[i..j + 1];
    forall k | 0 <= k < |d| - 1 ensures Step(g, d, k) { assert Step(g, c, i + k); }
  }

  lemma ReachTrans(g: Graph, x: string, y: string, z: string)
    requires Reach(g, x, y) && Reach(g, y, z)
    ensures Reach(g, x, z)
  {
    var p :| WalkFromTo(g, p, x, y);
    var q :| WalkFromTo(g, q, y, z);
    WalkJoin(g, p, q);
  }

  /** What starts in a set without outgoing edges stays in it. */
  lemma {:induction false} WalkStaysInside(g: Graph, s: set<string>, p: seq<string>)
    requires Walk(g, p) && p[0] in s
    requires forall x, y :: x in s && Edge(g, x, y) ==> y in s
    ensures p[|p| - 1] in s
  {
    if |p| > 1 {
      assert Step(g, p, 0);
      forall i | 0 <= i < |p[1..]| - 1 ensures Step(g, p[1..], i) { assert Step(g, p, i + 1); }
      WalkStaysInside(g, s, p[1..]);
    }
  }

  lemma ReachStaysInside(g: Graph, s: set<string>, x: string, y: string)
    requires Reach(g, x, y) && x in s
    requires forall a, b :: a in s && Edge(g, a, b) ==> b in s
    ensures y in s
  {
    var p :| WalkFromTo(g, p, x, y);
    WalkStaysInside(g, s, p);
  }

  ghost predicate Mutual(g: Graph, x: string, y: string) {
    Reach(g, x, y) && Reach(g, y, x)
  }

  /** A strongly connected component: a non-empty class of mutual reachability. */
  ghost predicate IsScc(g: Graph, c: set<string>) {
    && c != {}
    && c <= g.Keys
    && forall x, y {:trigger Mutual(g, x, y)} :: x in c ==> (y in c <==> Mutual(g, x, y))
  }

  /** Two components that share a vertex are the same component. */
  lemma SccsDisjoint(g: Graph, c: set<string>, d: set<string>, x: string)
    requires IsScc(g, c) && IsScc(g, d) && x in c && x in d
    ensures c == d
  {
    forall y ensures y in c <==> y in d {
      assert y in c <==> Mutual(g, x, y);
    }
  }

  function Elems(s: seq<string>): set<string> {
    set x | x in s
  }

  predicate NoRepeats(c: seq<string>) {
    forall i, j :: 0 <= i < j < |c| ==> c[i] != c[j]
  }

  lemma {:induction false} NoRepeatsCard(c: seq<string>)
    requires NoRepeats(c)
    ensures |Elems(c)| == |c|
  {
    if c != [] {
      NoRepeatsCard(c[1..]);
      assert Elems(c) == {c[0]} + Elems(c[1..]);
    }
  }
}
