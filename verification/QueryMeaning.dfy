/** What the answers of the set-based queries hold, said relation by relation and node by node. */
module QueryMeaning {
  import opened Options
  import opened Ordering
  import opened Graphs
  import opened Snapshots
  import opened Networks
  import opened PathQueries
  import opened StateQueries
  import opened Selections

  // ----- hops ---------------------------------------------------------------------------

  /** The relation goes from `a` to `b`, or is not directed and joins the two. */
  ghost predicate GoesTo(e: Relation, a: string, b: string) {
    if e.directed then (e.fromId, e.toId) == (a, b) else {e.fromId, e.toId} == {a, b}
  }

  lemma GoesToEnds(e: Relation, a: string, b: string)
    ensures GoesTo(e, a, b) <==> (e.fromId == a && e.toId == b) || (e.toId == a && !e.directed && e.fromId == b)
  {
    if !e.directed && GoesTo(e, a, b) { PairEnds(e.fromId, e.toId, a, b); }
  }

  lemma NeighborMeans(edges: seq<Relation>, a: string, b: string)
    ensures b in NeighborSet(edges, a) <==> exists e :: e in edges && GoesTo(e, a, b)
  {
    if b in NeighborSet(edges, a) {
      var e :| e in edges && ((e.fromId == a && e.toId == b) || (e.toId == a && !e.directed && e.fromId == b));
      GoesToEnds(e, a, b);
    }
    if e :| e in edges && GoesTo(e, a, b) { GoesToEnds(e, a, b); }
  }

  /** A hop goes from a known node along a relation, or back along one that is not directed. */
  lemma HopMeans(data: Snapshot, a: string, b: string)
    ensures Edge(Hops(data), a, b) <==> (exists n :: n in data.nodes && n.id == a) && exists e :: e in data.edges && GoesTo(e, a, b)
  {
    NeighborMeans(data.edges, a, b);
    KnownMeans(data, a);
  }

  lemma KnownMeans(data: Snapshot, a: string)
    ensures a in Hops(data) <==> exists n :: n in data.nodes && n.id == a
  {
  }

  lemma PairEnds(x: string, y: string, a: string, b: string)
    requires {x, y} == {a, b}
    ensures (x == a && y == b) || (x == b && y == a)
  {
    assert x in {a, b} && y in {a, b} && a in {x, y} && b in {x, y};
  }

  // ----- residual and unresolved --------------------------------------------------------

  /** The places in the snapshot that the island has. */
  ghost function Places(nodes: seq<Node>, island: string, k: nat): set<nat>
    requires k <= |nodes|
  {
    set i: nat | i < k && nodes[i].islandId == island
  }

  lemma PlacesStep(nodes: seq<Node>, island: string, k: nat)
    requires k < |nodes|
    ensures Places(nodes, island, k + 1) == Places(nodes, island, k) + if nodes[k].islandId == island then {k} else {}
  {
  }

  lemma {:induction false} IslandCounted(nodes: seq<Node>, island: string, k: nat)
    requires k <= |nodes|
    ensures |IslandList(nodes[..k], island)| == |Places(nodes, island, k)|
  {
    if k > 0 {
      IslandCounted(nodes, island, k - 1);
      assert nodes[..k][..k - 1] == nodes[..k - 1];
      PlacesStep(nodes, island, k - 1);
    }
  }

  /** The six reasons for being left over. */
  lemma ResidualMeans(data: Snapshot, n: Node)
    ensures var r := ResidualReasons(data, n);
            && (r.singletonIsland <==> n.islandId != "" && |Places(data.nodes, n.islandId, |data.nodes|)| == 1)
            && (r.heldOrPending <==> n.holdState in ["held", "pending", "shelved"])
            && (r.hasCritique <==> exists c :: c in data.critiques && c.targetRef == n.id && c.state != "resolved")
            && (r.unconnected <==> forall e :: e in data.edges ==> n.id !in {e.fromId, e.toId})
            && (r.unresolvedContradiction <==> exists c :: c in data.contradictions && n.id in {c.fromId, c.toId} && c.state != "resolved")
            && (r.missingProvenance <==> n.sourceRefs == [])
  {
    IslandCounted(data.nodes, n.islandId, |data.nodes|);
    assert data.nodes[..|data.nodes|] == data.nodes;
    if c :| c in data.critiques && c.targetRef == n.id && c.state != "resolved" {
      assert c.id in OpenCritiques(data.critiques, n.id);
    }
  }

  /** The three open points of a node. */
  lemma UnresolvedMeans(data: Snapshot, n: Node)
    ensures var r := UnresolvedReasons(n, OpenCritiques(data.critiques, n.id));
            && (r.hold == if n.holdState in ["held", "pending", "shelved"] then Some(n.holdState) else None)
            && (r.unreviewed <==> n.reviewState == "unreviewed")
            && (r.critique <==> exists c :: c in data.critiques && c.targetRef == n.id && c.state != "resolved")
  {
    if c :| c in data.critiques && c.targetRef == n.id && c.state != "resolved" {
      assert c.id in OpenCritiques(data.critiques, n.id);
    }
  }

  // ----- contrast -----------------------------------------------------------------------

  /** Some node of the side has the value. */
  ghost predicate Has(data: Snapshot, side: seq<string>, of: Node -> set<string>, x: string) {
    exists n :: n in data.nodes && n.id in side && x in of(n)
  }

  function One(s: string): set<string> { if s == "" then {} else {s} }

  const SOURCES := (n: Node) => Elems(n.sourceRefs)
  const ACTORS := (n: Node) => Elems(n.actorRefs)
  const ISLANDS := (n: Node) => One(n.islandId)
  const HOLDS := (n: Node) => One(n.holdState)
  const REVIEWS := (n: Node) => One(n.reviewState)

  /** A relation at the side has the type. */
  ghost predicate Typed(data: Snapshot, side: seq<string>, x: string) {
    x != "" && exists e :: e in data.edges && (e.fromId in side || e.toId in side) && e.kind == x
  }

  /** The facets hold `x` as the nodes and the relations of the side do. */
  ghost predicate Faceted(data: Snapshot, side: seq<string>, f: Facets, x: string) {
    && (x in f.sources <==> Has(data, side, SOURCES, x)) && (x in f.actors <==> Has(data, side, ACTORS, x))
    && (x in f.islands <==> Has(data, side, ISLANDS, x)) && (x in f.holdStates <==> Has(data, side, HOLDS, x))
    && (x in f.reviewStates <==> Has(data, side, REVIEWS, x)) && (x in f.edgeTypes <==> Typed(data, side, x))
  }

  lemma FacetsMean(data: Snapshot, side: seq<string>, x: string)
    ensures Faceted(data, side, FacetValues(data, Elems(side)), x)
  {
    var f := FacetValues(data, Elems(side));
    SourceFacet(data, side, f.sources, x);
    ActorFacet(data, side, f.actors, x);
    IslandFacet(data, side, x);
    HoldFacet(data, side, x);
    ReviewFacet(data, side, x);
    TypeFacet(data, side, x);
  }

  lemma SourceFacet(data: Snapshot, side: seq<string>, values: set<string>, x: string)
    requires values == FacetValues(data, Elems(side)).sources
    ensures x in values <==> Has(data, side, SOURCES, x)
  {
    if x in values {
      var n :| n in data.nodes && n.id in Elems(side) && x in n.sourceRefs;
      assert x in SOURCES(n);
    }
    if Has(data, side, SOURCES, x) {
      var n :| n in data.nodes && n.id in side && x in SOURCES(n);
      assert n.id in Elems(side) && x in n.sourceRefs;
    }
  }

  lemma ActorFacet(data: Snapshot, side: seq<string>, values: set<string>, x: string)
    requires values == FacetValues(data, Elems(side)).actors
    ensures x in values <==> Has(data, side, ACTORS, x)
  {
    if x in values {
      var n :| n in data.nodes && n.id in Elems(side) && x in n.actorRefs;
      assert x in ACTORS(n);
    }
    if Has(data, side, ACTORS, x) {
      var n :| n in data.nodes && n.id in side && x in ACTORS(n);
      assert n.id in Elems(side) && x in n.actorRefs;
    }
  }

  lemma IslandFacet(data: Snapshot, side: seq<string>, x: string)
    ensures x in FacetValues(data, Elems(side)).islands <==> Has(data, side, ISLANDS, x)
  {
    if x in FacetValues(data, Elems(side)).islands {
      var n :| n in data.nodes && n.id in Elems(side) && n.islandId != "" && n.islandId == x;
      assert x in ISLANDS(n);
    }
    if Has(data, side, ISLANDS, x) {
      var n :| n in data.nodes && n.id in side && x in ISLANDS(n);
      assert n.id in Elems(side) && n.islandId == x;
    }
  }

  lemma HoldFacet(data: Snapshot, side: seq<string>, x: string)
    ensures x in FacetValues(data, Elems(side)).holdStates <==> Has(data, side, HOLDS, x)
  {
    if x in FacetValues(data, Elems(side)).holdStates {
      var n :| n in data.nodes && n.id in Elems(side) && n.holdState != "" && n.holdState == x;
      assert x in HOLDS(n);
    }
    if Has(data, side, HOLDS, x) {
      var n :| n in data.nodes && n.id in side && x in HOLDS(n);
      assert n.id in Elems(side) && n.holdState == x;
    }
  }

  lemma ReviewFacet(data: Snapshot, side: seq<string>, x: string)
    ensures x in FacetValues(data, Elems(side)).reviewStates <==> Has(data, side, REVIEWS, x)
  {
    if x in FacetValues(data, Elems(side)).reviewStates {
      var n :| n in data.nodes && n.id in Elems(side) && n.reviewState != "" && n.reviewState == x;
      assert x in REVIEWS(n);
    }
    if Has(data, side, REVIEWS, x) {
      var n :| n in data.nodes && n.id in side && x in REVIEWS(n);
      assert n.id in Elems(side) && n.reviewState == x;
    }
  }

  lemma TypeFacet(data: Snapshot, side: seq<string>, x: string)
    ensures x in FacetValues(data, Elems(side)).edgeTypes <==> Typed(data, side, x)
  {
    if Typed(data, side, x) {
      var e :| e in data.edges && (e.fromId in side || e.toId in side) && e.kind == x;
      assert e.fromId in Elems(side) || e.toId in Elems(side);
    }
  }

  /** Values of both sides, of the left only, of the right only, each in order. */
  ghost predicate Splits(d: Difference, x: string, left: bool, right: bool) {
    && Ascending(d.shared) && Ascending(d.leftOnly) && Ascending(d.rightOnly)
    && (x in d.shared <==> left && right)
    && (x in d.leftOnly <==> left && !right)
    && (x in d.rightOnly <==> right && !left)
  }

  lemma DifferSplits(a: set<string>, b: set<string>, x: string, left: bool, right: bool)
    requires (x in a <==> left) && (x in b <==> right)
    ensures Splits(Differ(a, b), x, left, right)
  {
  }

  ghost predicate SplitsNodes(data: Snapshot, left: seq<string>, right: seq<string>, d: Difference, of: Node -> set<string>, x: string) {
    Splits(d, x, Has(data, left, of, x), Has(data, right, of, x))
  }

  lemma NodesSplit(data: Snapshot, left: seq<string>, right: seq<string>, a: set<string>, b: set<string>, of: Node -> set<string>, x: string)
    requires (x in a <==> Has(data, left, of, x)) && (x in b <==> Has(data, right, of, x))
    ensures SplitsNodes(data, left, right, Differ(a, b), of, x)
  {
    DifferSplits(a, b, x, Has(data, left, of, x), Has(data, right, of, x));
  }

  /** Facet by facet, the contrast tells whether `x` is on both sides, or on which one only. */
  ghost predicate Contrasted(data: Snapshot, c: Contrast, x: string) {
    && SplitsNodes(data, c.left, c.right, c.sources, SOURCES, x)
    && SplitsNodes(data, c.left, c.right, c.actors, ACTORS, x)
    && SplitsNodes(data, c.left, c.right, c.islands, ISLANDS, x)
    && SplitsNodes(data, c.left, c.right, c.holdStates, HOLDS, x)
    && SplitsNodes(data, c.left, c.right, c.reviewStates, REVIEWS, x)
    && Splits(c.edgeTypes, x, Typed(data, c.left, x), Typed(data, c.right, x))
  }

  ghost predicate Differing(c: Contrast, a: Facets, b: Facets) {
    && c.sources == Differ(a.sources, b.sources)
    && c.actors == Differ(a.actors, b.actors)
    && c.islands == Differ(a.islands, b.islands)
    && c.holdStates == Differ(a.holdStates, b.holdStates)
    && c.reviewStates == Differ(a.reviewStates, b.reviewStates)
    && c.edgeTypes == Differ(a.edgeTypes, b.edgeTypes)
  }

  lemma OriginsSplit(data: Snapshot, c: Contrast, a: Facets, b: Facets, x: string)
    requires Faceted(data, c.left, a, x) && Faceted(data, c.right, b, x) && Differing(c, a, b)
    ensures SplitsNodes(data, c.left, c.right, c.sources, SOURCES, x) && SplitsNodes(data, c.left, c.right, c.actors, ACTORS, x)
  {
    NodesSplit(data, c.left, c.right, a.sources, b.sources, SOURCES, x);
    NodesSplit(data, c.left, c.right, a.actors, b.actors, ACTORS, x);
  }

  lemma StatesSplit(data: Snapshot, c: Contrast, a: Facets, b: Facets, x: string)
    requires Faceted(data, c.left, a, x) && Faceted(data, c.right, b, x) && Differing(c, a, b)
    ensures SplitsNodes(data, c.left, c.right, c.islands, ISLANDS, x)
    ensures SplitsNodes(data, c.left, c.right, c.holdStates, HOLDS, x) && SplitsNodes(data, c.left, c.right, c.reviewStates, REVIEWS, x)
  {
    NodesSplit(data, c.left, c.right, a.islands, b.islands, ISLANDS, x);
    NodesSplit(data, c.left, c.right, a.holdStates, b.holdStates, HOLDS, x);
    NodesSplit(data, c.left, c.right, a.reviewStates, b.reviewStates, REVIEWS, x);
  }

  lemma TypesSplit(data: Snapshot, c: Contrast, a: Facets, b: Facets, x: string)
    requires Faceted(data, c.left, a, x) && Faceted(data, c.right, b, x) && Differing(c, a, b)
    ensures Splits(c.edgeTypes, x, Typed(data, c.left, x), Typed(data, c.right, x))
  {
    DifferSplits(a.edgeTypes, b.edgeTypes, x, Typed(data, c.left, x), Typed(data, c.right, x));
  }

  lemma FacetsSplit(data: Snapshot, c: Contrast, a: Facets, b: Facets, x: string)
    requires Faceted(data, c.left, a, x) && Faceted(data, c.right, b, x) && Differing(c, a, b)
    ensures Contrasted(data, c, x)
  {
    OriginsSplit(data, c, a, b, x);
    StatesSplit(data, c, a, b, x);
    TypesSplit(data, c, a, b, x);
  }

  lemma ContrastForm(data: Snapshot, leftRefs: seq<string>, rightRefs: seq<string>, c: Contrast)
    requires ContrastOf(data, leftRefs, rightRefs) == Ok(c)
    ensures c.left == Sorted(Elems(leftRefs)) && c.right == Sorted(Elems(rightRefs))
    ensures Differing(c, FacetValues(data, Elems(c.left)), FacetValues(data, Elems(c.right)))
  {
  }

  /** A contrast tells, facet by facet, which values are on both sides and which on one only. */
  lemma ContrastMeans(data: Snapshot, leftRefs: seq<string>, rightRefs: seq<string>, c: Contrast, x: string)
    requires ContrastOf(data, leftRefs, rightRefs) == Ok(c)
    ensures c.left == Sorted(Elems(leftRefs)) && c.right == Sorted(Elems(rightRefs))
    ensures Contrasted(data, c, x)
  {
    ContrastForm(data, leftRefs, rightRefs, c);
    FacetsMean(data, c.left, x);
    FacetsMean(data, c.right, x);
    FacetsSplit(data, c, FacetValues(data, Elems(c.left)), FacetValues(data, Elems(c.right)), x);
  }

  /** The contradiction is between the sides. */
  ghost predicate Crosses(i: Contradiction, left: seq<string>, right: seq<string>) {
    (i.fromId in left && i.toId in right) || (i.fromId in right && i.toId in left)
  }

  lemma CrossListed(cs: seq<Contradiction>, left: seq<string>, right: seq<string>, id: string)
    ensures id in CrossContradictions(cs, Elems(left), Elems(right)) <==> exists i :: i in cs && i.id == id && Crosses(i, left, right)
  {
    var l, r := Elems(left), Elems(right);
    if i :| i in cs && i.id == id && Crosses(i, left, right) {
      assert (i.fromId in l && i.toId in r) || (i.toId in l && i.fromId in r);
    }
    if id in CrossContradictions(cs, l, r) {
      var i :| i in cs && i.id == id && ((i.fromId in l && i.toId in r) || (i.toId in l && i.fromId in r));
      assert Crosses(i, left, right);
    }
  }

  /** It names the contradictions between the sides, whichever way they go. */
  lemma CrossMeans(data: Snapshot, leftRefs: seq<string>, rightRefs: seq<string>, c: Contrast, id: string)
    requires ContrastOf(data, leftRefs, rightRefs) == Ok(c)
    ensures id in c.crossContradictions <==> exists i :: i in data.contradictions && i.id == id && Crosses(i, c.left, c.right)
    ensures forall r :: r in c.nodeRefs <==> r in c.left || r in c.right
  {
    CrossListed(data.contradictions, c.left, c.right, id);
  }

  // ----- provenance ---------------------------------------------------------------------

  /** The nodes in scope that cite the source, or name the actor. */
  ghost predicate Lists(data: Snapshot, scope: seq<string>, of: Node -> set<string>, m: map<string, seq<string>>, key: string, ref: string) {
    && (key in m <==> Has(data, scope, of, key))
    && (key in m ==> Ascending(m[key]) && (ref in m[key] <==> ref in scope && exists n :: n in data.nodes && n.id == ref && key in of(n)))
  }

  /** Provenance groups the scope by source and by actor, and names the nodes without a source. */
  lemma ProvenanceMeans(data: Snapshot, scope: Option<seq<string>>, p: Provenance, key: string, ref: string)
    requires ProvenanceOf(data, scope) == Ok(p)
    ensures Lists(data, p.nodeRefs, SOURCES, p.bySource, key, ref)
    ensures Lists(data, p.nodeRefs, ACTORS, p.byActor, key, ref)
    ensures ref in p.missingSourceRefs <==> ref in p.nodeRefs && exists n :: n in data.nodes && n.id == ref && n.sourceRefs == []
  {
    var ns := InScope(data, Elems(p.nodeRefs));
    SourceListed(data, p.nodeRefs, ns, key, ref);
    ActorListed(data, p.nodeRefs, ns, key, ref);
    if ref in p.nodeRefs && exists n :: n in data.nodes && n.id == ref && n.sourceRefs == [] {
      var n :| n in data.nodes && n.id == ref && n.sourceRefs == [];
      assert n in ns;
    }
  }

  lemma SourceListed(data: Snapshot, scope: seq<string>, ns: set<Node>, key: string, ref: string)
    requires ns == InScope(data, Elems(scope))
    ensures Lists(data, scope, SOURCES, BySource(ns), key, ref)
  {
    if Has(data, scope, SOURCES, key) {
      var n :| n in data.nodes && n.id in scope && key in SOURCES(n);
      assert n in ns && key in n.sourceRefs;
    }
    if key in SourcesOf(ns) {
      var n :| n in ns && key in n.sourceRefs;
      assert key in SOURCES(n);
      if ref in scope && exists n :: n in data.nodes && n.id == ref && key in SOURCES(n) {
        var n :| n in data.nodes && n.id == ref && key in SOURCES(n);
        assert n in ns && key in n.sourceRefs;
      }
      if ref in CitingSource(ns, key) {
        var n :| n in ns && key in n.sourceRefs && n.id == ref;
        assert key in SOURCES(n);
      }
    }
  }

  lemma ActorListed(data: Snapshot, scope: seq<string>, ns: set<Node>, key: string, ref: string)
    requires ns == InScope(data, Elems(scope))
    ensures Lists(data, scope, ACTORS, ByActor(ns), key, ref)
  {
    if Has(data, scope, ACTORS, key) {
      var n :| n in data.nodes && n.id in scope && key in ACTORS(n);
      assert n in ns && key in n.actorRefs;
    }
    if key in ActorsOf(ns) {
      var n :| n in ns && key in n.actorRefs;
      assert key in ACTORS(n);
      if ref in scope && exists n :: n in data.nodes && n.id == ref && key in ACTORS(n) {
        var n :| n in data.nodes && n.id == ref && key in ACTORS(n);
        assert n in ns && key in n.actorRefs;
      }
      if ref in NamingActor(ns, key) {
        var n :| n in ns && key in n.actorRefs && n.id == ref;
        assert key in ACTORS(n);
      }
    }
  }

  // ----- temporal -----------------------------------------------------------------------

  /** What happened, and when: a node observed, a relation, critique or contradiction made, an event. */
  ghost predicate Recorded(data: Snapshot, scope: seq<string>, r: Record) {
    match r.kind
    case NodeObserved =>
      r.at != "" && r == Record(r.at, NodeObserved, r.ref, [], "", "")
      && r.ref in scope && r.ref in Nodes(data) && Nodes(data)[r.ref].observedAt == r.at
    case EdgeCreated =>
      r.at != "" && r == Record(r.at, EdgeCreated, r.ref, [], "", "")
      && exists e :: e in data.edges && e.id == r.ref && e.createdAt == r.at && e.fromId in scope && e.toId in scope
    case CritiqueRecorded =>
      r.at != "" && r == Record(r.at, CritiqueRecorded, r.ref, [], "", "")
      && exists c :: c in data.critiques && c.id == r.ref && c.createdAt == r.at && c.targetRef in scope
    case ContradictionRecorded =>
      r.at != "" && r == Record(r.at, ContradictionRecorded, r.ref, [], "", "")
      && exists c :: c in data.contradictions && c.id == r.ref && c.createdAt == r.at && c.fromId in scope && c.toId in scope
    case Happened(kind) =>
      exists e :: e in data.events && r == Record(e.at, Happened(e.kind), e.id, Sorted(Elems(e.targetRefs)), e.actorRef, e.sourceRef)
                  && exists t :: t in e.targetRefs && t in scope
  }

  lemma {:induction false} NodesRecorded(data: Snapshot, refs: seq<string>, r: Record)
    requires forall v :: v in refs ==> v in Nodes(data)
    ensures r in NodeRecords(data, refs) <==> r.kind == NodeObserved && Recorded(data, refs, r)
  {
    if refs != [] {
      var k := |refs| - 1;
      assert refs == refs[..k] + [refs[k]];
      NodesRecorded(data, refs[..k], r);
    }
  }

  lemma MapHolds<T(!new), U(!new)>(s: seq<T>, f: T -> U, y: U)
    ensures y in Map(s, f) <==> exists x :: x in s && f(x) == y
  {
    if y in Map(s, f) {
      var i :| 0 <= i < |s| && Map(s, f)[i] == y;
      assert s[i] in s;
    }
    if x :| x in s && f(x) == y {
      var i :| 0 <= i < |s| && s[i] == x;
      assert Map(s, f)[i] == y;
    }
  }

  lemma KeptMapHolds<T(!new), U(!new)>(s: seq<T>, keep: T -> bool, f: T -> U, y: U)
    ensures y in Map(Filter(s, keep), f) <==> exists x :: x in s && keep(x) && f(x) == y
  {
    FilterMembers(s, keep);
    MapHolds(Filter(s, keep), f, y);
    if x :| x in s && keep(x) && f(x) == y { assert x in Filter(s, keep); }
  }

  lemma OthersRecorded(data: Snapshot, scope: seq<string>, r: Record)
    ensures r in OtherRecords(data, Elems(scope)) <==> r.kind != NodeObserved && Recorded(data, scope, r)
  {
    var all := Elems(scope);
    var es := Map(Filter(data.edges, (e: Relation) => e.fromId in all && e.toId in all && e.createdAt != ""),
                  (e: Relation) => Record(e.createdAt, EdgeCreated, e.id, [], "", ""));
    var cs := Map(Filter(data.critiques, (c: Critique) => c.targetRef in all && c.createdAt != ""),
                  (c: Critique) => Record(c.createdAt, CritiqueRecorded, c.id, [], "", ""));
    var os := Map(Filter(data.contradictions, (c: Contradiction) => c.fromId in all && c.toId in all && c.createdAt != ""),
                  (c: Contradiction) => Record(c.createdAt, ContradictionRecorded, c.id, [], "", ""));
    assert OtherRecords(data, all) == es + cs + os + EventRecords(data.events, all);
    EdgesRecorded(data, scope, es, r);
    CritiquesRecorded(data, scope, cs, r);
    ContradictionsRecorded(data, scope, os, r);
    EventsRecorded(data, scope, r);
  }

  lemma EdgesRecorded(data: Snapshot, scope: seq<string>, es: seq<Record>, r: Record)
    requires var all := Elems(scope);
      es == Map(Filter(data.edges, (e: Relation) => e.fromId in all && e.toId in all && e.createdAt != ""),
                (e: Relation) => Record(e.createdAt, EdgeCreated, e.id, [], "", ""))
    ensures r in es <==> r.kind == EdgeCreated && Recorded(data, scope, r)
  {
    var all := Elems(scope);
    KeptMapHolds(data.edges, (e: Relation) => e.fromId in all && e.toId in all && e.createdAt != "",
                 (e: Relation) => Record(e.createdAt, EdgeCreated, e.id, [], "", ""), r);
  }

  lemma CritiquesRecorded(data: Snapshot, scope: seq<string>, cs: seq<Record>, r: Record)
    requires var all := Elems(scope);
      cs == Map(Filter(data.critiques, (c: Critique) => c.targetRef in all && c.createdAt != ""),
                (c: Critique) => Record(c.createdAt, CritiqueRecorded, c.id, [], "", ""))
    ensures r in cs <==> r.kind == CritiqueRecorded && Recorded(data, scope, r)
  {
    var all := Elems(scope);
    KeptMapHolds(data.critiques, (c: Critique) => c.targetRef in all && c.createdAt != "",
                 (c: Critique) => Record(c.createdAt, CritiqueRecorded, c.id, [], "", ""), r);
  }

  lemma ContradictionsRecorded(data: Snapshot, scope: seq<string>, os: seq<Record>, r: Record)
    requires var all := Elems(scope);
      os == Map(Filter(data.contradictions, (c: Contradiction) => c.fromId in all && c.toId in all && c.createdAt != ""),
                (c: Contradiction) => Record(c.createdAt, ContradictionRecorded, c.id, [], "", ""))
    ensures r in os <==> r.kind == ContradictionRecorded && Recorded(data, scope, r)
  {
    var all := Elems(scope);
    KeptMapHolds(data.contradictions, (c: Contradiction) => c.fromId in all && c.toId in all && c.createdAt != "",
                 (c: Contradiction) => Record(c.createdAt, ContradictionRecorded, c.id, [], "", ""), r);
  }

  lemma EventsRecorded(data: Snapshot, scope: seq<string>, r: Record)
    ensures r in EventRecords(data.events, Elems(scope)) <==> r.kind.Happened? && Recorded(data, scope, r)
  {
    var all := Elems(scope);
    KeptMapHolds(data.events, (e: Event) => EventInScope(e, all), (e: Event) => EventRecord(e), r);
    forall e: Event ensures EventInScope(e, all) <==> exists t :: t in e.targetRefs && t in scope {
      if t :| t in e.targetRefs && t in scope { assert t in all; }
    }
  }

  lemma RecordOrder()
    ensures TotalPreorder(RecordLe)
  {
    forall a: Record, b: Record ensures RecordLe(a, b) || RecordLe(b, a) {
      TupleLeTotal([a.at, KindName(a.kind), a.ref], [b.at, KindName(b.kind), b.ref]);
    }
    forall a: Record, b: Record, c: Record | RecordLe(a, b) && RecordLe(b, c) ensures RecordLe(a, c) {
      TupleLeTrans([a.at, KindName(a.kind), a.ref], [b.at, KindName(b.kind), b.ref], [c.at, KindName(c.kind), c.ref]);
    }
  }

  /** The timeline holds exactly what happened in scope. */
  lemma TemporalMeans(data: Snapshot, scope: Option<seq<string>>, t: Temporal, r: Record)
    requires TemporalOf(data, scope) == Ok(t)
    ensures r in t.records <==> Recorded(data, t.nodeRefs, r)
  {
    ScopeKnown(data, scope);
    var records := NodeRecords(data, t.nodeRefs) + OtherRecords(data, Elems(t.nodeRefs));
    SameElements(SortBy(records, RecordLe), records);
    NodesRecorded(data, t.nodeRefs, r);
    OthersRecorded(data, t.nodeRefs, r);
  }

  /** In order of time; at one time in order of kind; then in order of reference. */
  lemma TemporalOrder(data: Snapshot, scope: Option<seq<string>>, t: Temporal, i: nat, j: nat)
    requires TemporalOf(data, scope) == Ok(t) && i < j < |t.records|
    ensures var a, b := t.records[i], t.records[j];
            && Le(a.at, b.at)
            && (a.at == b.at ==> Le(KindName(a.kind), KindName(b.kind)))
            && (a.at == b.at && KindName(a.kind) == KindName(b.kind) ==> Le(a.ref, b.ref))
  {
    ScopeKnown(data, scope);
    var records := NodeRecords(data, t.nodeRefs) + OtherRecords(data, Elems(t.nodeRefs));
    RecordOrder();
    SortByOrdered(records, RecordLe);
    assert InOrder(t.records, RecordLe, i, j);
    TripleLe(t.records[i].at, KindName(t.records[i].kind), t.records[i].ref, t.records[j].at, KindName(t.records[j].kind), t.records[j].ref);
  }

  lemma TripleLe(a: string, b: string, c: string, x: string, y: string, z: string)
    requires TupleLe([a, b, c], [x, y, z])
    ensures Le(a, x) && (a == x ==> Le(b, y)) && (a == x && b == y ==> Le(c, z))
  {
    assert [a, b, c] == [a] + [b, c] && [x, y, z] == [x] + [y, z];
    HeadLe(a, [b, c], x, [y, z]);
    if a == x {
      assert [b, c] == [b] + [c] && [y, z] == [y] + [z];
      HeadLe(b, [c], y, [z]);
      if b == y {
        assert [c] == [c] + [] && [z] == [z] + [];
        HeadLe(c, [], z, []);
      }
    }
  }
}
