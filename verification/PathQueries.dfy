/** The two queries that follow relations: the neighbourhood of a focus, and the bridges
    between two nodes. */
module PathQueries {
  import opened Options
  import opened Ordering
  import opened Graphs
  import opened Distances
  import opened ShortestPaths
  import opened Snapshots
  import opened Networks

  datatype QueryError =
    | EmptyRefs
    | UnknownRefs(refs: seq<string>)
    | BadDepth
    | BadMaxDepth
    | BadMaxPaths

  datatype Result<T> = Ok(value: T) | Err(error: QueryError)

  /** Sorted and without duplicates; empty lists and unknown references are refused. */
  function RequireNodeRefs(known: set<string>, refs: seq<string>): Result<seq<string>> {
    var r := Sorted(Elems(refs));
    var unknown := Elems(refs) - known;
    if r == [] then Err(EmptyRefs)
    else if unknown != {} then Err(UnknownRefs(Sorted(unknown)))
    else Ok(r)
  }

  lemma RequiredRefs(known: set<string>, refs: seq<string>)
    requires RequireNodeRefs(known, refs).Ok?
    ensures Elems(RequireNodeRefs(known, refs).value) == Elems(refs) <= known
  {
  }

  /** The relations with both ends selected. */
  function InducedEdges(edges: seq<Relation>, selected: set<string>): seq<string> {
    Sorted(set e | e in edges && e.fromId in selected && e.toId in selected :: e.id)
  }

  /** Exactly the ids of relations whose two ends are selected, in order. */
  lemma InducedExact(edges: seq<Relation>, selected: set<string>, id: string)
    ensures Ascending(InducedEdges(edges, selected))
    ensures id in InducedEdges(edges, selected)
       <==> exists k :: 0 <= k < |edges| && edges[k].id == id && {edges[k].fromId, edges[k].toId} <= selected
  {
    if k :| 0 <= k < |edges| && edges[k].id == id && {edges[k].fromId, edges[k].toId} <= selected {
      assert edges[k] in edges && edges[k].fromId in selected && edges[k].toId in selected;
    }
    if id in InducedEdges(edges, selected) {
      var e :| e in edges && e.fromId in selected && e.toId in selected && e.id == id;
      var k :| 0 <= k < |edges| && edges[k] == e;
    }
  }

  /** One hop, as a graph. */
  function Hops(data: Snapshot): Graph {
    map v | v in NodeIds(data.nodes) :: Sorted(NeighborSet(data.edges, v))
  }

  lemma HopsGood(data: Snapshot)
    requires GoodRefs(data)
    ensures Closed(Hops(data))
    ensures forall v :: v in Hops(data) ==> Ascending(Hops(data)[v])
  {
    var g := Hops(data);
    forall v, w | v in g && w in g[v] ensures w in g {
      assert w in NeighborSet(data.edges, v);
    }
  }

  lemma NetworkHops(net: Network, data: Snapshot)
    requires IsNetwork(net, data)
    ensures net.adjacency == Hops(data)
    ensures net.nodes.Keys == NodeIds(data.nodes)
  {
    NodeMapKeys(data.nodes);
  }

  // ----- neighbourhood ------------------------------------------------------------------

  datatype Neighborhood = Neighborhood(focus: seq<string>, nodeRefs: seq<string>, edgeRefs: seq<string>, distance: Distance)

  ghost predicate NeighborhoodOf(data: Snapshot, focus: seq<string>, depth: nat, r: Neighborhood) {
    && r.focus == focus
    && IsDistanceMap(Hops(data), Elems(focus), depth, r.distance)
    && r.nodeRefs == Sorted(r.distance.Keys)
    && r.edgeRefs == InducedEdges(data.edges, r.distance.Keys)
  }

  ghost predicate IsNeighborhood(data: Snapshot, focus: seq<string>, depth: int, r: Result<Neighborhood>) {
    match RequireNodeRefs(NodeIds(data.nodes), focus)
    case Err(e) => r == Err(e)
    case Ok(refs) =>
      if depth < 0 || depth > 5 then r == Err(BadDepth)
      else r.Ok? && NeighborhoodOf(data, refs, depth, r.value)
  }

  method QueryNeighborhood(net: Network, ghost data: Snapshot, focus: seq<string>, depth: int) returns (r: Result<Neighborhood>)
    requires IsNetwork(net, data)
    ensures IsNeighborhood(data, focus, depth, r)
  {
    NetworkHops(net, data);
    HopsGood(data);
    var required := RequireNodeRefs(net.nodes.Keys, focus);
    if required.Err? {
      return Err(required.error);
    }
    if depth < 0 || depth > 5 {
      return Err(BadDepth);
    }
    RequiredRefs(net.nodes.Keys, focus);
    forall f | f in required.value ensures f in net.adjacency { assert f in Elems(required.value); }
    var distance := NeighborhoodDistances(net.adjacency, required.value, depth);
    r := Ok(Neighborhood(required.value, Sorted(distance.Keys), InducedEdges(net.data.edges, distance.Keys), distance));
  }

  lemma DistanceMapUnique(g: Graph, from: set<string>, depth: nat, a: Distance, b: Distance)
    requires IsDistanceMap(g, from, depth, a) && IsDistanceMap(g, from, depth, b)
    ensures a == b
  {
    forall v | v in a ensures a[v] == b[v] {
      assert Recorded(a, v) && Recorded(b, v);
      DistanceUnique(g, from, v, a[v], b[v]);
    }
  }

  lemma NeighborhoodUnique(data: Snapshot, focus: seq<string>, depth: int, a: Result<Neighborhood>, b: Result<Neighborhood>)
    requires IsNeighborhood(data, focus, depth, a) && IsNeighborhood(data, focus, depth, b)
    ensures a == b
  {
    if a.Ok? {
      var refs := RequireNodeRefs(NodeIds(data.nodes), focus).value;
      DistanceMapUnique(Hops(data), Elems(refs), depth, a.value.distance, b.value.distance);
    }
  }

  /** A node is selected exactly when a walk of at most `depth` hops leads to it from the
      focus, and its distance is the length of the shortest such walk. */
  lemma SelectedByWalk(data: Snapshot, focus: seq<string>, depth: nat, r: Neighborhood, v: string)
    requires NeighborhoodOf(data, focus, depth, r)
    ensures v in r.nodeRefs <==> exists p :: WalkInto(Hops(data), Elems(focus), v, p) && |p| <= depth + 1
    ensures v in r.nodeRefs ==>
      && v in r.distance
      && (exists p :: WalkInto(Hops(data), Elems(focus), v, p) && |p| == r.distance[v] + 1)
      && (forall p :: WalkInto(Hops(data), Elems(focus), v, p) ==> r.distance[v] + 1 <= |p|)
  {
    DistanceByWalk(Hops(data), Elems(focus), depth, r.distance, v);
  }

  lemma ElemsSorted(xs: set<string>)
    ensures Elems(Sorted(xs)) == xs
  {
  }

  /** One more level of depth is one more hop from what was selected. */
  lemma DeeperByOneHop(data: Snapshot, focus: seq<string>, depth: nat, a: Neighborhood, b: Neighborhood)
    requires NeighborhoodOf(data, focus, depth, a) && NeighborhoodOf(data, focus, depth + 1, b)
    ensures Elems(b.nodeRefs) == Elems(a.nodeRefs) + Successors(Hops(data), Elems(a.nodeRefs))
  {
    ElemsSorted(a.distance.Keys);
    ElemsSorted(b.distance.Keys);
    BallUnfold(Hops(data), Elems(focus), depth);
  }

  lemma BallUnfold(g: Graph, from: set<string>, k: nat)
    ensures Ball(g, from, k + 1) == Ball(g, from, k) + Successors(g, Ball(g, from, k))
  {
  }

  // ----- bridge -------------------------------------------------------------------------

  /** The test of the source: forward along the relation, or back if it is not directed. */
  predicate Connects(e: Relation, a: string, b: string) {
    (e.fromId == a && e.toId == b) || (!e.directed && e.fromId == b && e.toId == a)
  }

  /** The relation by itself makes the hop. */
  predicate Leads(e: Relation, a: string, b: string) {
    b in NeighborSet([e], a)
  }

  /** The relations that by themselves make the hop from `a` to `b`. */
  function EdgesBetween(edges: seq<Relation>, a: string, b: string): set<string> {
    set e | e in edges && Leads(e, a, b) :: e.id
  }

  lemma ConnectsLeads(e: Relation, a: string, b: string)
    ensures Connects(e, a, b) <==> Leads(e, a, b)
  {
    assert e in [e];
    assert forall x :: x in [e] <==> x == e;
  }

  lemma LeadsWithin(edges: seq<Relation>, e: Relation, a: string, b: string)
    requires e in edges && Leads(e, a, b)
    ensures b in NeighborSet(edges, a)
  {
    ConnectsLeads(e, a, b);
  }

  /** There is a relation to follow exactly where there is a hop. */
  lemma HopExactly(data: Snapshot, a: string, b: string)
    requires a in NodeIds(data.nodes)
    ensures EdgesBetween(data.edges, a, b) != {} <==> Edge(Hops(data), a, b)
  {
    assert Edge(Hops(data), a, b) <==> b in NeighborSet(data.edges, a);
    if Edge(Hops(data), a, b) { HopHasEdge(data, a, b); }
    if id :| id in EdgesBetween(data.edges, a, b) {
      var e :| e in data.edges && Leads(e, a, b) && e.id == id;
      LeadsWithin(data.edges, e, a, b);
    }
  }

  lemma HopHasEdge(data: Snapshot, a: string, b: string)
    requires Edge(Hops(data), a, b)
    ensures EdgesBetween(data.edges, a, b) != {}
  {
    assert b in NeighborSet(data.edges, a);
    var e :| e in data.edges && ((e.fromId == a && e.toId == b) || (e.toId == a && !e.directed && e.fromId == b));
    ConnectsLeads(e, a, b);
    assert e.id in EdgesBetween(data.edges, a, b);
  }

  /** Every relation on the way is one of the snapshot and is followed forward, or back if it is not
      directed. */
  lemma EdgePathFollowed(data: Snapshot, p: Path, q: seq<string>, i: nat) returns (e: Relation)
    requires EdgePath(data.edges, p, q) && i < |q|
    ensures e in data.edges && e.id == q[i]
    ensures if e.fromId == p[i] then e.toId == p[i + 1] || (!e.directed && e.toId == p[i] && p[i + 1] == e.fromId)
            else e.toId == p[i] && e.fromId == p[i + 1] && !e.directed
  {
    assert q[i] in EdgesBetween(data.edges, p[i], p[i + 1]);
    e :| e in data.edges && Leads(e, p[i], p[i + 1]) && e.id == q[i];
    ConnectsLeads(e, p[i], p[i + 1]);
  }

  lemma {:induction false} IncidentMembers(edges: seq<Relation>, v: string, id: string)
    ensures id in IncidentList(edges, v) <==> exists e :: e in edges && (e.fromId == v || e.toId == v) && e.id == id
  {
    if edges != [] {
      var n := |edges| - 1;
      IncidentMembers(edges[..n], v, id);
      assert edges == edges[..n] + [edges[n]];
    }
  }

  function CandidateSet(list: seq<string>, index: map<string, Relation>, a: string, b: string): set<string> {
    set id | id in list && id in index && Connects(index[id], a, b)
  }

  /** The candidates among the incident relations are all relations between the two nodes. */
  lemma CandidatesExact(edges: seq<Relation>, list: seq<string>, a: string, b: string)
    requires DistinctIds(edges, EdgeId) && multiset(list) == multiset(IncidentList(edges, a))
    ensures CandidateSet(list, IndexMap(edges, EdgeId), a, b) == EdgesBetween(edges, a, b)
  {
    SameElements(list, IncidentList(edges, a));
    forall id ensures id in CandidateSet(list, IndexMap(edges, EdgeId), a, b) <==> id in EdgesBetween(edges, a, b) {
      CandidateExact(edges, list, a, b, id);
    }
  }

  lemma CandidateExact(edges: seq<Relation>, list: seq<string>, a: string, b: string, id: string)
    requires DistinctIds(edges, EdgeId) && (id in list <==> id in IncidentList(edges, a))
    ensures id in CandidateSet(list, IndexMap(edges, EdgeId), a, b) <==> id in EdgesBetween(edges, a, b)
  {
    IncidentMembers(edges, a, id);
    if id in EdgesBetween(edges, a, b) {
      var e :| e in edges && Leads(e, a, b) && e.id == id;
      ConnectsLeads(e, a, b);
      IndexFinds(edges, EdgeId, e);
    }
    if id in CandidateSet(list, IndexMap(edges, EdgeId), a, b) {
      ConnectsLeads(IndexMap(edges, EdgeId)[id], a, b);
    }
  }

  /** The part of the network this query reads. */
  ghost predicate RelationIndexes(net: Network, data: Snapshot) {
    && DistinctIds(data.edges, EdgeId)
    && net.edges == IndexMap(data.edges, EdgeId)
    && IncidentIndex(net.incident, data.edges)
  }

  method CollectCandidates(list: seq<string>, index: map<string, Relation>, a: string, b: string) returns (candidates: set<string>)
    ensures candidates == CandidateSet(list, index, a, b)
  {
    candidates := {};
    for i := 0 to |list|
      invariant candidates == CandidateSet(list[..i], index, a, b)
    {
      var id := list[i];
      assert list[..i + 1] == list[..i] + [id];
      if id in index && Connects(index[id], a, b) {
        candidates := candidates + {id};
      }
    }
    assert list[..|list|] == list;
  }

  /** `_edge_ref_between`: the least relation id from `a` to `b`. None stands for its error. */
  method EdgeRefBetween(net: Network, ghost data: Snapshot, a: string, b: string) returns (r: Option<string>)
    requires RelationIndexes(net, data)
    ensures r.None? <==> EdgesBetween(data.edges, a, b) == {}
    ensures r.Some? ==> IsMin(r.value, EdgesBetween(data.edges, a, b))
  {
    var list := Lookup(net.incident, a);
    var candidates := CollectCandidates(list, net.edges, a, b);
    CandidatesExact(data.edges, list, a, b);
    if candidates == {} {
      return None;
    }
    r := Some(Sorted(candidates)[0]);
    SortedHead(candidates);
  }

  lemma SortedHead(xs: set<string>)
    requires xs != {}
    ensures Sorted(xs) != [] && IsMin(Sorted(xs)[0], xs)
  {
    var s := Sorted(xs);
    HeadIn(s);
    forall x | x in xs ensures Le(s[0], x) {
      assert x in s;
      AscendingHead(s, x);
    }
  }

  datatype Bridge = Bridge(
    start: string, goal: string, nodePaths: seq<Path>, edgePaths: seq<seq<string>>, nodeRefs: seq<string>, edgeRefs: seq<string>)

  /** Along the path, always the least relation. */
  ghost predicate EdgePath(edges: seq<Relation>, p: Path, q: seq<string>) {
    |p| > 0 && |q| == |p| - 1 && forall i :: 0 <= i < |q| ==> IsMin(q[i], EdgesBetween(edges, p[i], p[i + 1]))
  }

  function AllRefs(paths: seq<seq<string>>): set<string> {
    set p, r | p in paths && r in p :: r
  }

  ghost predicate BridgeOf(data: Snapshot, start: string, goal: string, paths: seq<Path>, r: Bridge) {
    && r.start == start && r.goal == goal
    && r.nodePaths == paths
    && |r.edgePaths| == |paths| && (forall i :: 0 <= i < |paths| ==> EdgePath(data.edges, paths[i], r.edgePaths[i]))
    && r.nodeRefs == Sorted(AllRefs(paths))
    && r.edgeRefs == Sorted(AllRefs(r.edgePaths))
  }

  ghost predicate IsBridge(data: Snapshot, fromRef: string, toRef: string, maxDepth: int, maxPaths: int, r: Result<Bridge>) {
    var known := NodeIds(data.nodes);
    if fromRef !in known then r == Err(UnknownRefs([fromRef]))
    else if toRef !in known then r == Err(UnknownRefs([toRef]))
    else if fromRef == toRef then r.Ok? && BridgeOf(data, fromRef, toRef, [[fromRef]], r.value)
    else if maxDepth < 1 || maxDepth > 8 then r == Err(BadMaxDepth)
    else if maxPaths < 1 || maxPaths > 32 then r == Err(BadMaxPaths)
    else (
      && r.Ok?
      && BridgePaths(Hops(data), fromRef, toRef, maxDepth, maxPaths, r.value.nodePaths)
      && BridgeOf(data, fromRef, toRef, r.value.nodePaths, r.value))
  }

  lemma WalkHasEdges(data: Snapshot, p: Path, i: nat)
    requires Walk(Hops(data), p) && i < |p| - 1
    ensures EdgesBetween(data.edges, p[i], p[i + 1]) != {}
  {
    assert Step(Hops(data), p, i);
    HopHasEdge(data, p[i], p[i + 1]);
  }

  /** The relations along one walk; the error case never arises. */
  method FollowPath(net: Network, ghost data: Snapshot, p: Path) returns (q: seq<string>)
    requires RelationIndexes(net, data) && Walk(Hops(data), p)
    ensures EdgePath(data.edges, p, q)
  {
    q := [];
    for i := 0 to |p| - 1
      invariant |q| == i && forall j :: 0 <= j < i ==> IsMin(q[j], EdgesBetween(data.edges, p[j], p[j + 1]))
    {
      WalkHasEdges(data, p, i);
      var e := EdgeRefBetween(net, data, p[i], p[i + 1]);
      q := q + [e.value];
    }
  }

  method FollowPaths(net: Network, ghost data: Snapshot, paths: seq<Path>) returns (r: seq<seq<string>>)
    requires RelationIndexes(net, data) && forall p :: p in paths ==> Walk(Hops(data), p)
    ensures |r| == |paths| && forall i :: 0 <= i < |paths| ==> EdgePath(data.edges, paths[i], r[i])
  {
    r := [];
    for i := 0 to |paths|
      invariant |r| == i && forall j :: 0 <= j < i ==> EdgePath(data.edges, paths[j], r[j])
    {
      var q := FollowPath(net, data, paths[i]);
      r := r + [q];
    }
  }

  method QueryBridge(net: Network, ghost data: Snapshot, fromRef: string, toRef: string, maxDepth: int, maxPaths: int)
    returns (r: Result<Bridge>)
    requires IsNetwork(net, data)
    ensures IsBridge(data, fromRef, toRef, maxDepth, maxPaths, r)
  {
    NetworkHops(net, data);
    HopsGood(data);
    if fromRef !in net.nodes {
      return Err(UnknownRefs([fromRef]));
    }
    if toRef !in net.nodes {
      return Err(UnknownRefs([toRef]));
    }
    var paths: seq<Path>;
    if fromRef == toRef {
      paths := [[fromRef]];
    } else {
      if maxDepth < 1 || maxDepth > 8 {
        return Err(BadMaxDepth);
      }
      if maxPaths < 1 || maxPaths > 32 {
        return Err(BadMaxPaths);
      }
      paths := FindPaths(net.adjacency, fromRef, toRef, maxDepth, maxPaths);
      BridgePathsWalk(net.adjacency, fromRef, toRef, maxDepth, maxPaths, paths);
    }
    var bridge := FinishBridge(net, data, fromRef, toRef, paths);
    r := Ok(bridge);
  }

  method FinishBridge(net: Network, ghost data: Snapshot, fromRef: string, toRef: string, paths: seq<Path>) returns (r: Bridge)
    requires RelationIndexes(net, data) && forall p :: p in paths ==> Walk(Hops(data), p)
    ensures r.nodePaths == paths && BridgeOf(data, fromRef, toRef, paths, r)
  {
    var edgePaths := FollowPaths(net, data, paths);
    r := Bridge(fromRef, toRef, paths, edgePaths, Sorted(AllRefs(paths)), Sorted(AllRefs(edgePaths)));
  }

  lemma EdgePathUnique(edges: seq<Relation>, p: Path, a: seq<string>, b: seq<string>)
    requires EdgePath(edges, p, a) && EdgePath(edges, p, b)
    ensures a == b
  {
    forall i | 0 <= i < |a| ensures a[i] == b[i] {
      MinUnique(a[i], b[i], EdgesBetween(edges, p[i], p[i + 1]));
    }
  }

  lemma BridgeOfUnique(data: Snapshot, start: string, goal: string, paths: seq<Path>, a: Bridge, b: Bridge)
    requires BridgeOf(data, start, goal, paths, a) && BridgeOf(data, start, goal, paths, b)
    ensures a == b
  {
    forall i | 0 <= i < |paths| ensures a.edgePaths[i] == b.edgePaths[i] {
      EdgePathUnique(data.edges, paths[i], a.edgePaths[i], b.edgePaths[i]);
    }
    assert a.edgePaths == b.edgePaths;
  }

  lemma BridgeAnswerUnique(data: Snapshot, fromRef: string, toRef: string, maxDepth: int, maxPaths: int, a: Result<Bridge>, b: Result<Bridge>)
    requires IsBridge(data, fromRef, toRef, maxDepth, maxPaths, a) && IsBridge(data, fromRef, toRef, maxDepth, maxPaths, b)
    ensures a == b
  {
    if a.Ok? {
      if fromRef != toRef {
        BridgeUnique(Hops(data), fromRef, toRef, maxDepth, maxPaths, a.value.nodePaths, b.value.nodePaths);
      }
      BridgeOfUnique(data, fromRef, toRef, a.value.nodePaths, a.value, b.value);
    }
  }

  /** Paths are found exactly when the goal is within `maxDepth` hops. */
  lemma PathsFound(data: Snapshot, fromRef: string, toRef: string, maxDepth: int, maxPaths: int, r: Result<Bridge>)
    requires IsBridge(data, fromRef, toRef, maxDepth, maxPaths, r) && r.Ok?
    requires 1 <= maxDepth && 1 <= maxPaths
    ensures r.value.nodePaths != [] <==> toRef in Ball(Hops(data), {fromRef}, maxDepth)
  {
    if fromRef == toRef {
      BallGrows(Hops(data), {fromRef}, 0, maxDepth);
    } else {
      BridgeFound(Hops(data), fromRef, toRef, maxDepth, maxPaths, r.value.nodePaths);
    }
  }
}
