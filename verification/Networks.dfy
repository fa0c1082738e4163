/** The query network: a snapshot with the indexes the queries read. */
module Networks {
  import opened Options
  import opened Ordering
  import opened Graphs
  import opened Snapshots

  datatype Network = Network(
    data: Snapshot,
    nodes: map<string, Node>,
    edges: map<string, Relation>,
    critiques: map<string, Critique>,
    contradictions: map<string, Contradiction>,
    adjacency: Graph,
    incident: map<string, seq<string>>,
    islands: map<string, seq<string>>,
    critiquesOf: map<string, seq<string>>,
    contradictionsOf: map<string, seq<string>>)

  // ----- what the indexes hold, by direct scan of the lists -----------------------------

  /** `{item.id: item for item in items}` */
  function IndexMap<T(!new)>(items: seq<T>, id: T -> string): (m: map<string, T>)
    ensures forall r :: r in m ==> m[r] in items && id(m[r]) == r
    ensures forall x :: x in items ==> id(x) in m
  {
    if items == [] then map[] else
      var n := |items| - 1;
      assert items == items[..n] + [items[n]];
      IndexMap(items[..n], id)[id(items[n]) := items[n]]
  }

  lemma IndexFinds<T(!new)>(items: seq<T>, id: T -> string, x: T)
    requires DistinctIds(items, id) && x in items
    ensures IndexMap(items, id)[id(x)] == x
  {
    var y := IndexMap(items, id)[id(x)];
    var i :| 0 <= i < |items| && items[i] == x;
    var j :| 0 <= j < |items| && items[j] == y;
    assert Map(items, id)[i] == Map(items, id)[j];
  }

  /** Where one hop leads from `v`: along relations, and back along undirected ones. */
  function NeighborSet(edges: seq<Relation>, v: string): set<string> {
    (set e | e in edges && e.fromId == v :: e.toId) + (set e | e in edges && e.toId == v && !e.directed :: e.fromId)
  }

  /** The ids of the relations at `v`, once per end. */
  function IncidentList(edges: seq<Relation>, v: string): seq<string> {
    if edges == [] then [] else
      var n := |edges| - 1;
      var e := edges[n];
      IncidentList(edges[..n], v) + (if e.fromId == v then [e.id] else []) + (if e.toId == v then [e.id] else [])
  }

  function IslandList(nodes: seq<Node>, island: string): seq<string> {
    if nodes == [] then [] else
      var n := |nodes| - 1;
      IslandList(nodes[..n], island) + (if nodes[n].islandId == island then [nodes[n].id] else [])
  }

  function CritiqueList(critiques: seq<Critique>, v: string): seq<string> {
    if critiques == [] then [] else
      var n := |critiques| - 1;
      CritiqueList(critiques[..n], v) + (if critiques[n].targetRef == v then [critiques[n].id] else [])
  }

  function ContradictionList(items: seq<Contradiction>, v: string): seq<string> {
    if items == [] then [] else
      var n := |items| - 1;
      var c := items[n];
      ContradictionList(items[..n], v) + (if c.fromId == v then [c.id] else []) + (if c.toId == v then [c.id] else [])
  }

  /** `index.get(key, [])` */
  function Lookup(index: map<string, seq<string>>, key: string): seq<string> {
    if key in index then index[key] else []
  }

  ghost predicate IncidentIndex(m: map<string, seq<string>>, edges: seq<Relation>) {
    forall k {:trigger Lookup(m, k)} :: Lookup(m, k) == SortBy(IncidentList(edges, k), Le)
  }

  ghost predicate IslandIndex(m: map<string, seq<string>>, nodes: seq<Node>) {
    forall k {:trigger Lookup(m, k)} :: k != "" ==> Lookup(m, k) == SortBy(IslandList(nodes, k), Le)
  }

  ghost predicate CritiqueIndex(m: map<string, seq<string>>, critiques: seq<Critique>) {
    forall k {:trigger Lookup(m, k)} :: Lookup(m, k) == SortBy(CritiqueList(critiques, k), Le)
  }

  ghost predicate ContradictionIndex(m: map<string, seq<string>>, items: seq<Contradiction>) {
    forall k {:trigger Lookup(m, k)} :: Lookup(m, k) == SortBy(ContradictionList(items, k), Le)
  }

  /** `net` is the network of the snapshot `data`: every index equals a scan of the lists. */
  ghost predicate IsNetwork(net: Network, data: Snapshot) {
    && WellFormed(data)
    && net.data == data
    && net.nodes == IndexMap(data.nodes, NodeId)
    && net.edges == IndexMap(data.edges, EdgeId)
    && net.critiques == IndexMap(data.critiques, CritiqueId)
    && net.contradictions == IndexMap(data.contradictions, ContradictionId)
    && net.adjacency.Keys == net.nodes.Keys
    && (forall v :: v in net.nodes ==> net.adjacency[v] == Sorted(NeighborSet(data.edges, v)))
    && net.incident.Keys == net.nodes.Keys
    && IncidentIndex(net.incident, data.edges)
    && IslandIndex(net.islands, data.nodes)
    && CritiqueIndex(net.critiquesOf, data.critiques)
    && ContradictionIndex(net.contradictionsOf, data.contradictions)
  }

  // ----- building the indexes -----------------------------------------------------------

  /** `index[key].append(x)` on a defaulting dictionary. */
  function Append(index: map<string, seq<string>>, key: string, x: string): map<string, seq<string>> {
    index[key := Lookup(index, key) + [x]]
  }

  lemma AppendOnce(index: map<string, seq<string>>, key: string, x: string, k: string)
    ensures Lookup(Append(index, key, x), k) == Lookup(index, k) + (if key == k then [x] else [])
  {
  }

  ghost predicate IncidentScan(m: map<string, seq<string>>, edges: seq<Relation>) {
    forall k {:trigger Lookup(m, k)} :: Lookup(m, k) == IncidentList(edges, k)
  }

  lemma IncidentStep(m: map<string, seq<string>>, edges: seq<Relation>, i: nat)
    requires i < |edges| && IncidentScan(m, edges[..i])
    ensures var e := edges[i]; IncidentScan(Append(Append(m, e.fromId, e.id), e.toId, e.id), edges[..i + 1])
    ensures var e := edges[i]; Append(Append(m, e.fromId, e.id), e.toId, e.id).Keys == m.Keys + {e.fromId, e.toId}
  {
    var e := edges[i];
    var once := Append(m, e.fromId, e.id);
    assert edges[..i + 1][..i] == edges[..i];
    forall k ensures Lookup(Append(once, e.toId, e.id), k) == IncidentList(edges[..i + 1], k) {
      AppendOnce(m, e.fromId, e.id, k);
      AppendOnce(once, e.toId, e.id, k);
    }
  }

  ghost predicate IslandScan(m: map<string, seq<string>>, nodes: seq<Node>) {
    forall k {:trigger Lookup(m, k)} :: k != "" ==> Lookup(m, k) == IslandList(nodes, k)
  }

  lemma IslandStep(m: map<string, seq<string>>, nodes: seq<Node>, i: nat)
    requires i < |nodes| && IslandScan(m, nodes[..i])
    ensures IslandScan(if nodes[i].islandId != "" then Append(m, nodes[i].islandId, nodes[i].id) else m, nodes[..i + 1])
  {
    assert nodes[..i + 1][..i] == nodes[..i];
    forall k ensures Lookup(Append(m, nodes[i].islandId, nodes[i].id), k)
                     == Lookup(m, k) + (if nodes[i].islandId == k then [nodes[i].id] else []) {
      AppendOnce(m, nodes[i].islandId, nodes[i].id, k);
    }
  }

  ghost predicate CritiqueScan(m: map<string, seq<string>>, critiques: seq<Critique>) {
    forall k {:trigger Lookup(m, k)} :: Lookup(m, k) == CritiqueList(critiques, k)
  }

  lemma CritiqueStep(m: map<string, seq<string>>, critiques: seq<Critique>, i: nat)
    requires i < |critiques| && CritiqueScan(m, critiques[..i])
    ensures CritiqueScan(Append(m, critiques[i].targetRef, critiques[i].id), critiques[..i + 1])
  {
    assert critiques[..i + 1][..i] == critiques[..i];
    forall k ensures Lookup(Append(m, critiques[i].targetRef, critiques[i].id), k) == CritiqueList(critiques[..i + 1], k) {
      AppendOnce(m, critiques[i].targetRef, critiques[i].id, k);
    }
  }

  ghost predicate ContradictionScan(m: map<string, seq<string>>, items: seq<Contradiction>) {
    forall k {:trigger Lookup(m, k)} :: Lookup(m, k) == ContradictionList(items, k)
  }

  lemma ContradictionStep(m: map<string, seq<string>>, items: seq<Contradiction>, i: nat)
    requires i < |items| && ContradictionScan(m, items[..i])
    ensures var c := items[i]; ContradictionScan(Append(Append(m, c.fromId, c.id), c.toId, c.id), items[..i + 1])
  {
    var c := items[i];
    var once := Append(m, c.fromId, c.id);
    assert items[..i + 1][..i] == items[..i];
    forall k ensures Lookup(Append(once, c.toId, c.id), k) == ContradictionList(items[..i + 1], k) {
      AppendOnce(m, c.fromId, c.id, k);
      AppendOnce(once, c.toId, c.id, k);
    }
  }

  /** Sorting the entries of an index sorts what a lookup finds. */
  method SortEntries(m: map<string, seq<string>>) returns (r: map<string, seq<string>>)
    ensures r.Keys == m.Keys
    ensures forall k {:trigger Lookup(r, k)} :: Lookup(r, k) == SortBy(Lookup(m, k), Le)
  {
    r := map k | k in m :: SortBy(m[k], Le);
  }

  method BuildAdjacency(edges: seq<Relation>, ids: set<string>) returns (r: Graph)
    requires forall e :: e in edges ==> e.fromId in ids && e.toId in ids
    ensures r.Keys == ids && forall v :: v in ids ==> r[v] == Sorted(NeighborSet(edges, v))
  {
    var m := CollectNeighbors(edges, ids);
    r := map v | v in ids :: Sorted(m[v]);
  }

  method CollectNeighbors(edges: seq<Relation>, ids: set<string>) returns (m: map<string, set<string>>)
    requires forall e :: e in edges ==> e.fromId in ids && e.toId in ids
    ensures m.Keys == ids && forall v :: v in ids ==> m[v] == NeighborSet(edges, v)
  {
    m := map v | v in ids :: {};
    for i := 0 to |edges|
      invariant m.Keys == ids
      invariant forall v :: v in ids ==> m[v] == NeighborSet(edges[..i], v)
    {
      var e := edges[i];
      assert e in edges;
      ghost var before := m;
      m := m[e.fromId := m[e.fromId] + {e.toId}];
      if !e.directed {
        m := m[e.toId := m[e.toId] + {e.fromId}];
      }
      AdjacencyStep(edges, i, ids, before, m);
    }
    assert edges[..|edges|] == edges;
  }

  lemma AdjacencyStep(edges: seq<Relation>, i: nat, ids: set<string>, before: map<string, set<string>>, after: map<string, set<string>>)
    requires i < |edges| && edges[i].fromId in ids && edges[i].toId in ids
    requires before.Keys == ids && forall v :: v in ids ==> before[v] == NeighborSet(edges[..i], v)
    requires var e := edges[i];
      var out := before[e.fromId := before[e.fromId] + {e.toId}];
      after == if e.directed then out else out[e.toId := out[e.toId] + {e.fromId}]
    ensures after.Keys == ids && forall v :: v in ids ==> after[v] == NeighborSet(edges[..i + 1], v)
  {
    assert edges[..i + 1] == edges[..i] + [edges[i]];
    forall v | v in ids ensures after[v] == NeighborSet(edges[..i + 1], v) {
      NeighborSetSnoc(edges[..i], edges[i], v);
    }
  }

  lemma NeighborSetSnoc(edges: seq<Relation>, e: Relation, v: string)
    ensures NeighborSet(edges + [e], v) == NeighborSet(edges, v)
      + (if e.fromId == v then {e.toId} else {}) + (if e.toId == v && !e.directed then {e.fromId} else {})
  {
    var all := edges + [e];
    assert forall x :: x in all <==> x in edges || x == e;
  }

  method BuildIncident(edges: seq<Relation>, ids: set<string>) returns (r: map<string, seq<string>>)
    requires forall e :: e in edges ==> e.fromId in ids && e.toId in ids
    ensures r.Keys == ids && IncidentIndex(r, edges)
  {
    var m := CollectIncident(edges, ids);
    r := SortEntries(m);
  }

  method CollectIncident(edges: seq<Relation>, ids: set<string>) returns (m: map<string, seq<string>>)
    requires forall e :: e in edges ==> e.fromId in ids && e.toId in ids
    ensures m.Keys == ids && IncidentScan(m, edges)
  {
    m := map v | v in ids :: [];
    for i := 0 to |edges|
      invariant m.Keys == ids && IncidentScan(m, edges[..i])
    {
      var e := edges[i];
      assert e in edges;
      assert {e.fromId, e.toId} <= ids;
      IncidentStep(m, edges, i);
      m := Append(Append(m, e.fromId, e.id), e.toId, e.id);
    }
    assert edges[..|edges|] == edges;
  }

  method BuildIslands(nodes: seq<Node>) returns (r: map<string, seq<string>>)
    ensures IslandIndex(r, nodes)
  {
    var m: map<string, seq<string>> := map[];
    for i := 0 to |nodes|
      invariant IslandScan(m, nodes[..i])
    {
      IslandStep(m, nodes, i);
      if nodes[i].islandId != "" {
        m := Append(m, nodes[i].islandId, nodes[i].id);
      }
    }
    assert nodes[..|nodes|] == nodes;
    r := SortEntries(m);
  }

  method BuildCritiques(critiques: seq<Critique>) returns (r: map<string, seq<string>>)
    ensures CritiqueIndex(r, critiques)
  {
    var m: map<string, seq<string>> := map[];
    for i := 0 to |critiques|
      invariant CritiqueScan(m, critiques[..i])
    {
      CritiqueStep(m, critiques, i);
      m := Append(m, critiques[i].targetRef, critiques[i].id);
    }
    assert critiques[..|critiques|] == critiques;
    r := SortEntries(m);
  }

  method BuildContradictions(items: seq<Contradiction>) returns (r: map<string, seq<string>>)
    ensures ContradictionIndex(r, items)
  {
    var m: map<string, seq<string>> := map[];
    for i := 0 to |items|
      invariant ContradictionScan(m, items[..i])
    {
      var c := items[i];
      ContradictionStep(m, items, i);
      m := Append(Append(m, c.fromId, c.id), c.toId, c.id);
    }
    assert items[..|items|] == items;
    r := SortEntries(m);
  }

  lemma NodeMapKeys(nodes: seq<Node>)
    ensures IndexMap(nodes, NodeId).Keys == NodeIds(nodes)
  {
  }

  // ----- what the constructor accepts ---------------------------------------------------

  lemma GoodIdsStep(ids: seq<string>, n: nat)
    requires n < |ids| && GoodIds(ids[..n])
    ensures GoodIds(ids[..n + 1]) <==> ids[n] != "" && ids[n] !in ids[..n]
    ensures !GoodIds(ids[..n + 1]) ==> !GoodIds(ids)
  {
    assert ids[..n + 1] == ids[..n] + [ids[n]];
    if ids[n] in ids[..n] {
      var i :| 0 <= i < n && ids[..n][i] == ids[n];
      assert ids[..n + 1][i] == ids[..n + 1][n];
    }
    if GoodIds(ids) {
      assert forall i :: 0 <= i < n + 1 ==> ids[..n + 1][i] == ids[i];
    }
  }

  lemma IndexKeys<T(!new)>(items: seq<T>, id: T -> string, n: nat, r: string)
    requires n <= |items|
    ensures r in IndexMap(items[..n], id) <==> r in Map(items, id)[..n]
  {
    if r in IndexMap(items[..n], id) {
      var x := IndexMap(items[..n], id)[r];
      var i :| 0 <= i < n && items[..n][i] == x;
      assert Map(items, id)[..n][i] == r;
    }
    if r in Map(items, id)[..n] {
      var i :| 0 <= i < n && Map(items, id)[..n][i] == r;
      assert items[..n][i] in items[..n];
    }
  }

  lemma IndexStep<T(!new)>(items: seq<T>, id: T -> string, n: nat)
    requires n < |items|
    ensures IndexMap(items[..n + 1], id) == IndexMap(items[..n], id)[id(items[n]) := items[n]]
  {
    assert items[..n + 1][..n] == items[..n];
  }

  lemma TakenExactly<T(!new)>(items: seq<T>, id: T -> string, n: nat)
    requires n < |items| && GoodIds(Map(items, id)[..n])
    ensures id(items[n]) == "" || id(items[n]) in IndexMap(items[..n], id) ==> !DistinctIds(items, id)
    ensures !(id(items[n]) == "" || id(items[n]) in IndexMap(items[..n], id)) ==> GoodIds(Map(items, id)[..n + 1])
  {
    GoodIdsStep(Map(items, id), n);
    IndexKeys(items, id, n, id(items[n]));
  }

  /** Indexes the items, unless an id is empty or occurs twice. */
  method IndexItems<T(!new)>(items: seq<T>, id: T -> string) returns (r: Option<map<string, T>>)
    ensures r.Some? <==> DistinctIds(items, id)
    ensures r.Some? ==> r.value == IndexMap(items, id)
  {
    ghost var ids := Map(items, id);
    var out: map<string, T> := map[];
    var n := 0;
    while n < |items|
      invariant n <= |items| && out == IndexMap(items[..n], id) && GoodIds(ids[..n])
    {
      var x := items[n];
      TakenExactly(items, id, n);
      if id(x) == "" || id(x) in out {
        return None;
      }
      IndexStep(items, id, n);
      out := out[id(x) := x];
      n := n + 1;
    }
    assert items[..n] == items && ids[..n] == ids;
    r := Some(out);
  }

  method CheckAll<T(!new)>(items: seq<T>, good: T -> bool) returns (ok: bool)
    ensures ok <==> forall x :: x in items ==> good(x)
  {
    var n := 0;
    while n < |items|
      invariant n <= |items| && forall i :: 0 <= i < n ==> good(items[i])
    {
      if !good(items[n]) {
        assert items[n] in items;
        return false;
      }
      n := n + 1;
    }
    ok := true;
  }

  /** Every end, target and source that is named exists. */
  method ValidateRefs(data: Snapshot, known: set<string>, sources: set<string>) returns (ok: bool)
    requires known == NodeIds(data.nodes) && sources == SourceIds(data.sources)
    ensures ok <==> GoodRefs(data)
  {
    ok := CheckAll(data.edges, (e: Relation) => e.fromId in known && e.toId in known);
    if !ok {
      return;
    }
    ok := CheckAll(data.critiques, (c: Critique) => c.targetRef in known);
    if !ok {
      return;
    }
    ok := CheckAll(data.contradictions, (c: Contradiction) => c.fromId in known && c.toId in known);
    if !ok {
      return;
    }
    ok := CheckAll(data.nodes, (n: Node) => forall r :: r in n.sourceRefs ==> r in sources);
  }

  /** The checks of the constructor, in order. */
  method Validate(data: Snapshot) returns (ok: bool)
    ensures ok <==> WellFormed(data)
  {
    if data.networkId == "" {
      return false;
    }
    var nodes := IndexItems(data.nodes, NodeId);
    var edges := IndexItems(data.edges, EdgeId);
    var critiques := IndexItems(data.critiques, CritiqueId);
    var contradictions := IndexItems(data.contradictions, ContradictionId);
    var events := IndexItems(data.events, EventId);
    var sources := IndexItems(data.sources, SourceId);
    if nodes.None? || edges.None? || critiques.None? || contradictions.None? || events.None? || sources.None? {
      return false;
    }
    NodeMapKeys(data.nodes);
    SourceMapKeys(data.sources);
    ok := ValidateRefs(data, nodes.value.Keys, sources.value.Keys);
  }

  lemma SourceMapKeys(sources: seq<Source>)
    ensures IndexMap(sources, SourceId).Keys == SourceIds(sources)
  {
  }

  /** The constructor: refuses a malformed snapshot, else builds every index. */
  method Build(data: Snapshot) returns (r: Option<Network>)
    ensures r.Some? <==> WellFormed(data)
    ensures r.Some? ==> IsNetwork(r.value, data)
  {
    var ok := Validate(data);
    if !ok {
      return None;
    }
    var nodes := IndexMap(data.nodes, NodeId);
    NodeMapKeys(data.nodes);
    var adjacency := BuildAdjacency(data.edges, nodes.Keys);
    var incident := BuildIncident(data.edges, nodes.Keys);
    var islands := BuildIslands(data.nodes);
    var critiques := BuildCritiques(data.critiques);
    var opposed := BuildContradictions(data.contradictions);
    r := Some(Network(data, nodes, IndexMap(data.edges, EdgeId), IndexMap(data.critiques, CritiqueId),
                      IndexMap(data.contradictions, ContradictionId), adjacency, incident, islands, critiques, opposed));
  }
}
