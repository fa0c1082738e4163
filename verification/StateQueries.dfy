/** The queries that read states rather than paths: what is left over, and what is
    unresolved. Each is specified by a scan of the snapshot's lists. */
module StateQueries {
  import opened Options
  import opened Ordering
  import opened Graphs
  import opened Snapshots
  import opened Networks
  import opened PathQueries

  const RESOLVED := "resolved"
  const UNREVIEWED := "unreviewed"

  function Nodes(data: Snapshot): map<string, Node> {
    IndexMap(data.nodes, NodeId)
  }

  /** `None` stands for the whole network. */
  function ScopeOf(data: Snapshot, scope: Option<seq<string>>): Result<seq<string>> {
    match scope
    case None => Ok(Sorted(NodeIds(data.nodes)))
    case Some(refs) => RequireNodeRefs(NodeIds(data.nodes), refs)
  }

  lemma ScopeKnown(data: Snapshot, scope: Option<seq<string>>)
    requires ScopeOf(data, scope).Ok?
    ensures forall r :: r in ScopeOf(data, scope).value ==> r in Nodes(data) && r in NodeIds(data.nodes)
    ensures Ascending(ScopeOf(data, scope).value)
  {
    NodeMapKeys(data.nodes);
    if scope.Some? {
      RequiredRefs(NodeIds(data.nodes), scope.value);
      forall r | r in ScopeOf(data, scope).value ensures r in NodeIds(data.nodes) {
        assert r in Elems(ScopeOf(data, scope).value);
      }
    }
  }

  // ----- reasons, by scanning the lists -------------------------------------------------

  predicate Held(n: Node) {
    n.holdState == "held" || n.holdState == "pending" || n.holdState == "shelved"
  }

  function OpenCritiques(critiques: seq<Critique>, ref: string): set<string> {
    set c | c in critiques && c.targetRef == ref && c.state != RESOLVED :: c.id
  }

  predicate Contested(items: seq<Contradiction>, ref: string) {
    exists c :: c in items && (c.fromId == ref || c.toId == ref) && c.state != RESOLVED
  }

  predicate Connected(edges: seq<Relation>, ref: string) {
    exists e :: e in edges && (e.fromId == ref || e.toId == ref)
  }

  /** Which of the reason codes apply. (The program lists their names, sorted.) */
  datatype Reasons = Reasons(
    singletonIsland: bool,
    heldOrPending: bool,
    hasCritique: bool,
    unconnected: bool,
    unresolvedContradiction: bool,
    missingProvenance: bool)
  {
    predicate Any() {
      singletonIsland || heldOrPending || hasCritique || unconnected || unresolvedContradiction || missingProvenance
    }
  }

  /** Why the node is left over. */
  function ResidualReasons(data: Snapshot, n: Node): Reasons {
    Reasons(
      n.islandId != "" && |IslandList(data.nodes, n.islandId)| == 1,
      Held(n),
      OpenCritiques(data.critiques, n.id) != {},
      !Connected(data.edges, n.id),
      Contested(data.contradictions, n.id),
      n.sourceRefs == [])
  }

  // ----- reasons, by the indexes --------------------------------------------------------

  function IndexedOpen(net: Network, ref: string): set<string> {
    set id | id in Lookup(net.critiquesOf, ref) && id in net.critiques && net.critiques[id].state != RESOLVED
  }

  predicate IndexedContested(net: Network, ref: string) {
    exists id :: id in Lookup(net.contradictionsOf, ref) && id in net.contradictions && net.contradictions[id].state != RESOLVED
  }

  function IndexedReasons(net: Network, n: Node): Reasons {
    Reasons(
      n.islandId != "" && |Lookup(net.islands, n.islandId)| == 1,
      Held(n),
      IndexedOpen(net, n.id) != {},
      Lookup(net.incident, n.id) == [],
      IndexedContested(net, n.id),
      n.sourceRefs == [])
  }

  lemma {:induction false} CritiqueMembers(critiques: seq<Critique>, v: string, id: string)
    ensures id in CritiqueList(critiques, v) <==> exists c :: c in critiques && c.targetRef == v && c.id == id
  {
    if critiques != [] {
      var n := |critiques| - 1;
      CritiqueMembers(critiques[..n], v, id);
      assert critiques == critiques[..n] + [critiques[n]];
    }
  }

  lemma {:induction false} ContradictionMembers(items: seq<Contradiction>, v: string, id: string)
    ensures id in ContradictionList(items, v) <==> exists c :: c in items && (c.fromId == v || c.toId == v) && c.id == id
  {
    if items != [] {
      var n := |items| - 1;
      ContradictionMembers(items[..n], v, id);
      assert items == items[..n] + [items[n]];
    }
  }

  lemma OpenExact(critiques: seq<Critique>, list: seq<string>, ref: string)
    requires DistinctIds(critiques, CritiqueId) && multiset(list) == multiset(CritiqueList(critiques, ref))
    ensures var index := IndexMap(critiques, CritiqueId);
      (set id | id in list && id in index && index[id].state != RESOLVED) == OpenCritiques(critiques, ref)
  {
    var index := IndexMap(critiques, CritiqueId);
    SameElements(list, CritiqueList(critiques, ref));
    forall id ensures id in list && id in index && index[id].state != RESOLVED <==> id in OpenCritiques(critiques, ref) {
      CritiqueMembers(critiques, ref, id);
      if c :| c in critiques && c.targetRef == ref && c.id == id {
        IndexFinds(critiques, CritiqueId, c);
      }
      if c :| c in critiques && c.targetRef == ref && c.state != RESOLVED && c.id == id {
        IndexFinds(critiques, CritiqueId, c);
      }
    }
  }

  lemma ContestedExact(items: seq<Contradiction>, list: seq<string>, ref: string)
    requires DistinctIds(items, ContradictionId) && multiset(list) == multiset(ContradictionList(items, ref))
    ensures var index := IndexMap(items, ContradictionId);
      (exists id :: id in list && id in index && index[id].state != RESOLVED) <==> Contested(items, ref)
  {
    var index := IndexMap(items, ContradictionId);
    SameElements(list, ContradictionList(items, ref));
    if id :| id in list && id in index && index[id].state != RESOLVED {
      ContradictionMembers(items, ref, id);
      var c :| c in items && (c.fromId == ref || c.toId == ref) && c.id == id;
      IndexFinds(items, ContradictionId, c);
    }
    if c :| c in items && (c.fromId == ref || c.toId == ref) && c.state != RESOLVED {
      ContradictionMembers(items, ref, c.id);
      IndexFinds(items, ContradictionId, c);
    }
  }

  lemma ConnectedExact(edges: seq<Relation>, list: seq<string>, ref: string)
    requires multiset(list) == multiset(IncidentList(edges, ref))
    ensures list == [] <==> !Connected(edges, ref)
  {
    SameElements(list, IncidentList(edges, ref));
    HeadIn(list);
    if list != [] { IncidentMembers(edges, ref, list[0]); }
    if e :| e in edges && (e.fromId == ref || e.toId == ref) { IncidentMembers(edges, ref, e.id); }
  }

  lemma IslandCount(net: Network, data: Snapshot, island: string)
    requires IslandIndex(net.islands, data.nodes)
    ensures island != "" ==> |Lookup(net.islands, island)| == |IslandList(data.nodes, island)|
  {
    if island != "" {
      SameElements(Lookup(net.islands, island), IslandList(data.nodes, island));
    }
  }

  /** The part of the network these queries read. */
  ghost predicate StateIndexes(net: Network, data: Snapshot) {
    && DistinctIds(data.critiques, CritiqueId) && net.critiques == IndexMap(data.critiques, CritiqueId)
    && DistinctIds(data.contradictions, ContradictionId) && net.contradictions == IndexMap(data.contradictions, ContradictionId)
    && IncidentIndex(net.incident, data.edges)
    && IslandIndex(net.islands, data.nodes)
    && CritiqueIndex(net.critiquesOf, data.critiques)
    && ContradictionIndex(net.contradictionsOf, data.contradictions)
    && net.nodes == Nodes(data)
    && net.data == data
  }

  /** Reading the indexes finds what scanning the lists finds. */
  lemma IndexedReasonsExact(net: Network, data: Snapshot, n: Node)
    requires StateIndexes(net, data)
    ensures IndexedReasons(net, n) == ResidualReasons(data, n)
  {
    IndexedOpenExact(net, data, n.id);
    IndexedContestedExact(net, data, n.id);
    IndexedConnectedExact(net, data, n.id);
    IslandCount(net, data, n.islandId);
  }

  lemma IndexedOpenExact(net: Network, data: Snapshot, ref: string)
    requires DistinctIds(data.critiques, CritiqueId) && net.critiques == IndexMap(data.critiques, CritiqueId)
    requires CritiqueIndex(net.critiquesOf, data.critiques)
    ensures IndexedOpen(net, ref) == OpenCritiques(data.critiques, ref)
  {
    OpenExact(data.critiques, Lookup(net.critiquesOf, ref), ref);
  }

  lemma IndexedContestedExact(net: Network, data: Snapshot, ref: string)
    requires DistinctIds(data.contradictions, ContradictionId)
    requires net.contradictions == IndexMap(data.contradictions, ContradictionId)
    requires ContradictionIndex(net.contradictionsOf, data.contradictions)
    ensures IndexedContested(net, ref) <==> Contested(data.contradictions, ref)
  {
    ContestedExact(data.contradictions, Lookup(net.contradictionsOf, ref), ref);
  }

  lemma IndexedConnectedExact(net: Network, data: Snapshot, ref: string)
    requires IncidentIndex(net.incident, data.edges)
    ensures Lookup(net.incident, ref) == [] <==> !Connected(data.edges, ref)
  {
    ConnectedExact(data.edges, Lookup(net.incident, ref), ref);
  }

  // ----- residual -----------------------------------------------------------------------

  datatype ResidualItem = ResidualItem(ref: string, reasons: Reasons)

  datatype Residual = Residual(nodeRefs: seq<string>, edgeRefs: seq<string>, items: seq<ResidualItem>)

  function ResidualItems(data: Snapshot, scope: seq<string>): seq<ResidualItem>
    requires forall r :: r in scope ==> r in Nodes(data)
  {
    if scope == [] then [] else
      var k := |scope| - 1;
      assert forall r :: r in scope[..k] ==> r in scope;
      ResidualItems(data, scope[..k]) + ResidualAt(data, scope[k])
  }

  /** What the query lists for one node: nothing, or one item. */
  function ResidualAt(data: Snapshot, ref: string): seq<ResidualItem>
    requires ref in Nodes(data)
  {
    var reasons := ResidualReasons(data, Nodes(data)[ref]);
    if !reasons.Any() then [] else [ResidualItem(ref, reasons)]
  }

  lemma ResidualItemsStep(data: Snapshot, scope: seq<string>, i: nat)
    requires i < |scope| && forall r :: r in scope[..i + 1] ==> r in Nodes(data)
    ensures scope[i] in Nodes(data) && forall r :: r in scope[..i] ==> r in Nodes(data)
    ensures ResidualItems(data, scope[..i + 1]) == ResidualItems(data, scope[..i]) + ResidualAt(data, scope[i])
  {
    assert scope[..i + 1][i] == scope[i] && scope[..i + 1][..i] == scope[..i];
  }

  function ResidualRefs(items: seq<ResidualItem>): (r: seq<string>)
    ensures |r| == |items| && forall i :: 0 <= i < |r| ==> r[i] == items[i].ref
  {
    seq(|items|, i requires 0 <= i < |items| => items[i].ref)
  }

  function ResidualOf(data: Snapshot, scope: Option<seq<string>>): Result<Residual> {
    match ScopeOf(data, scope)
    case Err(e) => Err(e)
    case Ok(refs) =>
      ScopeKnown(data, scope);
      var items := ResidualItems(data, refs);
      var nodeRefs := ResidualRefs(items);
      Ok(Residual(nodeRefs, InducedEdges(data.edges, Elems(nodeRefs)), items))
  }

  method QueryResidual(net: Network, ghost data: Snapshot, scope: Option<seq<string>>) returns (r: Result<Residual>)
    requires StateIndexes(net, data)
    ensures r == ResidualOf(data, scope)
  {
    var refs := ScopeOf(net.data, scope);
    if refs.Err? {
      return Err(refs.error);
    }
    ScopeKnown(data, scope);
    var items := CollectResidual(net, data, refs.value);
    var nodeRefs := ResidualRefs(items);
    r := Ok(Residual(nodeRefs, InducedEdges(net.data.edges, Elems(nodeRefs)), items));
  }

  method CollectResidual(net: Network, ghost data: Snapshot, scope: seq<string>) returns (items: seq<ResidualItem>)
    requires StateIndexes(net, data) && forall r :: r in scope ==> r in Nodes(data)
    ensures items == ResidualItems(data, scope)
  {
    items := [];
    for i := 0 to |scope|
      invariant forall r :: r in scope[..i] ==> r in Nodes(data)
      invariant items == ResidualItems(data, scope[..i])
    {
      assert scope[i] in scope;
      ResidualItemsStep(data, scope, i) by { assert forall r :: r in scope[..i + 1] ==> r in scope; }
      var found := ReadResidual(net, data, scope[i]);
      items := items + found;
    }
    assert scope[..|scope|] == scope;
  }

  method ReadResidual(net: Network, ghost data: Snapshot, ref: string) returns (items: seq<ResidualItem>)
    requires StateIndexes(net, data) && ref in Nodes(data)
    ensures items == ResidualAt(data, ref)
  {
    var node := net.nodes[ref];
    IndexedReasonsExact(net, data, node);
    var reasons := IndexedReasons(net, node);
    items := if reasons.Any() then [ResidualItem(ref, reasons)] else [];
  }

  lemma {:induction false} ResidualMembers(data: Snapshot, scope: seq<string>, v: string)
    requires forall r :: r in scope ==> r in Nodes(data)
    ensures v in ResidualRefs(ResidualItems(data, scope)) <==> v in scope && ResidualReasons(data, Nodes(data)[v]).Any()
  {
    if scope != [] {
      var k := |scope| - 1;
      assert scope == scope[..k] + [scope[k]];
      ResidualMembers(data, scope[..k], v);
      var init := ResidualItems(data, scope[..k]);
      var reasons := ResidualReasons(data, Nodes(data)[scope[k]]);
      if reasons.Any() {
        var item := ResidualItem(scope[k], reasons);
        assert ResidualRefs(init + [item]) == ResidualRefs(init) + [scope[k]];
      } else {
        assert ResidualItems(data, scope) == init;
      }
    }
  }

  // ----- unresolved ---------------------------------------------------------------------

  datatype OpenPoints = OpenPoints(hold: Option<string>, unreviewed: bool, critique: bool)
  {
    predicate Any() { hold.Some? || unreviewed || critique }
  }

  datatype UnresolvedItem = UnresolvedItem(ref: string, reasons: OpenPoints, critiqueRefs: seq<string>)

  datatype Unresolved = Unresolved(
    nodeRefs: seq<string>, edgeRefs: seq<string>, items: seq<UnresolvedItem>, contradictionRefs: seq<string>)

  function UnresolvedReasons(n: Node, open: set<string>): OpenPoints {
    OpenPoints(if Held(n) then Some(n.holdState) else None, n.reviewState == UNREVIEWED, open != {})
  }

  function UnresolvedItems(data: Snapshot, scope: seq<string>): seq<UnresolvedItem>
    requires forall r :: r in scope ==> r in Nodes(data)
  {
    if scope == [] then [] else
      var k := |scope| - 1;
      assert forall r :: r in scope[..k] ==> r in scope;
      UnresolvedItems(data, scope[..k]) + UnresolvedAt(data, scope[k])
  }

  /** What the query lists for one node: nothing, or one item. */
  function UnresolvedAt(data: Snapshot, ref: string): seq<UnresolvedItem>
    requires ref in Nodes(data)
  {
    var n := Nodes(data)[ref];
    var open := OpenCritiques(data.critiques, n.id);
    var reasons := UnresolvedReasons(n, open);
    if !reasons.Any() then [] else [UnresolvedItem(ref, reasons, Sorted(open))]
  }

  lemma UnresolvedItemsStep(data: Snapshot, scope: seq<string>, i: nat)
    requires i < |scope| && forall r :: r in scope[..i + 1] ==> r in Nodes(data)
    ensures scope[i] in Nodes(data) && forall r :: r in scope[..i] ==> r in Nodes(data)
    ensures UnresolvedItems(data, scope[..i + 1]) == UnresolvedItems(data, scope[..i]) + UnresolvedAt(data, scope[i])
  {
    assert scope[..i + 1][i] == scope[i] && scope[..i + 1][..i] == scope[..i];
  }

  function OpenContradictions(items: seq<Contradiction>, scope: set<string>): set<Contradiction> {
    set c | c in items && c.state != RESOLVED && c.fromId in scope && c.toId in scope
  }

  function ItemRefs(items: seq<UnresolvedItem>): set<string> {
    set i | i in items :: i.ref
  }

  function Endpoints(cs: set<Contradiction>): set<string> {
    (set c | c in cs :: c.fromId) + (set c | c in cs :: c.toId)
  }

  function UnresolvedOf(data: Snapshot, scope: Option<seq<string>>): Result<Unresolved> {
    match ScopeOf(data, scope)
    case Err(e) => Err(e)
    case Ok(refs) =>
      ScopeKnown(data, scope);
      var items := UnresolvedItems(data, refs);
      var open := OpenContradictions(data.contradictions, Elems(refs));
      var nodeRefs := ItemRefs(items) + Endpoints(open);
      Ok(Unresolved(Sorted(nodeRefs), InducedEdges(data.edges, nodeRefs), items, Sorted(set c | c in open :: c.id)))
  }

  method QueryUnresolved(net: Network, ghost data: Snapshot, scope: Option<seq<string>>) returns (r: Result<Unresolved>)
    requires StateIndexes(net, data)
    ensures r == UnresolvedOf(data, scope)
  {
    var refs := ScopeOf(net.data, scope);
    if refs.Err? {
      return Err(refs.error);
    }
    ScopeKnown(data, scope);
    var items := CollectUnresolved(net, data, refs.value);
    var open := OpenContradictions(net.data.contradictions, Elems(refs.value));
    var nodeRefs := ItemRefs(items) + Endpoints(open);
    r := Ok(Unresolved(Sorted(nodeRefs), InducedEdges(net.data.edges, nodeRefs), items, Sorted(set c | c in open :: c.id)));
  }

  method CollectUnresolved(net: Network, ghost data: Snapshot, scope: seq<string>) returns (items: seq<UnresolvedItem>)
    requires StateIndexes(net, data) && forall r :: r in scope ==> r in Nodes(data)
    ensures items == UnresolvedItems(data, scope)
  {
    items := [];
    for i := 0 to |scope|
      invariant forall r :: r in scope[..i] ==> r in Nodes(data)
      invariant items == UnresolvedItems(data, scope[..i])
    {
      assert scope[i] in scope;
      UnresolvedItemsStep(data, scope, i) by { assert forall r :: r in scope[..i + 1] ==> r in scope; }
      var found := ReadUnresolved(net, data, scope[i]);
      items := items + found;
    }
    assert scope[..|scope|] == scope;
  }

  method ReadUnresolved(net: Network, ghost data: Snapshot, ref: string) returns (items: seq<UnresolvedItem>)
    requires StateIndexes(net, data) && ref in Nodes(data)
    ensures items == UnresolvedAt(data, ref)
  {
    var node := net.nodes[ref];
    IndexedOpenExact(net, data, node.id);
    var open := IndexedOpen(net, node.id);
    var reasons := UnresolvedReasons(node, open);
    items := if reasons.Any() then [UnresolvedItem(ref, reasons, Sorted(open))] else [];
  }

  lemma {:induction false} UnresolvedMembers(data: Snapshot, scope: seq<string>, v: string)
    requires forall r :: r in scope ==> r in Nodes(data)
    ensures v in ItemRefs(UnresolvedItems(data, scope)) <==>
      v in scope && UnresolvedReasons(Nodes(data)[v], OpenCritiques(data.critiques, v)).Any()
  {
    if scope != [] {
      var k := |scope| - 1;
      assert scope == scope[..k] + [scope[k]];
      UnresolvedMembers(data, scope[..k], v);
      var init := UnresolvedItems(data, scope[..k]);
      var all := UnresolvedItems(data, scope);
      assert forall i :: i in all <==> i in init || (|all| > |init| && i == all[|all| - 1]);
    }
  }

  // ----- the two queries together -------------------------------------------------------

  lemma ResidualChosen(data: Snapshot, scope: Option<seq<string>>, v: string)
    requires ScopeOf(data, scope).Ok?
    ensures ResidualOf(data, scope).Ok?
    ensures v in ResidualOf(data, scope).value.nodeRefs <==>
      v in ScopeOf(data, scope).value && v in Nodes(data) && ResidualReasons(data, Nodes(data)[v]).Any()
  {
    ScopeKnown(data, scope);
    ResidualMembers(data, ScopeOf(data, scope).value, v);
  }

  lemma UnresolvedChosen(data: Snapshot, scope: Option<seq<string>>, v: string)
    requires ScopeOf(data, scope).Ok?
    ensures UnresolvedOf(data, scope).Ok?
    ensures v in UnresolvedOf(data, scope).value.nodeRefs <==>
      v in ScopeOf(data, scope).value && v in Nodes(data) &&
      (UnresolvedReasons(Nodes(data)[v], OpenCritiques(data.critiques, v)).Any()
       || v in Endpoints(OpenContradictions(data.contradictions, Elems(ScopeOf(data, scope).value))))
  {
    var refs := ScopeOf(data, scope).value;
    ScopeKnown(data, scope);
    UnresolvedMembers(data, refs, v);
    EndpointsInScope(data.contradictions, refs, v);
    assert UnresolvedOf(data, scope).value.nodeRefs
        == Sorted(ItemRefs(UnresolvedItems(data, refs)) + Endpoints(OpenContradictions(data.contradictions, Elems(refs))));
  }

  lemma EndpointsInScope(items: seq<Contradiction>, refs: seq<string>, v: string)
    ensures v in Endpoints(OpenContradictions(items, Elems(refs))) ==> v in refs
  {
  }

  /** Whatever is unresolved is left over, or was never reviewed; neither query leaves its
      scope. */
  lemma UnresolvedWithinResidual(data: Snapshot, scope: Option<seq<string>>, v: string)
    requires ScopeOf(data, scope).Ok?
    ensures UnresolvedOf(data, scope).Ok? && ResidualOf(data, scope).Ok?
    ensures v in UnresolvedOf(data, scope).value.nodeRefs ==>
      && v in ScopeOf(data, scope).value && v in Nodes(data)
      && (v in ResidualOf(data, scope).value.nodeRefs || Nodes(data)[v].reviewState == UNREVIEWED)
    ensures v in ResidualOf(data, scope).value.nodeRefs ==> v in ScopeOf(data, scope).value
  {
    ResidualChosen(data, scope, v);
    UnresolvedChosen(data, scope, v);
    if v in UnresolvedOf(data, scope).value.nodeRefs {
      UnresolvedReason(data, ScopeOf(data, scope).value, v);
    }
  }

  lemma UnresolvedReason(data: Snapshot, refs: seq<string>, v: string)
    requires v in Nodes(data)
    requires UnresolvedReasons(Nodes(data)[v], OpenCritiques(data.critiques, v)).Any()
          || v in Endpoints(OpenContradictions(data.contradictions, Elems(refs)))
    ensures ResidualReasons(data, Nodes(data)[v]).Any() || Nodes(data)[v].reviewState == UNREVIEWED
  {
    var n := Nodes(data)[v];
    if v in Endpoints(OpenContradictions(data.contradictions, Elems(refs))) {
      assert Contested(data.contradictions, n.id);
    }
  }
}
