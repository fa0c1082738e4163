/** The selections of all seven intents, and their projections. Contrast, temporal and
    provenance selections are set algebra over the snapshot. */
module Selections {
  import opened Options
  import opened Ordering
  import opened Graphs
  import opened Snapshots
  import opened Networks
  import opened PathQueries
  import opened StateQueries

  // ----- contrast -----------------------------------------------------------------------

  datatype Facets = Facets(
    sources: set<string>, actors: set<string>, islands: set<string>, holdStates: set<string>, reviewStates: set<string>, edgeTypes: set<string>)

  function FacetValues(data: Snapshot, refs: set<string>): Facets {
    var ns := set n | n in data.nodes && n.id in refs;
    Facets(
      set n, s | n in ns && s in n.sourceRefs :: s,
      set n, a | n in ns && a in n.actorRefs :: a,
      set n | n in ns && n.islandId != "" :: n.islandId,
      set n | n in ns && n.holdState != "" :: n.holdState,
      set n | n in ns && n.reviewState != "" :: n.reviewState,
      set e | e in data.edges && (e.fromId in refs || e.toId in refs) && e.kind != "" :: e.kind)
  }

  datatype Difference = Difference(shared: seq<string>, leftOnly: seq<string>, rightOnly: seq<string>)

  function Differ(a: set<string>, b: set<string>): Difference {
    Difference(Sorted(a * b), Sorted(a - b), Sorted(b - a))
  }

  datatype Contrast = Contrast(
    left: seq<string>, right: seq<string>, nodeRefs: seq<string>, edgeRefs: seq<string>,
    sources: Difference, actors: Difference, islands: Difference, holdStates: Difference, reviewStates: Difference, edgeTypes: Difference,
    crossContradictions: seq<string>)

  function CrossContradictions(items: seq<Contradiction>, left: set<string>, right: set<string>): seq<string> {
    Sorted(set c | c in items && ((c.fromId in left && c.toId in right) || (c.toId in left && c.fromId in right)) :: c.id)
  }

  function ContrastOf(data: Snapshot, leftRefs: seq<string>, rightRefs: seq<string>): Result<Contrast> {
    var known := NodeIds(data.nodes);
    match RequireNodeRefs(known, leftRefs)
    case Err(e) => Err(e)
    case Ok(left) =>
      match RequireNodeRefs(known, rightRefs)
      case Err(e) => Err(e)
      case Ok(right) =>
        var l, r := Elems(left), Elems(right);
        var a, b := FacetValues(data, l), FacetValues(data, r);
        Ok(Contrast(left, right, Sorted(l + r), InducedEdges(data.edges, l + r),
          Differ(a.sources, b.sources), Differ(a.actors, b.actors), Differ(a.islands, b.islands),
          Differ(a.holdStates, b.holdStates), Differ(a.reviewStates, b.reviewStates), Differ(a.edgeTypes, b.edgeTypes),
          CrossContradictions(data.contradictions, l, r)))
  }

  // ----- temporal -----------------------------------------------------------------------

  datatype RecordKind = NodeObserved | EdgeCreated | CritiqueRecorded | ContradictionRecorded | Happened(kind: string)

  datatype Record = Record(at: string, kind: RecordKind, ref: string, targetRefs: seq<string>, actorRef: string, sourceRef: string)

  function KindName(k: RecordKind): string {
    match k
    case NodeObserved => "node_observed"
    case EdgeCreated => "edge_created"
    case CritiqueRecorded => "critique_recorded"
    case ContradictionRecorded => "contradiction_recorded"
    case Happened(kind) => kind
  }

  predicate RecordLe(a: Record, b: Record) {
    TupleLe([a.at, KindName(a.kind), a.ref], [b.at, KindName(b.kind), b.ref])
  }

  function NodeRecords(data: Snapshot, refs: seq<string>): seq<Record>
    requires forall r :: r in refs ==> r in Nodes(data)
  {
    if refs == [] then [] else
      var k := |refs| - 1;
      assert forall r :: r in refs[..k] ==> r in refs;
      var n := Nodes(data)[refs[k]];
      NodeRecords(data, refs[..k])
      + (if n.observedAt == "" then [] else [Record(n.observedAt, NodeObserved, refs[k], [], "", "")])
  }

  function EventRecord(e: Event): Record {
    Record(e.at, Happened(e.kind), e.id, Sorted(Elems(e.targetRefs)), e.actorRef, e.sourceRef)
  }

  function OtherRecords(data: Snapshot, scope: set<string>): seq<Record> {
    Map(Filter(data.edges, (e: Relation) => e.fromId in scope && e.toId in scope && e.createdAt != ""),
        (e: Relation) => Record(e.createdAt, EdgeCreated, e.id, [], "", ""))
    + Map(Filter(data.critiques, (c: Critique) => c.targetRef in scope && c.createdAt != ""),
          (c: Critique) => Record(c.createdAt, CritiqueRecorded, c.id, [], "", ""))
    + Map(Filter(data.contradictions, (c: Contradiction) => c.fromId in scope && c.toId in scope && c.createdAt != ""),
          (c: Contradiction) => Record(c.createdAt, ContradictionRecorded, c.id, [], "", ""))
    + EventRecords(data.events, scope)
  }

  predicate EventInScope(e: Event, scope: set<string>) {
    exists r :: r in e.targetRefs && r in scope
  }

  function EventRecords(events: seq<Event>, scope: set<string>): seq<Record> {
    Map(Filter(events, (e: Event) => EventInScope(e, scope)), (e: Event) => EventRecord(e))
  }

  datatype Temporal = Temporal(nodeRefs: seq<string>, edgeRefs: seq<string>, records: seq<Record>)

  function TemporalOf(data: Snapshot, scope: Option<seq<string>>): Result<Temporal> {
    match ScopeOf(data, scope)
    case Err(e) => Err(e)
    case Ok(refs) =>
      ScopeKnown(data, scope);
      var records := NodeRecords(data, refs) + OtherRecords(data, Elems(refs));
      Ok(Temporal(refs, InducedEdges(data.edges, Elems(refs)), SortBy(records, RecordLe)))
  }

  // ----- provenance ---------------------------------------------------------------------

  datatype Provenance = Provenance(
    nodeRefs: seq<string>, edgeRefs: seq<string>, bySource: map<string, seq<string>>, byActor: map<string, seq<string>>,
    missingSourceRefs: seq<string>, sourceMeta: map<string, Source>)

  function InScope(data: Snapshot, refs: set<string>): set<Node> {
    set n | n in data.nodes && n.id in refs
  }

  function ProvenanceOf(data: Snapshot, scope: Option<seq<string>>): Result<Provenance> {
    match ScopeOf(data, scope)
    case Err(e) => Err(e)
    case Ok(refs) =>
      var ns := InScope(data, Elems(refs));
      Ok(Provenance(refs, InducedEdges(data.edges, Elems(refs)), BySource(ns), ByActor(ns), Unsourced(ns), SourceMeta(data.sources, ns)))
  }

  function SourcesOf(ns: set<Node>): set<string> {
    set n, s | n in ns && s in n.sourceRefs :: s
  }

  function ActorsOf(ns: set<Node>): set<string> {
    set n, a | n in ns && a in n.actorRefs :: a
  }

  function CitingSource(ns: set<Node>, s: string): set<string> {
    set n | n in ns && s in n.sourceRefs :: n.id
  }

  function NamingActor(ns: set<Node>, a: string): set<string> {
    set n | n in ns && a in n.actorRefs :: n.id
  }

  function BySource(ns: set<Node>): map<string, seq<string>> {
    map s | s in SourcesOf(ns) :: Sorted(CitingSource(ns, s))
  }

  function ByActor(ns: set<Node>): map<string, seq<string>> {
    map a | a in ActorsOf(ns) :: Sorted(NamingActor(ns, a))
  }

  function Unsourced(ns: set<Node>): seq<string> {
    Sorted(set n | n in ns && n.sourceRefs == [] :: n.id)
  }

  function SourceMeta(sources: seq<Source>, ns: set<Node>): map<string, Source> {
    var index := IndexMap(sources, SourceId);
    map s | s in SourcesOf(ns) && s in index :: index[s]
  }

  // ----- selections ---------------------------------------------------------------------

  datatype Intent = ToNeighborhood | ToContrast | ToBridge | ToResidual | ToUnresolved | ToTemporal | ToProvenance

  datatype Selection =
    | SelNeighborhood(neighborhood: Neighborhood)
    | SelContrast(contrast: Contrast)
    | SelBridge(bridge: Bridge)
    | SelResidual(residual: Residual)
    | SelUnresolved(unresolved: Unresolved)
    | SelTemporal(temporal: Temporal)
    | SelProvenance(provenance: Provenance)
  {
    function NodeRefs(): seq<string> {
      match this
      case SelNeighborhood(s) => s.nodeRefs
      case SelContrast(s) => s.nodeRefs
      case SelBridge(s) => s.nodeRefs
      case SelResidual(s) => s.nodeRefs
      case SelUnresolved(s) => s.nodeRefs
      case SelTemporal(s) => s.nodeRefs
      case SelProvenance(s) => s.nodeRefs
    }

    function EdgeRefs(): seq<string> {
      match this
      case SelNeighborhood(s) => s.edgeRefs
      case SelContrast(s) => s.edgeRefs
      case SelBridge(s) => s.edgeRefs
      case SelResidual(s) => s.edgeRefs
      case SelUnresolved(s) => s.edgeRefs
      case SelTemporal(s) => s.edgeRefs
      case SelProvenance(s) => s.edgeRefs
    }
  }

  datatype ExecError = BadRequest | BadNetwork | BadIntent | BadFocus | BadQuery(error: QueryError) | BadProjection

  datatype Outcome<T> = Done(value: T) | Failed(error: ExecError)

  function FromNeighborhood(r: Result<Neighborhood>): Outcome<Selection> {
    match r
    case Ok(v) => Done(SelNeighborhood(v))
    case Err(e) => Failed(BadQuery(e))
  }

  function FromContrast(r: Result<Contrast>): Outcome<Selection> {
    match r
    case Ok(v) => Done(SelContrast(v))
    case Err(e) => Failed(BadQuery(e))
  }

  function FromBridge(r: Result<Bridge>): Outcome<Selection> {
    match r
    case Ok(v) => Done(SelBridge(v))
    case Err(e) => Failed(BadQuery(e))
  }

  function FromResidual(r: Result<Residual>): Outcome<Selection> {
    match r
    case Ok(v) => Done(SelResidual(v))
    case Err(e) => Failed(BadQuery(e))
  }

  function FromUnresolved(r: Result<Unresolved>): Outcome<Selection> {
    match r
    case Ok(v) => Done(SelUnresolved(v))
    case Err(e) => Failed(BadQuery(e))
  }

  function FromTemporal(r: Result<Temporal>): Outcome<Selection> {
    match r
    case Ok(v) => Done(SelTemporal(v))
    case Err(e) => Failed(BadQuery(e))
  }

  function FromProvenance(r: Result<Provenance>): Outcome<Selection> {
    match r
    case Ok(v) => Done(SelProvenance(v))
    case Err(e) => Failed(BadQuery(e))
  }

  /** An empty focus stands for the whole network. */
  function FocusScope(focus: seq<string>): Option<seq<string>> {
    if focus == [] then None else Some(focus)
  }

  const NEIGHBORHOOD_DEPTH := 1
  const MAX_DEPTH := 5
  const MAX_PATHS := 8

  /** `_execute_selection`: the answer to an intent on a snapshot. */
  ghost predicate IsSelection(data: Snapshot, intent: Intent, focus: seq<string>, r: Outcome<Selection>) {
    match intent
    case ToNeighborhood =>
      if focus == [] then r == Failed(BadFocus)
      else exists n :: IsNeighborhood(data, focus, NEIGHBORHOOD_DEPTH, n) && r == FromNeighborhood(n)
    case ToContrast =>
      if |focus| != 2 then r == Failed(BadFocus)
      else r == FromContrast(ContrastOf(data, [focus[0]], [focus[1]]))
    case ToBridge =>
      if |focus| != 2 then r == Failed(BadFocus)
      else exists b :: IsBridge(data, focus[0], focus[1], MAX_DEPTH, MAX_PATHS, b) && r == FromBridge(b)
    case ToResidual => r == FromResidual(ResidualOf(data, FocusScope(focus)))
    case ToUnresolved => r == FromUnresolved(UnresolvedOf(data, FocusScope(focus)))
    case ToTemporal => r == FromTemporal(TemporalOf(data, FocusScope(focus)))
    case ToProvenance => r == FromProvenance(ProvenanceOf(data, FocusScope(focus)))
  }

  lemma NetworkParts(net: Network, data: Snapshot)
    requires IsNetwork(net, data)
    ensures StateIndexes(net, data)
  {
  }

  method ExecuteSelection(net: Network, ghost data: Snapshot, intent: Intent, focus: seq<string>) returns (r: Outcome<Selection>)
    requires IsNetwork(net, data)
    ensures IsSelection(data, intent, focus, r)
  {
    match intent
    case ToNeighborhood =>
      if focus == [] {
        return Failed(BadFocus);
      }
      var n := QueryNeighborhood(net, data, focus, NEIGHBORHOOD_DEPTH);
      r := FromNeighborhood(n);
    case ToContrast =>
      if |focus| != 2 {
        return Failed(BadFocus);
      }
      r := FromContrast(ContrastOf(net.data, [focus[0]], [focus[1]]));
    case ToBridge =>
      if |focus| != 2 {
        return Failed(BadFocus);
      }
      var b := QueryBridge(net, data, focus[0], focus[1], MAX_DEPTH, MAX_PATHS);
      r := FromBridge(b);
    case ToResidual =>
      NetworkParts(net, data);
      var s := QueryResidual(net, data, FocusScope(focus));
      r := FromResidual(s);
    case ToUnresolved =>
      NetworkParts(net, data);
      var s := QueryUnresolved(net, data, FocusScope(focus));
      r := FromUnresolved(s);
    case ToTemporal =>
      r := FromTemporal(TemporalOf(net.data, FocusScope(focus)));
    case ToProvenance =>
      r := FromProvenance(ProvenanceOf(net.data, FocusScope(focus)));
  }

  /** Snapshot, intent and focus determine the selection. */
  lemma SelectionUnique(data: Snapshot, intent: Intent, focus: seq<string>, a: Outcome<Selection>, b: Outcome<Selection>)
    requires IsSelection(data, intent, focus, a) && IsSelection(data, intent, focus, b)
    ensures a == b
  {
    match intent
    case ToNeighborhood =>
      if focus != [] {
        var m :| IsNeighborhood(data, focus, NEIGHBORHOOD_DEPTH, m) && a == FromNeighborhood(m);
        var n :| IsNeighborhood(data, focus, NEIGHBORHOOD_DEPTH, n) && b == FromNeighborhood(n);
        NeighborhoodUnique(data, focus, NEIGHBORHOOD_DEPTH, m, n);
      }
    case ToBridge =>
      if |focus| == 2 {
        var m :| IsBridge(data, focus[0], focus[1], MAX_DEPTH, MAX_PATHS, m) && a == FromBridge(m);
        var n :| IsBridge(data, focus[0], focus[1], MAX_DEPTH, MAX_PATHS, n) && b == FromBridge(n);
        BridgeAnswerUnique(data, focus[0], focus[1], MAX_DEPTH, MAX_PATHS, m, n);
      }
    case _ =>
  }
}
