/** From a request to a response: normalise, filter by review state, select, project. */
module Pipeline {
  import opened Options
  import opened Ordering
  import opened Graphs
  import opened Snapshots
  import opened Networks
  import opened PathQueries
  import opened StateQueries
  import opened Requests
  import opened Selections

  // ----- projections --------------------------------------------------------------------

  datatype Placed = Placed(ref: string, x: real, y: real)

  datatype Payload =
    | Subgraph(nodes: seq<Node>, edges: seq<Relation>)
    | CardStack(cards: seq<Node>)
    | SpatialLayout(items: seq<Placed>, edgeRefs: seq<string>)
    | PathList(found: bool, nodePaths: seq<seq<string>>, edgePaths: seq<seq<string>>)
    | ComparisonTable(contrast: Contrast)
    | Timeline(records: seq<Record>)
    | ProvenanceMatrix(provenance: Provenance)

  datatype Projection = Projection(form: string, nodeRefs: seq<string>, edgeRefs: seq<string>, payload: Payload)

  const COMPACT_NARRATIVE := "compact_narrative"

  /** The nodes behind the references, in order. */
  function Cards(data: Snapshot, refs: seq<string>): seq<Node> {
    if refs == [] then [] else
      (if refs[0] in Nodes(data) then [Nodes(data)[refs[0]]] else []) + Cards(data, refs[1..])
  }

  function EdgeCards(data: Snapshot, refs: seq<string>): seq<Relation> {
    var index := IndexMap(data.edges, EdgeId);
    if refs == [] then [] else
      (if refs[0] in index then [index[refs[0]]] else []) + EdgeCards(data, refs[1..])
  }

  function Placements(cards: seq<Node>): seq<Placed> {
    if cards == [] then [] else
      (if cards[0].x.Some? && cards[0].y.Some? then [Placed(cards[0].id, cards[0].x.value, cards[0].y.value)] else [])
      + Placements(cards[1..])
  }

  function SubgraphOf(data: Snapshot, refs: seq<string>): Payload {
    Subgraph(Cards(data, Sorted(Elems(refs))), EdgeCards(data, InducedEdges(data.edges, Elems(refs))))
  }

  function LayoutOf(data: Snapshot, s: Selection): Payload {
    SpatialLayout(Placements(Cards(data, s.NodeRefs())), s.EdgeRefs())
  }

  /** The forms that fit only one kind of selection. */
  function DetailOf(s: Selection, form: string): Option<Payload> {
    if form == "path_list" && s.SelBridge? then
      Some(PathList(s.bridge.nodePaths != [], s.bridge.nodePaths, s.bridge.edgePaths))
    else if form == "comparison_table" && s.SelContrast? then Some(ComparisonTable(s.contrast))
    else if form == "timeline" && s.SelTemporal? then Some(Timeline(s.temporal.records))
    else if form == "provenance_matrix" && s.SelProvenance? then Some(ProvenanceMatrix(s.provenance))
    else None
  }

  function PayloadOf(data: Snapshot, s: Selection, form: string): Option<Payload> {
    if form == "subgraph" then Some(SubgraphOf(data, s.NodeRefs()))
    else if form == "card_stack" then Some(CardStack(Cards(data, s.NodeRefs())))
    else if form == "spatial_layout" then Some(LayoutOf(data, s))
    else DetailOf(s, form)
  }

  /** `project`; None stands for its error. */
  function Project(data: Snapshot, s: Selection, form: string): Option<Projection> {
    match PayloadOf(data, s, form)
    case None => None
    case Some(p) => Some(Projection(form, s.NodeRefs(), s.EdgeRefs(), p))
  }

  datatype Projected = Projected(projections: seq<Projection>, deferred: seq<string>)

  function ProjectAll(data: Snapshot, s: Selection, forms: seq<string>): Option<Projected> {
    if forms == [] then Some(Projected([], [])) else
      var k := |forms| - 1;
      match ProjectAll(data, s, forms[..k])
      case None => None
      case Some(done) =>
        if forms[k] == COMPACT_NARRATIVE then Some(done.(deferred := done.deferred + [forms[k]]))
        else
          match Project(data, s, forms[k])
          case None => None
          case Some(p) => Some(done.(projections := done.projections + [p]))
  }

  method CollectProjections(data: Snapshot, s: Selection, forms: seq<string>) returns (r: Option<Projected>)
    ensures r == ProjectAll(data, s, forms)
  {
    var projections: seq<Projection> := [];
    var deferred: seq<string> := [];
    for i := 0 to |forms|
      invariant ProjectAll(data, s, forms[..i]) == Some(Projected(projections, deferred))
    {
      assert forms[..i + 1][..i] == forms[..i];
      if forms[i] == COMPACT_NARRATIVE {
        deferred := deferred + [forms[i]];
      } else {
        var p := Project(data, s, forms[i]);
        if p.None? {
          ProjectAllStops(data, s, forms, i + 1);
          return None;
        }
        projections := projections + [p.value];
      }
    }
    assert forms[..|forms|] == forms;
    r := Some(Projected(projections, deferred));
  }

  lemma {:induction false} ProjectAllStops(data: Snapshot, s: Selection, forms: seq<string>, i: nat)
    requires i <= |forms| && ProjectAll(data, s, forms[..i]).None?
    ensures ProjectAll(data, s, forms).None?
    decreases |forms| - i
  {
    if i == |forms| {
      assert forms[..i] == forms;
    } else {
      assert forms[..i + 1][..i] == forms[..i];
      ProjectAllStops(data, s, forms, i + 1);
    }
  }

  // ----- intents ------------------------------------------------------------------------

  function IntentNamed(s: string): Option<Intent> {
    if s == "neighborhood" then Some(ToNeighborhood)
    else if s == "contrast" then Some(ToContrast)
    else if s == "bridge" then Some(ToBridge)
    else if s == "residual" then Some(ToResidual)
    else if s == "unresolved" then Some(ToUnresolved)
    else if s == "temporal" then Some(ToTemporal)
    else if s == "provenance" then Some(ToProvenance)
    else None
  }

  /** `_choose_intent`: the one deterministic intent among those sought. */
  function ChooseIntent(seek: seq<string>): Option<Intent> {
    var supported := Sorted(set s | s in seek && IntentNamed(s).Some?);
    if |supported| == 1 then IntentNamed(supported[0]) else None
  }

  // ----- the response -------------------------------------------------------------------

  datatype Response = Response(
    requestId: string,
    actorRef: string,
    actorKind: string,
    selection: Selection,
    projected: Projected,
    networkId: string,
    sourceScope: string,
    readableScopes: seq<string>,
    visibility: Visibility)

  /** The snapshot a request works on. */
  function VisibleSnapshot(data: Snapshot, v: Visibility): Snapshot {
    match v
    case IncludeUnreviewed => data
    case ReviewedOnly => Reviewed(data)
  }

  function Finish(d: Snapshot, n: Request, v: Visibility, s: Outcome<Selection>): Outcome<Response> {
    match s
    case Failed(e) => Failed(e)
    case Done(sel) =>
      match ProjectAll(d, sel, n.desiredProjection)
      case None => Failed(BadProjection)
      case Some(p) =>
        Done(Response(n.requestId, n.actorRef, n.actorKind, sel, p, d.networkId, n.sourceScope, n.readableScopes, v))
  }

  /** The answer to a normal-form request on the snapshot it may see. */
  ghost predicate IsAnswer(d: Snapshot, n: Request, v: Visibility, r: Outcome<Response>) {
    if !WellFormed(d) then r == Failed(BadNetwork)
    else match ChooseIntent(n.seek)
      case None => r == Failed(BadIntent)
      case Some(intent) => exists s :: IsSelection(d, intent, n.focusRefs, s) && r == Finish(d, n, v, s)
  }

  /** `execute_projection_request` */
  ghost predicate IsResponse(data: Snapshot, request: Request, safeModeAllows: bool, r: Outcome<Response>) {
    match Normalize(request, safeModeAllows)
    case None => r == Failed(BadRequest)
    case Some(nv) => IsAnswer(VisibleSnapshot(data, nv.1), nv.0, nv.1, r)
  }

  method Execute(data: Snapshot, request: Request, safeModeAllows: bool) returns (r: Outcome<Response>)
    ensures IsResponse(data, request, safeModeAllows, r)
  {
    var normal := Normalize(request, safeModeAllows);
    if normal.None? {
      return Failed(BadRequest);
    }
    var n, v := normal.value.0, normal.value.1;
    var d := VisibleSnapshot(data, v);
    r := Answer(d, n, v);
  }

  method Answer(d: Snapshot, n: Request, v: Visibility) returns (r: Outcome<Response>)
    ensures IsAnswer(d, n, v, r)
  {
    var net := Build(d);
    if net.None? {
      return Failed(BadNetwork);
    }
    var intent := ChooseIntent(n.seek);
    if intent.None? {
      return Failed(BadIntent);
    }
    var s := ExecuteSelection(net.value, d, intent.value, n.focusRefs);
    if s.Failed? {
      return Failed(s.error);
    }
    var p := CollectProjections(d, s.value, n.desiredProjection);
    if p.None? {
      return Failed(BadProjection);
    }
    r := Done(Response(n.requestId, n.actorRef, n.actorKind, s.value, p.value, d.networkId, n.sourceScope, n.readableScopes, v));
  }

  lemma AnswerUnique(d: Snapshot, n: Request, v: Visibility, a: Outcome<Response>, b: Outcome<Response>)
    requires IsAnswer(d, n, v, a) && IsAnswer(d, n, v, b)
    ensures a == b
  {
    if WellFormed(d) && ChooseIntent(n.seek).Some? {
      var intent := ChooseIntent(n.seek).value;
      var s :| IsSelection(d, intent, n.focusRefs, s) && a == Finish(d, n, v, s);
      var t :| IsSelection(d, intent, n.focusRefs, t) && b == Finish(d, n, v, t);
      SelectionUnique(d, intent, n.focusRefs, s, t);
    }
  }

  /** Execution is deterministic. */
  lemma ResponseUnique(data: Snapshot, request: Request, safeModeAllows: bool, a: Outcome<Response>, b: Outcome<Response>)
    requires IsResponse(data, request, safeModeAllows, a) && IsResponse(data, request, safeModeAllows, b)
    ensures a == b
  {
    var normal := Normalize(request, safeModeAllows);
    if normal.Some? {
      AnswerUnique(VisibleSnapshot(data, normal.value.1), normal.value.0, normal.value.1, a, b);
    }
  }
}
