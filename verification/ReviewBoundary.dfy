/** What a requester without access to unreviewed material can learn: nothing that is not
    reviewed reaches a response, and nothing unreviewed can change one. */
module ReviewBoundary {
  import opened Options
  import opened Ordering
  import opened Graphs
  import opened Distances
  import opened ShortestPaths
  import opened Snapshots
  import opened PathQueries
  import opened StateQueries
  import opened Requests
  import opened Selections
  import opened Pipeline

  // ----- edits of hidden material -------------------------------------------------------

  /** Replace a slice of one list by other items: adding, removing and rewriting in one. */
  datatype Edit =
    | EditNodes(i: nat, j: nat, nodes: seq<Node>)
    | EditEdges(i: nat, j: nat, edges: seq<Relation>)
    | EditCritiques(i: nat, j: nat, critiques: seq<Critique>)
    | EditContradictions(i: nat, j: nat, contradictions: seq<Contradiction>)
    | EditEvents(i: nat, j: nat, events: seq<Event>)
    | EditSources(i: nat, j: nat, sources: seq<Source>)

  predicate HiddenNode(n: Node, vis: set<string>) {
    n.reviewState != REVIEWED && n.id !in vis
  }

  /** The edit takes out and puts in only what the review filter drops: unreviewed nodes
      (under ids of their own), whatever touches a node that is not visible, and sources
      that no visible node cites. */
  ghost predicate Hidden(d: Snapshot, e: Edit) {
    var vis := Visible(d.nodes);
    match e
    case EditNodes(i, j, news) =>
      i <= j <= |d.nodes| && forall n :: n in d.nodes[i..j] || n in news ==> HiddenNode(n, vis)
    case EditEdges(i, j, news) =>
      i <= j <= |d.edges| && forall x :: x in d.edges[i..j] || x in news ==> !(x.fromId in vis && x.toId in vis)
    case EditCritiques(i, j, news) =>
      i <= j <= |d.critiques| && forall x :: x in d.critiques[i..j] || x in news ==> x.targetRef !in vis
    case EditContradictions(i, j, news) =>
      i <= j <= |d.contradictions| && forall x :: x in d.contradictions[i..j] || x in news ==> !(x.fromId in vis && x.toId in vis)
    case EditEvents(i, j, news) =>
      i <= j <= |d.events| && forall x :: x in d.events[i..j] || x in news ==> !Touches(x, vis)
    case EditSources(i, j, news) =>
      i <= j <= |d.sources| && forall x :: x in d.sources[i..j] || x in news ==> x.id !in Referenced(VisibleNodes(d.nodes, vis))
  }

  ghost function Apply(d: Snapshot, e: Edit): Snapshot
    requires Hidden(d, e)
  {
    match e
    case EditNodes(i, j, news) => d.(nodes := Splice(d.nodes, i, j, news))
    case EditEdges(i, j, news) => d.(edges := Splice(d.edges, i, j, news))
    case EditCritiques(i, j, news) => d.(critiques := Splice(d.critiques, i, j, news))
    case EditContradictions(i, j, news) => d.(contradictions := Splice(d.contradictions, i, j, news))
    case EditEvents(i, j, news) => d.(events := Splice(d.events, i, j, news))
    case EditSources(i, j, news) => d.(sources := Splice(d.sources, i, j, news))
  }

  lemma SpliceMembers<T(!new)>(s: seq<T>, i: nat, j: nat, news: seq<T>)
    requires i <= j <= |s|
    ensures forall x :: x in s <==> x in s[..i] || x in s[i..j] || x in s[j..]
    ensures forall x :: x in Splice(s, i, j, news) <==> x in s[..i] || x in news || x in s[j..]
  {
    assert s == s[..i] + s[i..j] + s[j..];
  }

  lemma VisibleUnchanged(nodes: seq<Node>, i: nat, j: nat, news: seq<Node>)
    requires i <= j <= |nodes| && forall n :: n in nodes[i..j] || n in news ==> n.reviewState != REVIEWED
    ensures Visible(Splice(nodes, i, j, news)) == Visible(nodes)
  {
    SpliceMembers(nodes, i, j, news);
    var after := Splice(nodes, i, j, news);
    forall n ensures n in nodes && n.reviewState == REVIEWED <==> n in after && n.reviewState == REVIEWED {
    }
  }

  /** A hidden edit does not show in the filtered snapshot. */
  lemma EditInvisible(d: Snapshot, e: Edit)
    requires Hidden(d, e)
    ensures Reviewed(Apply(d, e)) == Reviewed(d)
  {
    var vis := Visible(d.nodes);
    match e
    case EditNodes(i, j, news) =>
      VisibleUnchanged(d.nodes, i, j, news);
      FilterSplice(d.nodes, i, j, news, (n: Node) => n.id in vis);
    case EditEdges(i, j, news) =>
      FilterSplice(d.edges, i, j, news, (e: Relation) => e.fromId in vis && e.toId in vis);
    case EditCritiques(i, j, news) =>
      FilterSplice(d.critiques, i, j, news, (c: Critique) => c.targetRef in vis);
    case EditContradictions(i, j, news) =>
      FilterSplice(d.contradictions, i, j, news, (c: Contradiction) => c.fromId in vis && c.toId in vis);
    case EditEvents(i, j, news) =>
      FilterSplice(d.events, i, j, news, (e: Event) => Touches(e, vis));
    case EditSources(i, j, news) =>
      var refs := Referenced(VisibleNodes(d.nodes, vis));
      FilterSplice(d.sources, i, j, news, (s: Source) => s.id in refs);
  }

  /** A run of hidden edits leads from `a` to `b`. */
  ghost predicate Run(a: Snapshot, edits: seq<Edit>, b: Snapshot)
    decreases |edits|
  {
    if edits == [] then a == b else Hidden(a, edits[0]) && Run(Apply(a, edits[0]), edits[1..], b)
  }

  lemma {:induction false} RunInvisible(a: Snapshot, edits: seq<Edit>, b: Snapshot)
    requires Run(a, edits, b)
    ensures Reviewed(a) == Reviewed(b)
    decreases |edits|
  {
    if edits != [] {
      EditInvisible(a, edits[0]);
      RunInvisible(Apply(a, edits[0]), edits[1..], b);
    }
  }

  /** Without the permission, or without the runtime's consent, a request works on the
      filtered snapshot. */
  lemma Restricted(data: Snapshot, request: Request, safeModeAllows: bool, r: Outcome<Response>)
    requires !(request.canSeeUnreviewed && safeModeAllows) && IsResponse(data, request, safeModeAllows, r)
    ensures match Normalize(request, safeModeAllows)
      case None => r == Failed(BadRequest)
      case Some(nv) => nv.1 == ReviewedOnly && IsAnswer(Reviewed(data), nv.0, ReviewedOnly, r)
  {
  }

  /** Noninterference: however hidden material changes, a requester restricted to reviewed
      material gets the same response, failures included. */
  lemma Noninterference(a: Snapshot, edits: seq<Edit>, b: Snapshot, request: Request, safeModeAllows: bool,
                        ra: Outcome<Response>, rb: Outcome<Response>)
    requires Run(a, edits, b)
    requires !(request.canSeeUnreviewed && safeModeAllows)
    requires IsResponse(a, request, safeModeAllows, ra) && IsResponse(b, request, safeModeAllows, rb)
    ensures ra == rb
  {
    RunInvisible(a, edits, b);
    Restricted(a, request, safeModeAllows, ra);
    Restricted(b, request, safeModeAllows, rb);
    var normal := Normalize(request, safeModeAllows);
    if normal.Some? {
      AnswerUnique(Reviewed(a), normal.value.0, ReviewedOnly, ra, rb);
    }
  }

  // ----- the one way in which a hidden node shows ---------------------------------------

  lemma {:induction false} FilterLonger<T>(s: seq<T>, i: nat, x: T, keep: T -> bool)
    requires i <= |s| && keep(x)
    ensures |Filter(Splice(s, i, i, [x]), keep)| == |Filter(s, keep)| + 1
  {
    assert s == s[..i] + s[i..];
    FilterJoin(s[..i], s[i..], keep);
    FilterJoin3(s[..i], [x], s[i..], keep);
  }

  /** Adding an unreviewed node goes unseen exactly when its id is not a visible one. */
  lemma UnseenIffNewId(d: Snapshot, i: nat, n: Node)
    requires i <= |d.nodes| && n.reviewState != REVIEWED
    ensures Reviewed(d.(nodes := Splice(d.nodes, i, i, [n]))) == Reviewed(d) <==> n.id !in Visible(d.nodes)
  {
    var vis := Visible(d.nodes);
    VisibleUnchanged(d.nodes, i, i, [n]);
    if n.id in vis {
      FilterLonger(d.nodes, i, n, (m: Node) => m.id in vis);
    } else {
      EditInvisible(d, EditNodes(i, i, [n]));
    }
  }

  lemma TwiceNotDistinct(nodes: seq<Node>, a: Node, b: Node)
    requires a in nodes && b in nodes && a != b && a.id == b.id
    ensures !DistinctIds(nodes, NodeId)
  {
    var i :| 0 <= i < |nodes| && nodes[i] == a;
    var j :| 0 <= j < |nodes| && nodes[j] == b;
    assert Map(nodes, NodeId)[i] == Map(nodes, NodeId)[j];
  }

  /** With a visible id it makes every restricted request fail. */
  lemma ClashFails(d: Snapshot, i: nat, n: Node, request: Request, safeModeAllows: bool, r: Outcome<Response>)
    requires i <= |d.nodes| && n.reviewState != REVIEWED && n.id in Visible(d.nodes)
    requires !(request.canSeeUnreviewed && safeModeAllows)
    requires IsResponse(d.(nodes := Splice(d.nodes, i, i, [n])), request, safeModeAllows, r)
    ensures r == Failed(BadRequest) || r == Failed(BadNetwork)
  {
    ClashMalformed(d, i, n);
    Restricted(d.(nodes := Splice(d.nodes, i, i, [n])), request, safeModeAllows, r);
  }

  lemma ClashMalformed(d: Snapshot, i: nat, n: Node)
    requires i <= |d.nodes| && n.reviewState != REVIEWED && n.id in Visible(d.nodes)
    ensures !WellFormed(Reviewed(d.(nodes := Splice(d.nodes, i, i, [n]))))
  {
    var e := d.(nodes := Splice(d.nodes, i, i, [n]));
    var m :| m in d.nodes && m.reviewState == REVIEWED && m.id == n.id;
    VisibleUnchanged(d.nodes, i, i, [n]);
    SpliceMembers(d.nodes, i, i, [n]);
    ReviewedMembers(e);
    TwiceNotDistinct(Reviewed(e).nodes, m, n);
  }

  // ----- what a selection mentions ------------------------------------------------------

  function RecordRefs(r: Record): set<string> {
    (if r.kind == NodeObserved then {r.ref} else {}) + Elems(r.targetRefs)
  }

  function ListedRefs(m: map<string, seq<string>>): set<string> {
    set k, r | k in m && r in m[k] :: r
  }

  function PathRefs(b: Bridge): set<string> {
    Elems(b.nodeRefs) + {b.start, b.goal} + AllRefs(b.nodePaths)
  }

  function FocusRefs(n: Neighborhood): set<string> {
    Elems(n.nodeRefs) + Elems(n.focus) + n.distance.Keys
  }

  function SideRefs(c: Contrast): set<string> {
    Elems(c.nodeRefs) + Elems(c.left) + Elems(c.right)
  }

  function LeftoverRefs(r: Residual): set<string> {
    Elems(r.nodeRefs) + set i | i in r.items :: i.ref
  }

  function OpenRefs(u: Unresolved): set<string> {
    Elems(u.nodeRefs) + ItemRefs(u.items)
  }

  function TimedRefs(t: Temporal): set<string> {
    Elems(t.nodeRefs) + set r, v | r in t.records && v in RecordRefs(r) :: v
  }

  function GroupedRefs(p: Provenance): set<string> {
    Elems(p.nodeRefs) + ListedRefs(p.bySource) + ListedRefs(p.byActor) + Elems(p.missingSourceRefs)
  }

  /** Every node reference in a selection. */
  function Mentioned(s: Selection): set<string> {
    match s
    case SelNeighborhood(n) => FocusRefs(n)
    case SelContrast(c) => SideRefs(c)
    case SelBridge(b) => PathRefs(b)
    case SelResidual(r) => LeftoverRefs(r)
    case SelUnresolved(u) => OpenRefs(u)
    case SelTemporal(t) => TimedRefs(t)
    case SelProvenance(p) => GroupedRefs(p)
  }

  predicate EventsInside(d: Snapshot) {
    forall e :: e in d.events ==> Touches(e, NodeIds(d.nodes))
  }

  lemma NeighborhoodInside(d: Snapshot, focus: seq<string>, depth: int, n: Result<Neighborhood>)
    requires GoodRefs(d) && IsNeighborhood(d, focus, depth, n) && n.Ok?
    ensures FocusRefs(n.value) <= NodeIds(d.nodes)
  {
    var refs := RequireNodeRefs(NodeIds(d.nodes), focus).value;
    RequiredRefs(NodeIds(d.nodes), focus);
    HopsGood(d);
    BallClosed(Hops(d), Elems(refs), depth);
    ElemsSorted(n.value.distance.Keys);
  }

  lemma ContrastInside(d: Snapshot, left: seq<string>, right: seq<string>)
    requires ContrastOf(d, left, right).Ok?
    ensures SideRefs(ContrastOf(d, left, right).value) <= NodeIds(d.nodes)
  {
    RequiredRefs(NodeIds(d.nodes), left);
    RequiredRefs(NodeIds(d.nodes), right);
    var c := ContrastOf(d, left, right).value;
    ElemsSorted(Elems(c.left) + Elems(c.right));
  }

  lemma {:induction false} WalkInside(g: Graph, p: seq<string>)
    requires Closed(g) && Walk(g, p) && p[0] in g
    ensures forall v :: v in p ==> v in g
  {
    if |p| > 1 {
      assert Step(g, p, 0);
      forall i | 0 <= i < |p[1..]| - 1 ensures Step(g, p[1..], i) { assert Step(g, p, i + 1); }
      WalkInside(g, p[1..]);
      assert forall v :: v in p <==> v == p[0] || v in p[1..];
    }
  }

  lemma BridgeInside(d: Snapshot, fromRef: string, toRef: string, maxDepth: int, maxPaths: int, b: Result<Bridge>)
    requires GoodRefs(d) && IsBridge(d, fromRef, toRef, maxDepth, maxPaths, b) && b.Ok?
    ensures PathRefs(b.value) <= NodeIds(d.nodes)
  {
    PathsInside(d, fromRef, toRef, maxDepth, maxPaths, b);
    ElemsSorted(AllRefs(b.value.nodePaths));
    assert b.value.nodeRefs == Sorted(AllRefs(b.value.nodePaths));
  }

  lemma PathsInside(d: Snapshot, fromRef: string, toRef: string, maxDepth: int, maxPaths: int, b: Result<Bridge>)
    requires GoodRefs(d) && IsBridge(d, fromRef, toRef, maxDepth, maxPaths, b) && b.Ok?
    ensures AllRefs(b.value.nodePaths) <= NodeIds(d.nodes)
  {
    forall p | p in b.value.nodePaths ensures forall v :: v in p ==> v in NodeIds(d.nodes) {
      PathInside(d, fromRef, toRef, maxDepth, maxPaths, b, p);
    }
  }

  lemma PathInside(d: Snapshot, fromRef: string, toRef: string, maxDepth: int, maxPaths: int, b: Result<Bridge>, p: seq<string>)
    requires GoodRefs(d) && IsBridge(d, fromRef, toRef, maxDepth, maxPaths, b) && b.Ok? && p in b.value.nodePaths
    ensures forall v :: v in p ==> v in NodeIds(d.nodes)
  {
    if fromRef != toRef {
      HopsGood(d);
      BridgePathsWalk(Hops(d), fromRef, toRef, maxDepth, maxPaths, b.value.nodePaths);
      WalkInside(Hops(d), p);
    }
  }

  lemma ResidualInside(d: Snapshot, scope: Option<seq<string>>)
    requires ResidualOf(d, scope).Ok?
    ensures LeftoverRefs(ResidualOf(d, scope).value) <= NodeIds(d.nodes)
  {
    var r := ResidualOf(d, scope).value;
    ScopeKnown(d, scope);
    forall v | v in r.nodeRefs ensures v in NodeIds(d.nodes) {
      ResidualChosen(d, scope, v);
    }
    forall i | i in r.items ensures i.ref in r.nodeRefs {
      var k :| 0 <= k < |r.items| && r.items[k] == i;
      assert r.nodeRefs[k] == i.ref;
    }
  }

  lemma UnresolvedInside(d: Snapshot, scope: Option<seq<string>>)
    requires UnresolvedOf(d, scope).Ok?
    ensures OpenRefs(UnresolvedOf(d, scope).value) <= NodeIds(d.nodes)
  {
    var u := UnresolvedOf(d, scope).value;
    ScopeKnown(d, scope);
    forall v | v in u.nodeRefs ensures v in NodeIds(d.nodes) {
      UnresolvedChosen(d, scope, v);
    }
    forall v | v in ItemRefs(u.items) ensures v in NodeIds(d.nodes) {
      UnresolvedMembers(d, ScopeOf(d, scope).value, v);
    }
  }

  lemma {:induction false} NodeRecordsInside(d: Snapshot, refs: seq<string>, r: Record)
    requires forall v :: v in refs ==> v in Nodes(d)
    requires r in NodeRecords(d, refs)
    ensures RecordRefs(r) <= Elems(refs)
  {
    var k := |refs| - 1;
    assert refs == refs[..k] + [refs[k]];
    if r in NodeRecords(d, refs[..k]) {
      NodeRecordsInside(d, refs[..k], r);
    }
  }

  lemma EventRecordsInside(events: seq<Event>, scope: set<string>, known: set<string>, r: Record)
    requires forall e :: e in events ==> Touches(e, known)
    requires r in EventRecords(events, scope)
    ensures RecordRefs(r) <= known
  {
    var keep := (e: Event) => EventInScope(e, scope);
    FilterMembers(events, keep);
    var kept := Filter(events, keep);
    var i :| 0 <= i < |kept| && EventRecord(kept[i]) == r;
    assert kept[i] in kept;
  }

  lemma OtherRecordsInside(d: Snapshot, scope: set<string>, r: Record)
    requires EventsInside(d) && r in OtherRecords(d, scope)
    ensures RecordRefs(r) <= NodeIds(d.nodes)
  {
    if r in EventRecords(d.events, scope) {
      EventRecordsInside(d.events, scope, NodeIds(d.nodes), r);
    } else {
      assert r.targetRefs == [] && r.kind != NodeObserved;
    }
  }

  lemma TemporalInside(d: Snapshot, scope: Option<seq<string>>)
    requires EventsInside(d) && TemporalOf(d, scope).Ok?
    ensures TimedRefs(TemporalOf(d, scope).value) <= NodeIds(d.nodes)
  {
    var t := TemporalOf(d, scope).value;
    var refs := ScopeOf(d, scope).value;
    ScopeKnown(d, scope);
    ElemsInside(refs, NodeIds(d.nodes));
    forall r | r in t.records ensures RecordRefs(r) <= NodeIds(d.nodes) {
      TimedRecordInside(d, refs, t.records, r);
    }
  }

  lemma ElemsInside(s: seq<string>, xs: set<string>)
    requires forall v :: v in s ==> v in xs
    ensures Elems(s) <= xs
  {
  }

  lemma TimedRecordInside(d: Snapshot, refs: seq<string>, records: seq<Record>, r: Record)
    requires EventsInside(d) && (forall v :: v in refs ==> v in Nodes(d)) && Elems(refs) <= NodeIds(d.nodes)
    requires records == SortBy(NodeRecords(d, refs) + OtherRecords(d, Elems(refs)), RecordLe) && r in records
    ensures RecordRefs(r) <= NodeIds(d.nodes)
  {
    SameElements(records, NodeRecords(d, refs) + OtherRecords(d, Elems(refs)));
    if r in NodeRecords(d, refs) {
      NodeRecordsInside(d, refs, r);
    } else {
      OtherRecordsInside(d, Elems(refs), r);
    }
  }

  lemma ProvenanceInside(d: Snapshot, scope: Option<seq<string>>)
    requires ProvenanceOf(d, scope).Ok?
    ensures GroupedRefs(ProvenanceOf(d, scope).value) <= NodeIds(d.nodes)
  {
    var ns := InScope(d, Elems(ScopeOf(d, scope).value));
    ScopeKnown(d, scope);
    ElemsInside(ScopeOf(d, scope).value, NodeIds(d.nodes));
    GroupsInside(d.nodes, ns);
  }

  lemma GroupsInside(nodes: seq<Node>, ns: set<Node>)
    requires forall n :: n in ns ==> n in nodes
    ensures ListedRefs(BySource(ns)) <= NodeIds(nodes)
    ensures ListedRefs(ByActor(ns)) <= NodeIds(nodes)
    ensures Elems(Unsourced(ns)) <= NodeIds(nodes)
  {
    forall k, r | k in BySource(ns) && r in BySource(ns)[k] ensures r in NodeIds(nodes) {
      assert r in CitingSource(ns, k);
    }
    forall k, r | k in ByActor(ns) && r in ByActor(ns)[k] ensures r in NodeIds(nodes) {
      assert r in NamingActor(ns, k);
    }
    forall r | r in Unsourced(ns) ensures r in NodeIds(nodes) {
      assert r in (set n | n in ns && n.sourceRefs == [] :: n.id);
    }
  }

  /** A selection mentions only nodes of the snapshot it was made on. */
  lemma SelectionInside(d: Snapshot, intent: Intent, focus: seq<string>, r: Outcome<Selection>)
    requires GoodRefs(d) && EventsInside(d) && IsSelection(d, intent, focus, r) && r.Done?
    ensures Mentioned(r.value) <= NodeIds(d.nodes)
  {
    match intent
    case ToNeighborhood => FocusedInside(d, focus, r);
    case ToContrast => ContrastedInside(d, [focus[0]], [focus[1]], r);
    case ToBridge => BridgedInside(d, focus, r);
    case ToResidual => LeftoverInside(d, FocusScope(focus), r);
    case ToUnresolved => OpenInside(d, FocusScope(focus), r);
    case ToTemporal => TimedInside(d, FocusScope(focus), r);
    case ToProvenance => GroupedInside(d, FocusScope(focus), r);
  }

  lemma ContrastedInside(d: Snapshot, left: seq<string>, right: seq<string>, r: Outcome<Selection>)
    requires r == FromContrast(ContrastOf(d, left, right)) && r.Done?
    ensures Mentioned(r.value) <= NodeIds(d.nodes)
  {
    ContrastInside(d, left, right);
    MentionedContrast(NodeIds(d.nodes), ContrastOf(d, left, right), r);
  }

  lemma MentionedContrast(known: set<string>, q: Result<Contrast>, r: Outcome<Selection>)
    requires r == FromContrast(q) && q.Ok? && SideRefs(q.value) <= known
    ensures Mentioned(r.value) <= known
  {
  }

  lemma LeftoverInside(d: Snapshot, scope: Option<seq<string>>, r: Outcome<Selection>)
    requires r == FromResidual(ResidualOf(d, scope)) && r.Done?
    ensures Mentioned(r.value) <= NodeIds(d.nodes)
  {
    ResidualInside(d, scope);
    MentionedResidual(NodeIds(d.nodes), ResidualOf(d, scope), r);
  }

  lemma MentionedResidual(known: set<string>, q: Result<Residual>, r: Outcome<Selection>)
    requires r == FromResidual(q) && q.Ok? && LeftoverRefs(q.value) <= known
    ensures Mentioned(r.value) <= known
  {
  }

  lemma OpenInside(d: Snapshot, scope: Option<seq<string>>, r: Outcome<Selection>)
    requires r == FromUnresolved(UnresolvedOf(d, scope)) && r.Done?
    ensures Mentioned(r.value) <= NodeIds(d.nodes)
  {
    UnresolvedInside(d, scope);
    MentionedUnresolved(NodeIds(d.nodes), UnresolvedOf(d, scope), r);
  }

  lemma MentionedUnresolved(known: set<string>, q: Result<Unresolved>, r: Outcome<Selection>)
    requires r == FromUnresolved(q) && q.Ok? && OpenRefs(q.value) <= known
    ensures Mentioned(r.value) <= known
  {
  }

  lemma TimedInside(d: Snapshot, scope: Option<seq<string>>, r: Outcome<Selection>)
    requires EventsInside(d) && r == FromTemporal(TemporalOf(d, scope)) && r.Done?
    ensures Mentioned(r.value) <= NodeIds(d.nodes)
  {
    TemporalInside(d, scope);
    MentionedTemporal(NodeIds(d.nodes), TemporalOf(d, scope), r);
  }

  lemma MentionedTemporal(known: set<string>, q: Result<Temporal>, r: Outcome<Selection>)
    requires r == FromTemporal(q) && q.Ok? && TimedRefs(q.value) <= known
    ensures Mentioned(r.value) <= known
  {
  }

  lemma GroupedInside(d: Snapshot, scope: Option<seq<string>>, r: Outcome<Selection>)
    requires r == FromProvenance(ProvenanceOf(d, scope)) && r.Done?
    ensures Mentioned(r.value) <= NodeIds(d.nodes)
  {
    ProvenanceInside(d, scope);
    MentionedProvenance(NodeIds(d.nodes), ProvenanceOf(d, scope), r);
  }

  lemma MentionedProvenance(known: set<string>, q: Result<Provenance>, r: Outcome<Selection>)
    requires r == FromProvenance(q) && q.Ok? && GroupedRefs(q.value) <= known
    ensures Mentioned(r.value) <= known
  {
  }

  lemma FocusedInside(d: Snapshot, focus: seq<string>, r: Outcome<Selection>)
    requires GoodRefs(d) && IsSelection(d, ToNeighborhood, focus, r) && r.Done?
    ensures Mentioned(r.value) <= NodeIds(d.nodes)
  {
    var n :| IsNeighborhood(d, focus, NEIGHBORHOOD_DEPTH, n) && r == FromNeighborhood(n);
    NeighborhoodInside(d, focus, NEIGHBORHOOD_DEPTH, n);
  }

  lemma BridgedInside(d: Snapshot, focus: seq<string>, r: Outcome<Selection>)
    requires GoodRefs(d) && IsSelection(d, ToBridge, focus, r) && r.Done?
    ensures Mentioned(r.value) <= NodeIds(d.nodes)
  {
    var b :| IsBridge(d, focus[0], focus[1], MAX_DEPTH, MAX_PATHS, b) && r == FromBridge(b);
    BridgeInside(d, focus[0], focus[1], MAX_DEPTH, MAX_PATHS, b);
    MentionedBridge(NodeIds(d.nodes), b, r);
  }

  lemma MentionedBridge(known: set<string>, q: Result<Bridge>, r: Outcome<Selection>)
    requires r == FromBridge(q) && q.Ok? && PathRefs(q.value) <= known
    ensures Mentioned(r.value) <= known
  {
  }

  /** A restricted response mentions only human-reviewed nodes. */
  lemma OnlyReviewedMentioned(data: Snapshot, request: Request, safeModeAllows: bool, r: Outcome<Response>)
    requires !(request.canSeeUnreviewed && safeModeAllows)
    requires IsResponse(data, request, safeModeAllows, r) && r.Done?
    ensures Mentioned(r.value.selection) <= Visible(data.nodes)
  {
    Restricted(data, request, safeModeAllows, r);
    ReviewedIds(data);
    ReviewedMembers(data);
    AnswerInside(Reviewed(data), Normalize(request, safeModeAllows).value.0, ReviewedOnly, r);
  }

  lemma AnswerInside(d: Snapshot, n: Request, v: Visibility, r: Outcome<Response>)
    requires EventsInside(d) && IsAnswer(d, n, v, r) && r.Done?
    ensures Mentioned(r.value.selection) <= NodeIds(d.nodes)
  {
    var intent := ChooseIntent(n.seek).value;
    var s :| IsSelection(d, intent, n.focusRefs, s) && r == Finish(d, n, v, s);
    SelectionInside(d, intent, n.focusRefs, s);
  }

  // ----- projections --------------------------------------------------------------------

  lemma {:induction false} CardsInside(d: Snapshot, refs: seq<string>)
    ensures forall n :: n in Cards(d, refs) ==> n in d.nodes
  {
    if refs != [] { CardsInside(d, refs[1..]); }
  }

  lemma {:induction false} EdgeCardsInside(d: Snapshot, refs: seq<string>)
    ensures forall e :: e in EdgeCards(d, refs) ==> e in d.edges
  {
    if refs != [] { EdgeCardsInside(d, refs[1..]); }
  }

  lemma {:induction false} PlacementsInside(cards: seq<Node>, known: set<string>)
    requires forall n :: n in cards ==> n.id in known
    ensures forall p :: p in Placements(cards) ==> p.ref in known
  {
    if cards != [] {
      assert cards[0] in cards;
      PlacementsInside(cards[1..], known);
    }
  }

  /** Everything a payload shows belongs to the snapshot. */
  ghost predicate PayloadInside(d: Snapshot, p: Payload) {
    match p
    case Subgraph(nodes, edges) => (forall n :: n in nodes ==> n in d.nodes) && (forall e :: e in edges ==> e in d.edges)
    case CardStack(cards) => forall n :: n in cards ==> n in d.nodes
    case SpatialLayout(items, _) => forall i :: i in items ==> i.ref in NodeIds(d.nodes)
    case PathList(_, nodePaths, _) => AllRefs(nodePaths) <= NodeIds(d.nodes)
    case ComparisonTable(c) => SideRefs(c) <= NodeIds(d.nodes)
    case Timeline(records) => forall r :: r in records ==> RecordRefs(r) <= NodeIds(d.nodes)
    case ProvenanceMatrix(m) => GroupedRefs(m) <= NodeIds(d.nodes)
  }

  lemma PayloadOfInside(d: Snapshot, s: Selection, form: string)
    requires Mentioned(s) <= NodeIds(d.nodes) && PayloadOf(d, s, form).Some?
    ensures PayloadInside(d, PayloadOf(d, s, form).value)
  {
    var refs := s.NodeRefs();
    SubgraphInside(d, refs);
    StackInside(d, refs);
    LayoutInside(d, s);
    DetailInside(d, s, form);
    PayloadCases(d, s, form, refs);
  }

  /** A payload is one of four kinds. */
  lemma PayloadCases(d: Snapshot, s: Selection, form: string, refs: seq<string>)
    requires refs == s.NodeRefs()
    ensures var p := PayloadOf(d, s, form);
            p == Some(SubgraphOf(d, refs)) || p == Some(CardStack(Cards(d, refs))) || p == Some(LayoutOf(d, s)) || p == DetailOf(s, form)
  {
  }

  lemma StackInside(d: Snapshot, refs: seq<string>)
    ensures PayloadInside(d, CardStack(Cards(d, refs)))
  {
    CardsInside(d, refs);
  }

  lemma SubgraphInside(d: Snapshot, refs: seq<string>)
    ensures PayloadInside(d, SubgraphOf(d, refs))
  {
    CardsInside(d, Sorted(Elems(refs)));
    EdgeCardsInside(d, InducedEdges(d.edges, Elems(refs)));
  }

  lemma LayoutInside(d: Snapshot, s: Selection)
    ensures PayloadInside(d, LayoutOf(d, s))
  {
    CardsInside(d, s.NodeRefs());
    PlacementsInside(Cards(d, s.NodeRefs()), NodeIds(d.nodes));
  }

  lemma DetailInside(d: Snapshot, s: Selection, form: string)
    requires Mentioned(s) <= NodeIds(d.nodes)
    ensures DetailOf(s, form).Some? ==> PayloadInside(d, DetailOf(s, form).value)
  {
    if s.SelTemporal? {
      forall r | r in s.temporal.records ensures RecordRefs(r) <= NodeIds(d.nodes) {
        assert forall v :: v in RecordRefs(r) ==> v in TimedRefs(s.temporal);
      }
    } else if s.SelBridge? {
      assert AllRefs(s.bridge.nodePaths) <= PathRefs(s.bridge);
    }
  }

  lemma {:induction false} ProjectAllInside(d: Snapshot, s: Selection, forms: seq<string>)
    requires Mentioned(s) <= NodeIds(d.nodes) && ProjectAll(d, s, forms).Some?
    ensures forall p :: p in ProjectAll(d, s, forms).value.projections ==> PayloadInside(d, p.payload)
  {
    if forms != [] {
      var k := |forms| - 1;
      ProjectAllInside(d, s, forms[..k]);
      if forms[k] != COMPACT_NARRATIVE {
        PayloadOfInside(d, s, forms[k]);
      }
    }
  }

  /** Every node shown is a human-reviewed one, and so is every end of a relation and every node a
      reference is to. */
  ghost predicate ShowsReviewed(data: Snapshot, p: Payload) {
    var vis := Visible(data.nodes);
    match p
    case Subgraph(nodes, edges) =>
      && (forall n :: n in nodes ==> n in data.nodes && n.reviewState == REVIEWED)
      && (forall e :: e in edges ==> e in data.edges && e.fromId in vis && e.toId in vis)
    case CardStack(cards) => forall n :: n in cards ==> n in data.nodes && n.reviewState == REVIEWED
    case SpatialLayout(items, _) => forall i :: i in items ==> i.ref in vis
    case PathList(_, nodePaths, _) => AllRefs(nodePaths) <= vis
    case ComparisonTable(c) => SideRefs(c) <= vis
    case Timeline(records) => forall r :: r in records ==> RecordRefs(r) <= vis
    case ProvenanceMatrix(m) => GroupedRefs(m) <= vis
  }

  lemma InsideIsReviewed(data: Snapshot, p: Payload)
    requires DistinctIds(Reviewed(data).nodes, NodeId) && PayloadInside(Reviewed(data), p)
    ensures ShowsReviewed(data, p)
  {
    ReviewedIds(data);
    ReviewedMembers(data);
    forall n | n in Reviewed(data).nodes ensures n in data.nodes && n.reviewState == REVIEWED { KeptAreReviewed(data, n); }
  }

  /** A restricted response shows only human-reviewed nodes, in every projection form. */
  lemma OnlyReviewedProjected(data: Snapshot, request: Request, safeModeAllows: bool, r: Outcome<Response>)
    requires !(request.canSeeUnreviewed && safeModeAllows)
    requires IsResponse(data, request, safeModeAllows, r) && r.Done?
    ensures forall p :: p in r.value.projected.projections ==> ShowsReviewed(data, p.payload)
  {
    Restricted(data, request, safeModeAllows, r);
    OnlyReviewedMentioned(data, request, safeModeAllows, r);
    ReviewedIds(data);
    AnswerProjections(Reviewed(data), Normalize(request, safeModeAllows).value.0, ReviewedOnly, r);
    forall p | p in r.value.projected.projections ensures ShowsReviewed(data, p.payload) {
      InsideIsReviewed(data, p.payload);
    }
  }

  lemma AnswerProjections(d: Snapshot, n: Request, v: Visibility, r: Outcome<Response>)
    requires IsAnswer(d, n, v, r) && r.Done? && Mentioned(r.value.selection) <= NodeIds(d.nodes)
    ensures forall p :: p in r.value.projected.projections ==> PayloadInside(d, p.payload)
  {
    ProjectAllInside(d, r.value.selection, n.desiredProjection);
  }

  // ----- who asks does not matter -------------------------------------------------------

  /** Two accepted requests with the same fingerprint and the same visibility get the same
      selection (or the same failure to select), whoever asks and in whatever form. */
  lemma SameFingerprintSameSelection(data: Snapshot, a: Request, b: Request, safeA: bool, safeB: bool,
                                     ra: Outcome<Response>, rb: Outcome<Response>)
    requires IsResponse(data, a, safeA, ra) && IsResponse(data, b, safeB, rb)
    requires Normalize(a, safeA).Some? && Normalize(b, safeB).Some?
    requires FingerprintOf(Normalize(a, safeA).value.0) == FingerprintOf(Normalize(b, safeB).value.0)
    requires Normalize(a, safeA).value.1 == Normalize(b, safeB).value.1
    ensures ra.Done? && rb.Done? ==> ra.value.selection == rb.value.selection
    ensures ra.Failed? && ra.error != BadProjection ==> rb == Failed(ra.error)
  {
    var na, nb, v := Normalize(a, safeA).value.0, Normalize(b, safeB).value.0, Normalize(a, safeA).value.1;
    AnswersAgree(VisibleSnapshot(data, v), na, nb, v, ra, rb);
  }

  lemma AnswersAgree(d: Snapshot, na: Request, nb: Request, v: Visibility, ra: Outcome<Response>, rb: Outcome<Response>)
    requires IsAnswer(d, na, v, ra) && IsAnswer(d, nb, v, rb)
    requires na.seek == nb.seek && na.focusRefs == nb.focusRefs
    ensures ra.Done? && rb.Done? ==> ra.value.selection == rb.value.selection
    ensures ra.Failed? && ra.error != BadProjection ==> rb == Failed(ra.error)
  {
    if WellFormed(d) && ChooseIntent(na.seek).Some? {
      var intent := ChooseIntent(na.seek).value;
      var s :| IsSelection(d, intent, na.focusRefs, s) && ra == Finish(d, na, v, s);
      var t :| IsSelection(d, intent, nb.focusRefs, t) && rb == Finish(d, nb, v, t);
      SelectionUnique(d, intent, na.focusRefs, s, t);
    }
  }
}
