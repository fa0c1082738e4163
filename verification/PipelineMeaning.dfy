/** Which query answers which request, and what a projection of each form shows. */
module PipelineMeaning {
  import opened Options
  import opened Ordering
  import opened Graphs
  import opened Snapshots
  import opened Networks
  import opened PathQueries
  import opened StateQueries
  import opened Selections
  import opened Requests
  import opened Pipeline
  import opened Text

  // ----- intents ------------------------------------------------------------------------

  predicate Deterministic(s: string) {
    s in ["neighborhood", "contrast", "bridge", "residual", "unresolved", "temporal", "provenance"]
  }

  /** Of the seven deterministic intents, `name` is sought and no other. */
  predicate OnlySought(seek: seq<string>, name: string) {
    name in seek && Deterministic(name) && forall s :: s in seek && Deterministic(s) ==> s == name
  }

  lemma NamedExactly(s: string)
    ensures IntentNamed(s).Some? <==> Deterministic(s)
  {
  }

  lemma OneSupported(seek: seq<string>, name: string)
    requires OnlySought(seek, name)
    ensures Sorted(set s | s in seek && IntentNamed(s).Some?) == [name]
  {
    var supported := set s | s in seek && IntentNamed(s).Some?;
    NamedExactly(name);
    forall s | s in supported ensures s == name { NamedExactly(s); }
    assert supported == {name};
    SortedIs(supported, [name]);
  }

  /** The one intent sought is chosen; with none or several there is no choice. */
  lemma ChosenExactly(seek: seq<string>, name: string)
    ensures OnlySought(seek, name) ==> ChooseIntent(seek) == IntentNamed(name)
    ensures ChooseIntent(seek).Some? <==> exists n :: OnlySought(seek, n)
  {
    if OnlySought(seek, name) { OneSupported(seek, name); }
    if n :| OnlySought(seek, n) {
      OneSupported(seek, n);
      NamedExactly(n);
    }
    if ChooseIntent(seek).Some? {
      var supported := Sorted(set s | s in seek && IntentNamed(s).Some?);
      var n := supported[0];
      assert n in supported;
      NamedExactly(n);
      forall s | s in seek && Deterministic(s) ensures s == n {
        NamedExactly(s);
        assert s in supported;
      }
      assert OnlySought(seek, n);
    }
  }

  /** The selection is the answer of the query of that name, with the limits of the source. */
  ghost predicate AnsweredBy(name: string, d: Snapshot, focus: seq<string>, sel: Selection) {
    var scope := if focus == [] then None else Some(focus);
    && (name == "neighborhood" ==> focus != [] && sel.SelNeighborhood? && IsNeighborhood(d, focus, 1, Ok(sel.neighborhood)))
    && (name == "contrast" ==> |focus| == 2 && sel.SelContrast? && ContrastOf(d, [focus[0]], [focus[1]]) == Ok(sel.contrast))
    && (name == "bridge" ==> |focus| == 2 && sel.SelBridge? && IsBridge(d, focus[0], focus[1], 5, 8, Ok(sel.bridge)))
    && (name == "residual" ==> sel.SelResidual? && ResidualOf(d, scope) == Ok(sel.residual))
    && (name == "unresolved" ==> sel.SelUnresolved? && UnresolvedOf(d, scope) == Ok(sel.unresolved))
    && (name == "temporal" ==> sel.SelTemporal? && TemporalOf(d, scope) == Ok(sel.temporal))
    && (name == "provenance" ==> sel.SelProvenance? && ProvenanceOf(d, scope) == Ok(sel.provenance))
  }

  lemma SelectionAnswers(name: string, d: Snapshot, focus: seq<string>, r: Outcome<Selection>)
    requires Deterministic(name) && IntentNamed(name).Some? && IsSelection(d, IntentNamed(name).value, focus, r) && r.Done?
    ensures AnsweredBy(name, d, focus, r.value)
  {
  }

  /** The same of a request in normal form on the snapshot it may see. */
  lemma NormalAnswered(d: Snapshot, n: Request, v: Visibility, r: Outcome<Response>, name: string)
    requires IsAnswer(d, n, v, r) && r.Done? && OnlySought(n.seek, name)
    ensures AnsweredBy(name, d, n.focusRefs, r.value.selection)
  {
    ChosenExactly(n.seek, name);
    NamedExactly(name);
    var s :| IsSelection(d, IntentNamed(name).value, n.focusRefs, s) && r == Finish(d, n, v, s);
    SelectionAnswers(name, d, n.focusRefs, s);
  }

  lemma NormalRefused(d: Snapshot, n: Request, v: Visibility, r: Outcome<Response>)
    requires IsAnswer(d, n, v, r) && forall s :: !OnlySought(n.seek, s)
    ensures r == if WellFormed(d) then Failed(BadIntent) else Failed(BadNetwork)
  {
    ChosenExactly(n.seek, "");
  }

  /** A request that seeks one deterministic intent is answered by that query, on what it may see. */
  lemma AnsweredAsAsked(data: Snapshot, request: Request, safeModeAllows: bool, r: Outcome<Response>, n: Request, v: Visibility, name: string)
    requires Normalize(request, safeModeAllows) == Some((n, v)) && IsResponse(data, request, safeModeAllows, r)
    requires r.Done? && OnlySought(n.seek, name)
    ensures AnsweredBy(name, if request.canSeeUnreviewed && safeModeAllows then data else Reviewed(data), n.focusRefs, r.value.selection)
  {
    NormalAnswered(VisibleSnapshot(data, v), n, v, r, name);
  }

  /** One that seeks none of them, or several, fails. */
  lemma RefusedUnlessOne(data: Snapshot, request: Request, safeModeAllows: bool, r: Outcome<Response>, n: Request, v: Visibility)
    requires Normalize(request, safeModeAllows) == Some((n, v)) && IsResponse(data, request, safeModeAllows, r)
    requires forall s :: !OnlySought(n.seek, s)
    ensures r == if WellFormed(VisibleSnapshot(data, v)) then Failed(BadIntent) else Failed(BadNetwork)
  {
    NormalRefused(VisibleSnapshot(data, v), n, v, r);
  }

  /** What a request may see: everything only if it may see the unreviewed and safe mode allows it. */
  lemma VisibleExactly(data: Snapshot, request: Request, safeModeAllows: bool)
    requires Normalize(request, safeModeAllows).Some?
    ensures VisibleSnapshot(data, Normalize(request, safeModeAllows).value.1)
         == if request.canSeeUnreviewed && safeModeAllows then data else Reviewed(data)
  {
  }

  // ----- projections --------------------------------------------------------------------

  /** The cards are the nodes of the references, in their order. */
  lemma {:induction false} CardsAre(d: Snapshot, refs: seq<string>)
    requires forall r :: r in refs ==> r in Nodes(d)
    ensures |Cards(d, refs)| == |refs|
    ensures forall i :: 0 <= i < |refs| ==> Cards(d, refs)[i] in d.nodes && Cards(d, refs)[i].id == refs[i]
  {
    if refs != [] {
      assert refs[0] in refs;
      forall r | r in refs[1..] ensures r in refs { }
      CardsAre(d, refs[1..]);
    }
  }

  lemma {:induction false} EdgeCardsAre(d: Snapshot, refs: seq<string>, e: Relation)
    requires DistinctIds(d.edges, EdgeId)
    ensures e in EdgeCards(d, refs) <==> e in d.edges && e.id in refs
  {
    if refs != [] {
      EdgeCardsAre(d, refs[1..], e);
      var index := IndexMap(d.edges, EdgeId);
      if e in d.edges && e.id == refs[0] { IndexFinds(d.edges, EdgeId, e); }
    }
  }

  /** Placed are the cards that have both coordinates. */
  lemma {:induction false} PlacementsAre(cards: seq<Node>, p: Placed)
    ensures p in Placements(cards) <==>
      exists i :: 0 <= i < |cards| && cards[i].x == Some(p.x) && cards[i].y == Some(p.y) && cards[i].id == p.ref
  {
    if cards != [] {
      var rest := cards[1..];
      PlacementsAre(rest, p);
      if p in Placements(rest) {
        var i :| 0 <= i < |rest| && rest[i].x == Some(p.x) && rest[i].y == Some(p.y) && rest[i].id == p.ref;
        assert cards[i + 1] == rest[i];
      }
      if i :| 0 <= i < |cards| && cards[i].x == Some(p.x) && cards[i].y == Some(p.y) && cards[i].id == p.ref {
        if i > 0 { assert rest[i - 1] == cards[i]; }
      }
    }
  }

  predicate Shows(cards: seq<Node>, d: Snapshot, refs: seq<string>) {
    |cards| == |refs| && forall i :: 0 <= i < |refs| ==> cards[i] in d.nodes && cards[i].id == refs[i]
  }

  /** Which forms fit which selections. */
  predicate Fits(form: string, s: Selection) {
    || form in ["subgraph", "card_stack", "spatial_layout"]
    || (form == "path_list" && s.SelBridge?)
    || (form == "comparison_table" && s.SelContrast?)
    || (form == "timeline" && s.SelTemporal?)
    || (form == "provenance_matrix" && s.SelProvenance?)
  }

  lemma FitsExactly(d: Snapshot, s: Selection, form: string)
    ensures PayloadOf(d, s, form).Some? <==> Fits(form, s)
  {
  }

  lemma SubgraphEdges(d: Snapshot, refs: seq<string>, e: Relation)
    requires DistinctIds(d.edges, EdgeId)
    ensures e in EdgeCards(d, InducedEdges(d.edges, Elems(refs))) <==> e in d.edges && e.fromId in refs && e.toId in refs
  {
    EdgeCardsAre(d, InducedEdges(d.edges, Elems(refs)), e);
    if e in d.edges { InducedKept(d.edges, Elems(refs), e); }
  }

  lemma SubgraphNodes(d: Snapshot, refs: seq<string>)
    requires forall r :: r in refs ==> r in Nodes(d)
    ensures Shows(Cards(d, Sorted(Elems(refs))), d, Sorted(Elems(refs)))
  {
    forall r | r in Sorted(Elems(refs)) ensures r in Nodes(d) { assert r in Elems(refs); }
    CardsAre(d, Sorted(Elems(refs)));
  }

  /** A subgraph shows the selected nodes in order and the relations between them. */
  lemma SubgraphExact(d: Snapshot, s: Selection, refs: seq<string>, e: Relation)
    requires DistinctIds(d.edges, EdgeId) && refs == s.NodeRefs() && (forall r :: r in refs ==> r in Nodes(d))
    ensures var p := PayloadOf(d, s, "subgraph");
            && p.Some? && p.value.Subgraph? && Shows(p.value.nodes, d, Sorted(Elems(refs)))
            && (e in p.value.edges <==> e in d.edges && e.fromId in refs && e.toId in refs)
  {
    SubgraphNodes(d, refs);
    SubgraphEdges(d, refs, e);
    assert PayloadOf(d, s, "subgraph") == Some(SubgraphOf(d, refs));
  }

  lemma InducedKept(edges: seq<Relation>, selected: set<string>, e: Relation)
    requires DistinctIds(edges, EdgeId) && e in edges
    ensures e.id in InducedEdges(edges, selected) <==> e.fromId in selected && e.toId in selected
  {
    if e.id in InducedEdges(edges, selected) {
      var f :| f in edges && f.fromId in selected && f.toId in selected && f.id == e.id;
      SameIdSameItem(edges, EdgeId, e, f);
    }
  }

  /** A card stack shows the selected nodes in order. */
  lemma CardStackExact(d: Snapshot, s: Selection)
    requires forall r :: r in s.NodeRefs() ==> r in Nodes(d)
    ensures var p := PayloadOf(d, s, "card_stack"); p.Some? && p.value.CardStack? && Shows(p.value.cards, d, s.NodeRefs())
  {
    CardsAre(d, s.NodeRefs());
  }

  /** A layout shows the selected nodes that have both coordinates, where they are. */
  lemma LayoutExact(d: Snapshot, s: Selection, i: Placed)
    requires DistinctIds(d.nodes, NodeId) && forall r :: r in s.NodeRefs() ==> r in Nodes(d)
    ensures var p := PayloadOf(d, s, "spatial_layout");
            && p.Some? && p.value.SpatialLayout? && p.value.edgeRefs == s.EdgeRefs()
            && (i in p.value.items <==>
                  i.ref in s.NodeRefs() && exists n :: n in d.nodes && n.id == i.ref && n.x == Some(i.x) && n.y == Some(i.y))
  {
    var refs := s.NodeRefs();
    var cards := Cards(d, refs);
    CardsAre(d, refs);
    PlacementsAre(cards, i);
    if i.ref in refs {
      var k :| 0 <= k < |refs| && refs[k] == i.ref;
      if n :| n in d.nodes && n.id == i.ref && n.x == Some(i.x) && n.y == Some(i.y) {
        SameIdSameItem(d.nodes, NodeId, n, cards[k]);
      }
    }
  }

  /** The other forms show what the selection found. */
  lemma DetailExact(d: Snapshot, s: Selection)
    ensures s.SelBridge? ==> PayloadOf(d, s, "path_list") == Some(PathList(s.bridge.nodePaths != [], s.bridge.nodePaths, s.bridge.edgePaths))
    ensures s.SelContrast? ==> PayloadOf(d, s, "comparison_table") == Some(ComparisonTable(s.contrast))
    ensures s.SelTemporal? ==> PayloadOf(d, s, "timeline") == Some(Timeline(s.temporal.records))
    ensures s.SelProvenance? ==> PayloadOf(d, s, "provenance_matrix") == Some(ProvenanceMatrix(s.provenance))
  {
  }

  /** The forms sought are projected in order, but for the narrative, which is put off. */
  lemma {:induction false} ProjectedForms(d: Snapshot, s: Selection, forms: seq<string>)
    requires ProjectAll(d, s, forms).Some?
    ensures var r := ProjectAll(d, s, forms).value;
            && Map(r.projections, (p: Projection) => p.form) == Filter(forms, (f: string) => f != "compact_narrative")
            && r.deferred == Filter(forms, (f: string) => f == "compact_narrative")
  {
    if forms != [] {
      var k := |forms| - 1;
      ProjectedForms(d, s, forms[..k]);
      FormsStep(forms[..k], forms[k], (f: string) => f != "compact_narrative");
      FormsStep(forms[..k], forms[k], (f: string) => f == "compact_narrative");
      assert forms == forms[..k] + [forms[k]];
    }
  }

  lemma FormsStep(init: seq<string>, f: string, keep: string -> bool)
    ensures Filter(init + [f], keep) == Filter(init, keep) + if keep(f) then [f] else []
  {
    FilterJoin(init, [f], keep);
    assert [f][1..] == [];
  }

  /** Every projection is of its form, with the selection's references. */
  lemma {:induction false} ProjectedPayloads(d: Snapshot, s: Selection, forms: seq<string>, p: Projection)
    requires ProjectAll(d, s, forms).Some? && p in ProjectAll(d, s, forms).value.projections
    ensures PayloadOf(d, s, p.form) == Some(p.payload) && p.nodeRefs == s.NodeRefs() && p.edgeRefs == s.EdgeRefs()
  {
    var k := |forms| - 1;
    if p in ProjectAll(d, s, forms[..k]).value.projections { ProjectedPayloads(d, s, forms[..k], p); }
  }

  /** And they all fit exactly if the whole succeeds. */
  lemma {:induction false} ProjectedExactly(d: Snapshot, s: Selection, forms: seq<string>)
    ensures ProjectAll(d, s, forms).Some? <==>
      forall i :: 0 <= i < |forms| && forms[i] != "compact_narrative" ==> Fits(forms[i], s)
  {
    if forms != [] {
      var k := |forms| - 1;
      ProjectedExactly(d, s, forms[..k]);
      FitsExactly(d, s, forms[k]);
      assert forall i :: 0 <= i < k ==> forms[..k][i] == forms[i];
    }
  }

  // ----- normal requests ----------------------------------------------------------------

  /** The list of a normal request: trimmed, in order, without repetition. */
  ghost predicate NormalOf(list: seq<string>, items: seq<string>) {
    Ascending(list) && forall x :: x in list <==> exists i :: 0 <= i < |items| && Trim(items[i], PySpace) == x
  }

  lemma StringListIs(items: seq<string>, allowEmpty: bool)
    ensures StringList(items, allowEmpty).Some? <==>
      (forall i :: 0 <= i < |items| ==> !Blank(items[i], PySpace)) && (allowEmpty || items != [])
    ensures StringList(items, allowEmpty).Some? ==> NormalOf(StringList(items, allowEmpty).value, items)
  {
    forall i | 0 <= i < |items| ensures Trim(items[i], PySpace) in Stripped(items) && (Trim(items[i], PySpace) == "" <==> Blank(items[i], PySpace)) {
      assert items[i] in items;
      TrimBlank(items[i], PySpace);
    }
    forall x | x in Stripped(items) ensures exists i :: 0 <= i < |items| && Trim(items[i], PySpace) == x {
      var y :| y in items && Strip(y) == x;
      var i :| 0 <= i < |items| && items[i] == y;
    }
    if items != [] { assert Trim(items[0], PySpace) in Stripped(items); }
  }

  lemma EnumListIs(items: seq<string>, allowed: string -> bool, allowEmpty: bool)
    ensures EnumList(items, allowed, allowEmpty).Some? <==>
      && StringList(items, allowEmpty).Some?
      && forall i :: 0 <= i < |items| ==> allowed(Trim(items[i], PySpace))
    ensures EnumList(items, allowed, allowEmpty).Some? ==> EnumList(items, allowed, allowEmpty) == StringList(items, allowEmpty)
  {
    forall i | 0 <= i < |items| ensures Trim(items[i], PySpace) in Stripped(items) { assert items[i] in items; }
    forall x | x in Stripped(items) ensures exists i :: 0 <= i < |items| && Trim(items[i], PySpace) == x {
      var y :| y in items && Strip(y) == x;
      var i :| 0 <= i < |items| && items[i] == y;
    }
  }

  /** The names a request may use. */
  lemma NamesAllowed(s: string)
    ensures ActorKind(s) <==> s in ["human", "generative_ai", "sei_cognition", "external_system"]
    ensures Role(s) <==> s in ["observe", "explore", "compare", "critique", "synthesize", "propose", "review", "approve", "publish"]
    ensures QueryIntent(s) <==> Deterministic(s) || s in ["affinity", "readout"]
    ensures ProjectionForm(s) <==> s in ["subgraph", "path_list", "card_stack", "comparison_table", "spatial_layout", "timeline", "provenance_matrix", "compact_narrative"]
    ensures SourceScope(s) <==> s in ["network", "working", "consensus"]
    ensures Need(s) <==> s in ["default", "increase"]
  {
  }

  /** What the lists of an accepted request must be. */
  ghost predicate GoodLists(r: Request) {
    && (forall i :: 0 <= i < |r.roles| ==> !Blank(r.roles[i], PySpace) && Role(Trim(r.roles[i], PySpace))) && r.roles != []
    && (forall i :: 0 <= i < |r.focusRefs| ==> !Blank(r.focusRefs[i], PySpace))
    && (forall i :: 0 <= i < |r.themes| ==> !Blank(r.themes[i], PySpace))
    && (forall i :: 0 <= i < |r.seek| ==> !Blank(r.seek[i], PySpace) && QueryIntent(Trim(r.seek[i], PySpace))) && r.seek != []
    && (forall i :: 0 <= i < |r.readableScopes| ==> !Blank(r.readableScopes[i], PySpace)) && r.readableScopes != []
    && (forall i :: 0 <= i < |r.desiredProjection| ==> !Blank(r.desiredProjection[i], PySpace) && ProjectionForm(Trim(r.desiredProjection[i], PySpace)))
  }

  lemma ListsExactly(r: Request)
    ensures ListsOf(r).Good() <==> GoodLists(r)
    ensures var l := ListsOf(r); l.Good() ==>
      && NormalOf(l.roles.value, r.roles) && NormalOf(l.focusRefs.value, r.focusRefs) && NormalOf(l.themes.value, r.themes)
      && NormalOf(l.seek.value, r.seek) && NormalOf(l.readableScopes.value, r.readableScopes)
      && NormalOf(l.desiredProjection.value, r.desiredProjection)
  {
    StringListIs(r.roles, false);
    EnumListIs(r.roles, Role, false);
    StringListIs(r.focusRefs, true);
    StringListIs(r.themes, true);
    StringListIs(r.seek, false);
    EnumListIs(r.seek, QueryIntent, false);
    StringListIs(r.readableScopes, false);
    StringListIs(r.desiredProjection, true);
    EnumListIs(r.desiredProjection, ProjectionForm, true);
  }

  lemma ScalarsExactly(r: Request)
    ensures GoodScalars(r) <==>
      && !Blank(r.requestId, PySpace) && !Blank(r.actorRef, PySpace) && !Blank(r.inquiry, PySpace)
      && ActorKind(Trim(r.actorKind, PySpace)) && SourceScope(Trim(r.sourceScope, PySpace))
      && Need(Trim(r.diversityNeed, PySpace)) && Need(Trim(r.unresolvedNeed, PySpace))
      && r.resolutionSource == "server_resolved"
  {
    TrimBlank(r.requestId, PySpace);
    TrimBlank(r.actorRef, PySpace);
    TrimBlank(r.inquiry, PySpace);
    assert !ActorKind("") && !SourceScope("") && !Need("");
  }

  /** Which requests are accepted. */
  lemma AcceptedExactly(r: Request, safeModeAllows: bool)
    ensures Normalize(r, safeModeAllows).Some? <==> GoodLists(r) && GoodScalars(r)
  {
    ListsExactly(r);
  }

  /** What an accepted request becomes. */
  lemma NormalizeExactly(r: Request, safeModeAllows: bool, n: Request, v: Visibility)
    requires Normalize(r, safeModeAllows) == Some((n, v))
    ensures NormalOf(n.roles, r.roles) && NormalOf(n.focusRefs, r.focusRefs) && NormalOf(n.themes, r.themes)
    ensures NormalOf(n.seek, r.seek) && NormalOf(n.readableScopes, r.readableScopes) && NormalOf(n.desiredProjection, r.desiredProjection)
    ensures n.requestId == Trim(r.requestId, PySpace) && n.actorRef == Trim(r.actorRef, PySpace) && n.inquiry == Trim(r.inquiry, PySpace)
    ensures v == IncludeUnreviewed <==> r.canSeeUnreviewed && safeModeAllows
  {
    ListsExactly(r);
  }
}
