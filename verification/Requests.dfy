/** Context projection requests: validation and the normal form the pipeline works on. */
module Requests {
  import opened Options
  import opened Ordering
  import opened Text

  /** A request with its keys checked. Lists and strings are as the requester wrote them. */
  datatype Request = Request(
    requestId: string,
    actorRef: string,
    actorKind: string,
    roles: seq<string>,
    focusRefs: seq<string>,
    themes: seq<string>,
    seek: seq<string>,
    inquiry: string,
    resolutionSource: string,
    readableScopes: seq<string>,
    canSeeUnreviewed: bool,
    canCreateProposal: bool,
    canReview: bool,
    canApprove: bool,
    canPublish: bool,
    sourceScope: string,
    desiredProjection: seq<string>,
    diversityNeed: string,
    unresolvedNeed: string)

  datatype Visibility = IncludeUnreviewed | ReviewedOnly

  predicate ActorKind(s: string) {
    s == "human" || s == "generative_ai" || s == "sei_cognition" || s == "external_system"
  }

  predicate Role(s: string) {
    s == "observe" || s == "explore" || s == "compare" || s == "critique" 
    || s == "synthesize" || s == "propose" || s == "review" || s == "approve" || s == "publish"
  }

  predicate QueryIntent(s: string) {
    s == "neighborhood" || s == "contrast" || s == "bridge" || s == "residual" || s == "unresolved" 
    || s == "temporal" || s == "provenance" || s == "affinity" || s == "readout"
  }

  predicate ProjectionForm(s: string) {
    s == "subgraph" || s == "path_list" || s == "card_stack" || s == "comparison_table" 
    || s == "spatial_layout" || s == "timeline" || s == "provenance_matrix" || s == "compact_narrative"
  }

  predicate SourceScope(s: string) {
    s == "network" || s == "working" || s == "consensus"
  }

  predicate Need(s: string) {
    s == "default" || s == "increase"
  }

  const SERVER_RESOLVED := "server_resolved"

  function Strip(s: string): string {
    Trim(s, PySpace)
  }

  function Stripped(items: seq<string>): set<string> {
    set x | x in items :: Strip(x)
  }

  /** `_string_list`: stripped, sorted, without duplicates; blank items are refused. */
  function StringList(items: seq<string>, allowEmpty: bool): Option<seq<string>> {
    var xs := Stripped(items);
    if "" in xs || (!allowEmpty && xs == {}) then None else Some(Sorted(xs))
  }

  /** `_enum_list` */
  function EnumList(items: seq<string>, allowed: string -> bool, allowEmpty: bool): Option<seq<string>> {
    if forall x :: x in Stripped(items) ==> allowed(x) then StringList(items, allowEmpty) else None
  }

  predicate GoodString(s: string) {
    Strip(s) != ""
  }

  predicate OneOf(s: string, allowed: string -> bool) {
    GoodString(s) && allowed(Strip(s))
  }

  /** Everything that is checked about the single strings. */
  predicate GoodScalars(r: Request) {
    && GoodString(r.requestId) && GoodString(r.actorRef) && GoodString(r.inquiry)
    && OneOf(r.actorKind, ActorKind) && OneOf(r.sourceScope, SourceScope)
    && OneOf(r.diversityNeed, Need) && OneOf(r.unresolvedNeed, Need)
    && r.resolutionSource == SERVER_RESOLVED
  }

  datatype Lists = Lists(
    roles: Option<seq<string>>, focusRefs: Option<seq<string>>, themes: Option<seq<string>>, seek: Option<seq<string>>,
    readableScopes: Option<seq<string>>, desiredProjection: Option<seq<string>>)
  {
    predicate Good() {
      roles.Some? && focusRefs.Some? && themes.Some? && seek.Some? && readableScopes.Some? && desiredProjection.Some?
    }
  }

  function ListsOf(r: Request): Lists {
    Lists(
      EnumList(r.roles, Role, false),
      StringList(r.focusRefs, true),
      StringList(r.themes, true),
      EnumList(r.seek, QueryIntent, false),
      StringList(r.readableScopes, false),
      EnumList(r.desiredProjection, ProjectionForm, true))
  }

  function NormalScalars(r: Request): Request {
    r.(requestId := Strip(r.requestId), actorRef := Strip(r.actorRef), actorKind := Strip(r.actorKind),
       inquiry := Strip(r.inquiry), sourceScope := Strip(r.sourceScope),
       diversityNeed := Strip(r.diversityNeed), unresolvedNeed := Strip(r.unresolvedNeed))
  }

  function WithLists(r: Request, l: Lists): Request
    requires l.Good()
  {
    r.(roles := l.roles.value, focusRefs := l.focusRefs.value, themes := l.themes.value, seek := l.seek.value,
       readableScopes := l.readableScopes.value, desiredProjection := l.desiredProjection.value)
  }

  function VisibilityFor(r: Request, safeModeAllows: bool): Visibility {
    if r.canSeeUnreviewed && safeModeAllows then IncludeUnreviewed else ReviewedOnly
  }

  /** `normalize_projection_request`: the normal form and what it may see, or a refusal. */
  function Normalize(r: Request, safeModeAllows: bool): Option<(Request, Visibility)> {
    var l := ListsOf(r);
    if GoodScalars(r) && l.Good() then Some((WithLists(NormalScalars(r), l), VisibilityFor(r, safeModeAllows))) else None
  }

  // ----- the normal form ----------------------------------------------------------------

  lemma StrippedSorted(xs: set<string>)
    requires forall x :: x in xs ==> Strip(x) == x
    ensures Stripped(Sorted(xs)) == xs
  {
    forall x | x in xs ensures x in Stripped(Sorted(xs)) {
      assert x in Sorted(xs) && Strip(x) == x;
    }
  }

  lemma StrippedStable(items: seq<string>)
    ensures forall x :: x in Stripped(items) ==> Strip(x) == x
  {
    forall x | x in Stripped(items) ensures Strip(x) == x {
      var y :| y in items && Strip(y) == x;
      TrimIdempotent(y, PySpace);
    }
  }

  lemma StringListAgain(items: seq<string>, allowEmpty: bool)
    requires StringList(items, allowEmpty).Some?
    ensures StringList(StringList(items, allowEmpty).value, allowEmpty) == StringList(items, allowEmpty)
    ensures Stripped(StringList(items, allowEmpty).value) == Stripped(items)
  {
    StrippedStable(items);
    StrippedSorted(Stripped(items));
  }

  lemma EnumListAgain(items: seq<string>, allowed: string -> bool, allowEmpty: bool)
    requires EnumList(items, allowed, allowEmpty).Some?
    ensures EnumList(EnumList(items, allowed, allowEmpty).value, allowed, allowEmpty) == EnumList(items, allowed, allowEmpty)
  {
    StringListAgain(items, allowEmpty);
  }

  lemma ListsAgain(r: Request, n: Request)
    requires ListsOf(r).Good() && n == WithLists(NormalScalars(r), ListsOf(r))
    ensures ListsOf(n) == ListsOf(r)
  {
    EnumListAgain(r.roles, Role, false);
    StringListAgain(r.focusRefs, true);
    StringListAgain(r.themes, true);
    EnumListAgain(r.seek, QueryIntent, false);
    StringListAgain(r.readableScopes, false);
    EnumListAgain(r.desiredProjection, ProjectionForm, true);
  }

  lemma ScalarsAgain(r: Request)
    ensures NormalScalars(NormalScalars(r)) == NormalScalars(r)
    ensures GoodScalars(NormalScalars(r)) == GoodScalars(r)
  {
    TrimIdempotent(r.requestId, PySpace);
    TrimIdempotent(r.actorRef, PySpace);
    TrimIdempotent(r.actorKind, PySpace);
    TrimIdempotent(r.inquiry, PySpace);
    TrimIdempotent(r.sourceScope, PySpace);
    TrimIdempotent(r.diversityNeed, PySpace);
    TrimIdempotent(r.unresolvedNeed, PySpace);
  }

  /** A normal form is its own normal form. */
  lemma NormalizeIdempotent(r: Request, safeModeAllows: bool)
    requires Normalize(r, safeModeAllows).Some?
    ensures Normalize(Normalize(r, safeModeAllows).value.0, safeModeAllows) == Normalize(r, safeModeAllows)
  {
    var n := Normalize(r, safeModeAllows).value.0;
    ListsAgain(r, n);
    ScalarsAgain(r);
    ScalarsSeeNoLists(NormalScalars(r), ListsOf(r));
  }

  lemma ScalarsSeeNoLists(r: Request, l: Lists)
    requires l.Good()
    ensures GoodScalars(WithLists(r, l)) == GoodScalars(r)
    ensures NormalScalars(WithLists(r, l)) == WithLists(NormalScalars(r), l)
  {
  }

  /** The two requests list the same things, in whatever order and however often. */
  ghost predicate SameUpToOrder(a: Request, b: Request) {
    && Stripped(a.roles) == Stripped(b.roles)
    && Stripped(a.focusRefs) == Stripped(b.focusRefs)
    && Stripped(a.themes) == Stripped(b.themes)
    && Stripped(a.seek) == Stripped(b.seek)
    && Stripped(a.readableScopes) == Stripped(b.readableScopes)
    && Stripped(a.desiredProjection) == Stripped(b.desiredProjection)
    && b == a.(roles := b.roles, focusRefs := b.focusRefs, themes := b.themes, seek := b.seek,
               readableScopes := b.readableScopes, desiredProjection := b.desiredProjection)
  }

  /** Order and repetition in the request's lists do not matter. */
  lemma NormalizeOrderFree(a: Request, b: Request, safeModeAllows: bool)
    requires SameUpToOrder(a, b)
    ensures Normalize(a, safeModeAllows) == Normalize(b, safeModeAllows)
  {
    ListsOrderFree(a, b);
    ScalarsOrderFree(a, b);
  }

  lemma ListsOrderFree(a: Request, b: Request)
    requires SameUpToOrder(a, b)
    ensures ListsOf(a) == ListsOf(b)
  {
  }

  lemma ScalarsOrderFree(a: Request, b: Request)
    requires SameUpToOrder(a, b)
    ensures GoodScalars(a) == GoodScalars(b)
    ensures ListsOf(a).Good() ==> WithLists(NormalScalars(a), ListsOf(a)) == WithLists(NormalScalars(b), ListsOf(a))
    ensures a.canSeeUnreviewed == b.canSeeUnreviewed
  {
  }

  /** `selection_input_fingerprint`: what a selection may depend on. */
  datatype Fingerprint = Fingerprint(
    focusRefs: seq<string>, themes: seq<string>, seek: seq<string>, inquiry: string, sourceScope: string,
    diversityNeed: string, unresolvedNeed: string)

  function FingerprintOf(r: Request): Fingerprint {
    Fingerprint(r.focusRefs, r.themes, r.seek, r.inquiry, r.sourceScope, r.diversityNeed, r.unresolvedNeed)
  }
}
