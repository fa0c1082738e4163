/** Qualitative network snapshots, their well-formedness, and the review filter. */
module Snapshots {
  import opened Options

  datatype Node = Node(
    id: string,
    islandId: string,
    holdState: string,
    reviewState: string,
    sourceRefs: seq<string>,
    actorRefs: seq<string>,
    observedAt: string,
    x: Option<real>,
    y: Option<real>)

  datatype Relation = Relation(id: string, fromId: string, toId: string, directed: bool, kind: string, createdAt: string)

  datatype Critique = Critique(id: string, targetRef: string, state: string, createdAt: string)

  datatype Contradiction = Contradiction(id: string, fromId: string, toId: string, state: string, createdAt: string)

  datatype Event = Event(id: string, targetRefs: seq<string>, at: string, kind: string, actorRef: string, sourceRef: string)

  datatype Source = Source(id: string, meta: string)

  datatype Snapshot = Snapshot(
    networkId: string,
    nodes: seq<Node>,
    edges: seq<Relation>,
    critiques: seq<Critique>,
    contradictions: seq<Contradiction>,
    events: seq<Event>,
    sources: seq<Source>)

  // ----- filtering lists ----------------------------------------------------------------

  /** `[x for x in s if keep(x)]` */
  function Filter<T>(s: seq<T>, keep: T -> bool): seq<T> {
    if s == [] then [] else (if keep(s[0]) then [s[0]] else []) + Filter(s[1..], keep)
  }

  lemma {:induction false} FilterMembers<T(!new)>(s: seq<T>, keep: T -> bool)
    ensures forall x :: x in Filter(s, keep) <==> x in s && keep(x)
  {
    if s != [] {
      FilterMembers(s[1..], keep);
      assert s == [s[0]] + s[1..];
    }
  }

  lemma {:induction false} FilterJoin<T>(a: seq<T>, b: seq<T>, keep: T -> bool)
    ensures Filter(a + b, keep) == Filter(a, keep) + Filter(b, keep)
  {
    if a == [] {
      assert a + b == b;
    } else {
      var h := if keep(a[0]) then [a[0]] else [];
      var fa, fb := Filter(a[1..], keep), Filter(b, keep);
      FilterJoin(a[1..], b, keep);
      assert (a + b)[1..] == a[1..] + b;
      assert Filter(a + b, keep) == h + (fa + fb);
      assert h + (fa + fb) == (h + fa) + fb;
    }
  }

  lemma FilterJoin3<T>(a: seq<T>, b: seq<T>, c: seq<T>, keep: T -> bool)
    ensures Filter(a + b + c, keep) == Filter(a, keep) + Filter(b, keep) + Filter(c, keep)
  {
    FilterJoin(a + b, c, keep);
    FilterJoin(a, b, keep);
  }

  lemma {:induction false} FilterNone<T(!new)>(s: seq<T>, keep: T -> bool)
    requires forall x :: x in s ==> !keep(x)
    ensures Filter(s, keep) == []
  {
    if s != [] {
      assert s[0] in s;
      FilterNone(s[1..], keep);
    }
  }

  lemma {:induction false} FilterAll<T(!new)>(s: seq<T>, keep: T -> bool)
    requires forall x :: x in s ==> keep(x)
    ensures Filter(s, keep) == s
  {
    if s != [] {
      assert s[0] in s;
      FilterAll(s[1..], keep);
      assert s == [s[0]] + s[1..];
    }
  }

  /** `s` with the slice from `i` to `j` replaced. */
  function Splice<T>(s: seq<T>, i: nat, j: nat, news: seq<T>): seq<T>
    requires i <= j <= |s|
  {
    s[..i] + news + s[j..]
  }

  /** Exchanging dropped items for dropped items does not show. */
  lemma FilterSplice<T(!new)>(s: seq<T>, i: nat, j: nat, news: seq<T>, keep: T -> bool)
    requires i <= j <= |s|
    requires forall x :: x in s[i..j] || x in news ==> !keep(x)
    ensures Filter(Splice(s, i, j, news), keep) == Filter(s, keep)
  {
    assert s == s[..i] + s[i..j] + s[j..];
    FilterJoin3(s[..i], s[i..j], s[j..], keep);
    FilterJoin3(s[..i], news, s[j..], keep);
    FilterNone(s[i..j], keep);
    FilterNone(news, keep);
  }

  // ----- well-formedness ----------------------------------------------------------------

  function Map<T, U>(s: seq<T>, f: T -> U): (r: seq<U>)
    ensures |r| == |s| && forall i :: 0 <= i < |s| ==> r[i] == f(s[i])
  {
    seq(|s|, i requires 0 <= i < |s| => f(s[i]))
  }

  /** Non-empty and pairwise different. */
  predicate GoodIds(ids: seq<string>) {
    (forall i :: 0 <= i < |ids| ==> ids[i] != "") && (forall i, j :: 0 <= i < j < |ids| ==> ids[i] != ids[j])
  }

  predicate DistinctIds<T>(s: seq<T>, id: T -> string) {
    GoodIds(Map(s, id))
  }

  function NodeIds(nodes: seq<Node>): set<string> {
    set n | n in nodes :: n.id
  }

  function SourceIds(sources: seq<Source>): set<string> {
    set s | s in sources :: s.id
  }

  const NodeId := (n: Node) => n.id
  const EdgeId := (e: Relation) => e.id
  const CritiqueId := (c: Critique) => c.id
  const ContradictionId := (c: Contradiction) => c.id
  const EventId := (e: Event) => e.id
  const SourceId := (s: Source) => s.id

  predicate GoodRefs(data: Snapshot) {
    var known := NodeIds(data.nodes);
    && (forall e :: e in data.edges ==> e.fromId in known && e.toId in known)
    && (forall c :: c in data.critiques ==> c.targetRef in known)
    && (forall c :: c in data.contradictions ==> c.fromId in known && c.toId in known)
    && (forall n :: n in data.nodes ==> forall r :: r in n.sourceRefs ==> r in SourceIds(data.sources))
  }

  /** What the network constructor accepts. */
  predicate WellFormed(data: Snapshot) {
    && data.networkId != ""
    && DistinctIds(data.nodes, NodeId) && DistinctIds(data.edges, EdgeId) && DistinctIds(data.critiques, CritiqueId)
    && DistinctIds(data.contradictions, ContradictionId) && DistinctIds(data.events, EventId) && DistinctIds(data.sources, SourceId)
    && GoodRefs(data)
  }

  // ----- the review filter --------------------------------------------------------------

  const REVIEWED := "human_reviewed"

  function Visible(nodes: seq<Node>): set<string> {
    set n | n in nodes && n.reviewState == REVIEWED :: n.id
  }

  function Referenced(nodes: seq<Node>): set<string> {
    set n, r | n in nodes && r in n.sourceRefs :: r
  }

  function VisibleNodes(nodes: seq<Node>, vis: set<string>): seq<Node> {
    Filter(nodes, (n: Node) => n.id in vis)
  }

  predicate Touches(e: Event, vis: set<string>) {
    forall r :: r in e.targetRefs ==> r in vis
  }

  /** The snapshot that a reader restricted to reviewed material gets. */
  function Reviewed(data: Snapshot): Snapshot {
    var vis := Visible(data.nodes);
    var nodes := VisibleNodes(data.nodes, vis);
    var refs := Referenced(nodes);
    Snapshot(
      data.networkId,
      nodes,
      Filter(data.edges, (e: Relation) => e.fromId in vis && e.toId in vis),
      Filter(data.critiques, (c: Critique) => c.targetRef in vis),
      Filter(data.contradictions, (c: Contradiction) => c.fromId in vis && c.toId in vis),
      Filter(data.events, (e: Event) => Touches(e, vis)),
      Filter(data.sources, (s: Source) => s.id in refs))
  }

  // ----- properties of the filter -------------------------------------------------------

  /** What is kept is what was there and is visible. */
  lemma ReviewedMembers(data: Snapshot)
    ensures var vis, kept := Visible(data.nodes), Reviewed(data);
      && (forall n :: n in kept.nodes <==> n in data.nodes && n.id in vis)
      && (forall e :: e in kept.edges <==> e in data.edges && e.fromId in vis && e.toId in vis)
      && (forall c :: c in kept.critiques <==> c in data.critiques && c.targetRef in vis)
      && (forall c :: c in kept.contradictions <==> c in data.contradictions && c.fromId in vis && c.toId in vis)
      && (forall e :: e in kept.events <==> e in data.events && Touches(e, vis))
      && (forall s :: s in kept.sources <==> s in data.sources && s.id in Referenced(kept.nodes))
  {
    var vis, kept := Visible(data.nodes), Reviewed(data);
    FilterMembers(data.nodes, (n: Node) => n.id in vis);
    FilterMembers(data.edges, (e: Relation) => e.fromId in vis && e.toId in vis);
    FilterMembers(data.critiques, (c: Critique) => c.targetRef in vis);
    FilterMembers(data.contradictions, (c: Contradiction) => c.fromId in vis && c.toId in vis);
    FilterMembers(data.events, (e: Event) => Touches(e, vis));
    FilterMembers(data.sources, (s: Source) => s.id in Referenced(kept.nodes));
  }

  lemma VisibleOfVisible(nodes: seq<Node>)
    ensures Visible(VisibleNodes(nodes, Visible(nodes))) == Visible(nodes)
  {
    var vis := Visible(nodes);
    var kept := VisibleNodes(nodes, vis);
    FilterMembers(nodes, (n: Node) => n.id in vis);
    forall r | r in vis ensures r in Visible(kept) {
      var n :| n in nodes && n.reviewState == REVIEWED && n.id == r;
      assert n in kept;
    }
  }

  /** Filtering twice is filtering once. */
  lemma ReviewedIdempotent(data: Snapshot)
    ensures Reviewed(Reviewed(data)) == Reviewed(data)
  {
    var vis := Visible(data.nodes);
    var once := Reviewed(data);
    VisibleOfVisible(data.nodes);
    ReviewedMembers(data);
    FilterAll(once.nodes, (n: Node) => n.id in vis);
    FilterAll(once.edges, (e: Relation) => e.fromId in vis && e.toId in vis);
    FilterAll(once.critiques, (c: Critique) => c.targetRef in vis);
    FilterAll(once.contradictions, (c: Contradiction) => c.fromId in vis && c.toId in vis);
    FilterAll(once.events, (e: Event) => Touches(e, vis));
    FilterAll(once.sources, (s: Source) => s.id in Referenced(once.nodes));
  }

  lemma {:induction false} FilterDistinct<T(!new)>(s: seq<T>, id: T -> string, keep: T -> bool)
    requires DistinctIds(s, id)
    ensures DistinctIds(Filter(s, keep), id)
  {
    if s != [] {
      DistinctTail(s, id);
      FilterDistinct(s[1..], id, keep);
      if keep(s[0]) {
        FilterMembers(s[1..], keep);
        DistinctCons(s[0], Filter(s[1..], keep), id);
      }
    }
  }

  lemma DistinctTail<T(!new)>(s: seq<T>, id: T -> string)
    requires DistinctIds(s, id) && s != []
    ensures DistinctIds(s[1..], id) && id(s[0]) != ""
    ensures forall x :: x in s[1..] ==> id(x) != id(s[0])
  {
    var t := s[1..];
    assert forall i :: 0 <= i < |t| ==> Map(t, id)[i] == Map(s, id)[i + 1];
    assert Map(s, id)[0] == id(s[0]);
    forall x | x in t ensures id(x) != id(s[0]) {
      var k :| 0 <= k < |t| && t[k] == x;
      assert Map(s, id)[k + 1] == id(x);
    }
  }

  lemma DistinctCons<T(!new)>(x: T, t: seq<T>, id: T -> string)
    requires DistinctIds(t, id) && id(x) != "" && forall y :: y in t ==> id(y) != id(x)
    ensures DistinctIds([x] + t, id)
  {
    assert Map([x] + t, id) == [id(x)] + Map(t, id);
    forall i | 0 <= i < |t| ensures Map(t, id)[i] != id(x) {
      assert t[i] in t;
    }
    GoodIdsCons(id(x), Map(t, id));
  }

  lemma GoodIdsCons(a: string, ids: seq<string>)
    requires GoodIds(ids) && a != "" && a !in ids
    ensures GoodIds([a] + ids)
  {
  }

  /** The filter keeps a well-formed snapshot well-formed. */
  lemma ReviewedWellFormed(data: Snapshot)
    requires WellFormed(data)
    ensures WellFormed(Reviewed(data))
  {
    var vis := Visible(data.nodes);
    var kept := Reviewed(data);
    FilterDistinct(data.nodes, NodeId, (n: Node) => n.id in vis);
    FilterDistinct(data.edges, EdgeId, (e: Relation) => e.fromId in vis && e.toId in vis);
    FilterDistinct(data.critiques, CritiqueId, (c: Critique) => c.targetRef in vis);
    FilterDistinct(data.contradictions, ContradictionId, (c: Contradiction) => c.fromId in vis && c.toId in vis);
    FilterDistinct(data.events, EventId, (e: Event) => Touches(e, vis));
    FilterDistinct(data.sources, SourceId, (s: Source) => s.id in Referenced(kept.nodes));
    ReviewedRefs(data);
  }

  lemma ReviewedRefs(data: Snapshot)
    requires GoodRefs(data)
    ensures GoodRefs(Reviewed(data))
  {
    var kept := Reviewed(data);
    ReviewedIds(data);
    ReviewedMembers(data);
    forall n, r | n in kept.nodes && r in n.sourceRefs ensures r in SourceIds(kept.sources) {
      assert n in data.nodes;
      assert r in SourceIds(data.sources);
      var s :| s in data.sources && s.id == r;
      assert s in kept.sources;
    }
  }

  /** The ids of the kept nodes are exactly the visible ones. */
  lemma ReviewedIds(data: Snapshot)
    ensures NodeIds(Reviewed(data).nodes) == Visible(data.nodes)
  {
    ReviewedMembers(data);
    forall r | r in Visible(data.nodes) ensures r in NodeIds(Reviewed(data).nodes) {
      var n :| n in data.nodes && n.reviewState == REVIEWED && n.id == r;
      assert n in Reviewed(data).nodes;
    }
  }

  lemma SameIdSameItem<T(!new)>(s: seq<T>, id: T -> string, a: T, b: T)
    requires DistinctIds(s, id) && a in s && b in s && id(a) == id(b)
    ensures a == b
  {
    var i :| 0 <= i < |s| && s[i] == a;
    var j :| 0 <= j < |s| && s[j] == b;
    assert Map(s, id)[i] == Map(s, id)[j];
  }

  /** If the kept ids are distinct, the kept nodes are exactly the reviewed ones. */
  lemma KeptAreReviewed(data: Snapshot, n: Node)
    requires DistinctIds(Reviewed(data).nodes, NodeId)
    ensures n in Reviewed(data).nodes <==> n in data.nodes && n.reviewState == REVIEWED
  {
    ReviewedMembers(data);
    if n in Reviewed(data).nodes {
      var m :| m in data.nodes && m.reviewState == REVIEWED && m.id == n.id;
      SameIdSameItem(Reviewed(data).nodes, NodeId, m, n);
    }
  }
}
