/** The supplemental candidate channels: lexical expansion from anchors, and the envelope that sets
    channels beside a deterministic selection. */
module CandidateChannels {
  import opened Options
  import opened Ordering
  import opened Graphs

  // ----- character n-grams --------------------------------------------------------------

  predicate Window(surface: string, size: nat, i: nat, g: string) {
    i + size <= |surface| && g == surface[i..i + size]
  }

  ghost predicate IsGram(surface: string, size: nat, g: string) {
    exists i: nat :: Window(surface, size, i, g)
  }

  method AddGrams(surface: string, size: nat, grams: set<string>) returns (r: set<string>)
    ensures forall g :: g in r <==> g in grams || IsGram(surface, size, g)
  {
    r := grams;
    var i := 0;
    while i + size <= |surface|
      invariant forall g :: g in r ==> g in grams || IsGram(surface, size, g)
      invariant forall g :: g in grams ==> g in r
      invariant forall k: nat, g {:trigger Window(surface, size, k, g)} :: k < i && Window(surface, size, k, g) ==> g in r
      decreases |surface| - i
    {
      assert Window(surface, size, i, surface[i..i + size]);
      r := r + {surface[i..i + size]};
      i := i + 1;
    }
  }

  /** All windows of the given sizes; a size below one is refused. */
  method CharacterNgrams(surface: string, sizes: seq<int>) returns (r: Option<set<string>>)
    ensures r.Some? <==> forall k :: 0 <= k < |sizes| ==> sizes[k] >= 1
    ensures r.Some? ==> forall g :: g in r.value <==> exists k {:trigger sizes[k]} :: 0 <= k < |sizes| && sizes[k] >= 1 && IsGram(surface, sizes[k], g)
  {
    var grams: set<string> := {};
    var n := 0;
    while n < |sizes|
      invariant n <= |sizes| && forall k :: 0 <= k < n ==> sizes[k] >= 1
      invariant forall g :: g in grams <==> exists k {:trigger sizes[k]} :: 0 <= k < n && sizes[k] >= 1 && IsGram(surface, sizes[k], g)
    {
      if sizes[n] < 1 {
        return None;
      }
      grams := AddGrams(surface, sizes[n], grams);
      n := n + 1;
    }
    r := Some(grams);
  }

  // ----- lexical expansion --------------------------------------------------------------

  /** The features of a ref's text; none for a blank text. */
  type Features = string -> set<string>

  datatype Item = Item(ref: string, matched: seq<string>, evidence: seq<string>)

  function Shared(f: Features, ref: string, anchor: string): set<string> { f(ref) * f(anchor) }

  predicate Matches(f: Features, min: nat, ref: string, anchor: string) {
    |Shared(f, ref, anchor)| >= min
  }

  function Matched(f: Features, min: nat, anchors: set<string>, ref: string): set<string> {
    set a | a in anchors && Matches(f, min, ref, a)
  }

  function Evidence(f: Features, min: nat, anchors: set<string>, ref: string): set<string> {
    set a, g | a in anchors && Matches(f, min, ref, a) && g in Shared(f, ref, a) :: g
  }

  predicate IsCandidate(f: Features, min: nat, anchors: set<string>, ref: string) {
    ref !in anchors && Matched(f, min, anchors, ref) != {}
  }

  function Candidates(f: Features, min: nat, anchors: set<string>, scope: set<string>): set<string> {
    set ref | ref in scope && IsCandidate(f, min, anchors, ref)
  }

  function Take(s: seq<string>, n: nat): seq<string> { if n <= |s| then s[..n] else s }

  predicate IsItem(f: Features, min: nat, max: nat, anchors: set<string>, x: Item) {
    && x.matched == Sorted(Matched(f, min, anchors, x.ref))
    && x.evidence == Take(Sorted(Evidence(f, min, anchors, x.ref)), max)
  }

  function Refs(items: seq<Item>): (r: seq<string>)
    ensures |r| == |items| && forall i :: 0 <= i < |items| ==> r[i] == items[i].ref
  {
    seq(|items|, i requires 0 <= i < |items| => items[i].ref)
  }

  method MatchAnchors(f: Features, min: nat, anchors: seq<string>, ref: string) returns (matched: set<string>, shared: set<string>)
    ensures matched == Matched(f, min, Elems(anchors), ref)
    ensures shared == Evidence(f, min, Elems(anchors), ref)
  {
    matched, shared := {}, {};
    var n := 0;
    while n < |anchors|
      invariant n <= |anchors|
      invariant matched == Matched(f, min, Elems(anchors[..n]), ref)
      invariant shared == Evidence(f, min, Elems(anchors[..n]), ref)
    {
      var a := anchors[n];
      assert Elems(anchors[..n + 1]) == Elems(anchors[..n]) + {a} by { assert anchors[..n + 1] == anchors[..n] + [a]; }
      if |Shared(f, ref, a)| >= min {
        matched := matched + {a};
        shared := shared + Shared(f, ref, a);
      }
      n := n + 1;
    }
    assert anchors[..n] == anchors;
  }

  lemma NoFeaturesNoMatch(f: Features, min: nat, anchors: set<string>, ref: string)
    requires min >= 1 && f(ref) == {}
    ensures Matched(f, min, anchors, ref) == {}
  {
    forall a | a in anchors ensures !Matches(f, min, ref, a) { assert Shared(f, ref, a) == {}; }
  }

  /** The items of the candidates in the scope, in the order of their refs. */
  method LexicalExpand(f: Features, nodes: set<string>, anchorRefs: seq<string>, scopeRefs: Option<seq<string>>, min: int, max: int)
    returns (r: Option<seq<Item>>)
    ensures r.Some? <==>
      && anchorRefs != [] && Elems(anchorRefs) <= nodes
      && (scopeRefs.Some? ==> scopeRefs.value != [] && Elems(scopeRefs.value) <= nodes)
      && min >= 1 && max >= 1
    ensures r.Some? ==>
      var scope := if scopeRefs.Some? then Elems(scopeRefs.value) else nodes;
      && Refs(r.value) == Sorted(Candidates(f, min, Elems(anchorRefs), scope))
      && forall i :: 0 <= i < |r.value| ==> IsItem(f, min, max, Elems(anchorRefs), r.value[i])
  {
    if anchorRefs == [] || !(Elems(anchorRefs) <= nodes) {
      return None;
    }
    if scopeRefs.Some? && (scopeRefs.value == [] || !(Elems(scopeRefs.value) <= nodes)) {
      return None;
    }
    if min < 1 || max < 1 {
      return None;
    }
    var scope := Sorted(if scopeRefs.Some? then Elems(scopeRefs.value) else nodes);
    var items := ExpandScope(f, min, max, Sorted(Elems(anchorRefs)), scope);
    assert Elems(Sorted(Elems(anchorRefs))) == Elems(anchorRefs);
    assert Elems(scope) == if scopeRefs.Some? then Elems(scopeRefs.value) else nodes;
    r := Some(items);
  }

  /** The item of one ref, if it is a candidate. */
  method ExpandRef(f: Features, min: nat, max: nat, anchors: seq<string>, ref: string) returns (r: Option<Item>)
    requires min >= 1
    ensures r.Some? <==> IsCandidate(f, min, Elems(anchors), ref)
    ensures r.Some? ==> r.value.ref == ref && IsItem(f, min, max, Elems(anchors), r.value)
  {
    if ref in anchors {
      return None;
    }
    if f(ref) == {} {
      NoFeaturesNoMatch(f, min, Elems(anchors), ref);
      return None;
    }
    var matched, shared := MatchAnchors(f, min, anchors, ref);
    if matched == {} {
      return None;
    }
    r := Some(Item(ref, Sorted(matched), Take(Sorted(shared), max)));
  }

  method ExpandScope(f: Features, min: nat, max: nat, anchors: seq<string>, scope: seq<string>) returns (items: seq<Item>)
    requires min >= 1 && Ascending(scope)
    ensures Refs(items) == Sorted(Candidates(f, min, Elems(anchors), Elems(scope)))
    ensures forall i :: 0 <= i < |items| ==> IsItem(f, min, max, Elems(anchors), items[i])
  {
    ghost var all := Elems(anchors);
    items := [];
    var n := 0;
    while n < |scope|
      invariant n <= |scope|
      invariant Ascending(Refs(items))
      invariant forall x :: x in Refs(items) <==> x in scope[..n] && IsCandidate(f, min, all, x)
      invariant forall i :: 0 <= i < |items| ==> IsItem(f, min, max, all, items[i])
    {
      var ref := scope[n];
      assert scope[..n + 1] == scope[..n] + [ref];
      var x := ExpandRef(f, min, max, anchors, ref);
      if x.Some? {
        assert Refs(items + [x.value]) == Refs(items) + [ref];
        ExtendAscending(Refs(items), scope, n);
        items := items + [x.value];
      }
      n := n + 1;
    }
    assert scope[..n] == scope;
    SortedIs(Candidates(f, min, all, Elems(scope)), Refs(items));
  }

  lemma ExtendAscending(s: seq<string>, scope: seq<string>, n: nat)
    requires Ascending(s) && Ascending(scope) && n < |scope| && forall x :: x in s ==> x in scope[..n]
    ensures Ascending(s + [scope[n]])
  {
    var t := s + [scope[n]];
    forall i, j | 0 <= i < j < |t| ensures Precedes(t, i, j) {
      if j < |s| {
        assert Precedes(s, i, j);
      } else {
        assert s[i] in scope[..n];
        var k :| 0 <= k < n && scope[..n][k] == s[i];
        assert Precedes(scope, k, n);
      }
    }
  }

  /** The expansion of two anchor sets together: what either expands to, less the anchors. */
  lemma ExpansionOfUnion(f: Features, min: nat, a: set<string>, b: set<string>, scope: set<string>)
    ensures Candidates(f, min, a + b, scope) == Candidates(f, min, a, scope) + Candidates(f, min, b, scope) - (a + b)
  {
    forall ref ensures Matched(f, min, a + b, ref) == Matched(f, min, a, ref) + Matched(f, min, b, ref) { }
  }

  /** And the evidence is what either gives. */
  lemma EvidenceOfUnion(f: Features, min: nat, a: set<string>, b: set<string>, ref: string)
    ensures Matched(f, min, a + b, ref) == Matched(f, min, a, ref) + Matched(f, min, b, ref)
    ensures Evidence(f, min, a + b, ref) == Evidence(f, min, a, ref) + Evidence(f, min, b, ref)
  {
  }

  // ----- the envelope -------------------------------------------------------------------

  datatype Channel = Channel(name: string, networkId: string, anchors: seq<string>, candidates: seq<string>)

  datatype Presence = Presence(ref: string, channels: seq<string>)

  predicate KnownName(name: string) { name == "lexical_sparse" || name == "associative_sparse" }

  predicate GoodRefs(refs: seq<string>, nodes: set<string>) {
    NoRepeats(refs) && Elems(refs) <= nodes
  }

  predicate GoodChannel(c: Channel, nodes: set<string>, network: string) {
    && KnownName(c.name) && c.networkId == network
    && GoodRefs(c.anchors, nodes) && GoodRefs(c.candidates, nodes)
    && Elems(c.anchors) !! Elems(c.candidates)
  }

  function Normal(c: Channel): Channel {
    c.(anchors := Sorted(Elems(c.anchors)), candidates := Sorted(Elems(c.candidates)))
  }

  predicate NameLe(a: Channel, b: Channel) { Le(a.name, b.name) }

  function Normals(cs: seq<Channel>): (r: seq<Channel>)
    ensures |r| == |cs| && forall i :: 0 <= i < |cs| ==> r[i] == Normal(cs[i])
  {
    seq(|cs|, i requires 0 <= i < |cs| => Normal(cs[i]))
  }

  predicate UniqueNames(cs: seq<Channel>) {
    forall i, j :: 0 <= i < j < |cs| ==> cs[i].name != cs[j].name
  }

  function Naming(cs: seq<Channel>, ref: string): set<string> {
    set c | c in cs && ref in c.candidates :: c.name
  }

  function Mentioned(cs: seq<Channel>): set<string> {
    set c, ref | c in cs && ref in c.candidates :: ref
  }

  /** Each mentioned ref with the channels that mention it. */
  function ChannelPresence(cs: seq<Channel>): (r: seq<Presence>)
    ensures |r| == |Sorted(Mentioned(cs))|
    ensures forall i :: 0 <= i < |r| ==> r[i] == Presence(Sorted(Mentioned(cs))[i], Sorted(Naming(cs, Sorted(Mentioned(cs))[i])))
  {
    var refs := Sorted(Mentioned(cs));
    seq(|refs|, i requires 0 <= i < |refs| => Presence(refs[i], Sorted(Naming(cs, refs[i]))))
  }

  datatype Envelope = Envelope(channels: seq<Channel>, presence: seq<Presence>)

  predicate Composable(cs: seq<Channel>, nodes: set<string>, network: string) {
    UniqueNames(cs) && forall i :: 0 <= i < |cs| ==> GoodChannel(cs[i], nodes, network)
  }

  function Compose(cs: seq<Channel>, nodes: set<string>, network: string): Option<Envelope> {
    if Composable(cs, nodes, network) then
      var sorted := SortBy(Normals(cs), NameLe);
      Some(Envelope(sorted, ChannelPresence(sorted)))
    else None
  }

  /** The presence list is the inverse of membership: it says of a ref and a channel that the one
      is mentioned by the other exactly if that is so. */
  lemma PresenceExact(cs: seq<Channel>, ref: string, name: string)
    ensures (exists p {:trigger p in ChannelPresence(cs)} :: p in ChannelPresence(cs) && p.ref == ref && name in p.channels)
       <==> (exists c {:trigger c in cs} :: c in cs && c.name == name && ref in c.candidates)
  {
    var refs := Sorted(Mentioned(cs));
    var ps := ChannelPresence(cs);
    if exists c :: c in cs && c.name == name && ref in c.candidates {
      var c :| c in cs && c.name == name && ref in c.candidates;
      assert ref in Mentioned(cs);
      var i :| 0 <= i < |refs| && refs[i] == ref;
      assert name in Naming(cs, ref);
      assert ps[i] in ps && ps[i].ref == ref && name in ps[i].channels;
    }
    if exists p :: p in ps && p.ref == ref && name in p.channels {
      var p :| p in ps && p.ref == ref && name in p.channels;
      var i :| 0 <= i < |ps| && ps[i] == p;
      assert name in Naming(cs, ref);
    }
  }

  function Names(cs: seq<Channel>): (r: seq<string>)
    ensures |r| == |cs| && forall i :: 0 <= i < |cs| ==> r[i] == cs[i].name
  {
    seq(|cs|, i requires 0 <= i < |cs| => cs[i].name)
  }

  lemma NamesAscend(cs: seq<Channel>)
    requires UniqueNames(cs)
    ensures Ascending(Names(SortBy(cs, NameLe)))
  {
    var r := SortBy(cs, NameLe);
    NameOrder();
    SortByOrdered(cs, NameLe);
    UniqueSorted(cs);
    var ns := Names(r);
    forall i, j | 0 <= i < j < |ns| ensures Precedes(ns, i, j) { assert InOrder(r, NameLe, i, j); }
  }

  lemma NameOrder()
    ensures TotalPreorder(NameLe)
  {
    forall x: Channel, y: Channel ensures NameLe(x, y) || NameLe(y, x) { LeTotal(x.name, y.name); }
    forall x: Channel, y: Channel, z: Channel | NameLe(x, y) && NameLe(y, z) ensures NameLe(x, z) { LeTrans(x.name, y.name, z.name); }
  }

  lemma UniqueSorted(cs: seq<Channel>)
    requires UniqueNames(cs)
    ensures UniqueNames(SortBy(cs, NameLe))
  {
    UniqueUnder(cs, SortBy(cs, NameLe));
  }

  /** Reordering keeps names unique. */
  lemma UniqueUnder(cs: seq<Channel>, ds: seq<Channel>)
    requires UniqueNames(cs) && multiset(cs) == multiset(ds)
    ensures UniqueNames(ds)
  {
    SameElements(cs, ds);
    forall i, j | 0 <= i < j < |ds| ensures ds[i].name != ds[j].name {
      assert ds[i] in cs && ds[j] in cs;
      if ds[i] == ds[j] {
        CountAtLeastTwo(ds, i, j);
        CountAtMostOne(cs, ds[i]);
      }
    }
  }

  lemma NormalsHold(cs: seq<Channel>, x: Channel)
    ensures x in Normals(cs) <==> exists c {:trigger c in cs} :: c in cs && Normal(c) == x
  {
    if x in Normals(cs) {
      var i :| 0 <= i < |cs| && Normals(cs)[i] == x;
      assert cs[i] in cs;
    }
    if exists c :: c in cs && Normal(c) == x {
      var c :| c in cs && Normal(c) == x;
      var i :| 0 <= i < |cs| && cs[i] == c;
      assert Normals(cs)[i] == x;
    }
  }

  /** The channel at place `i` of the envelope is one of the channels, in normal form. */
  lemma SortedFrom(cs: seq<Channel>, i: nat) returns (c: Channel)
    requires i < |SortBy(Normals(cs), NameLe)|
    ensures c in cs && Normal(c) == SortBy(Normals(cs), NameLe)[i]
  {
    var r := SortBy(Normals(cs), NameLe);
    SameElements(r, Normals(cs));
    assert r[i] in Normals(cs);
    NormalsHold(cs, r[i]);
    c :| c in cs && Normal(c) == r[i];
  }

  lemma SortedHasName(cs: seq<Channel>, name: string)
    ensures name in Names(SortBy(Normals(cs), NameLe)) <==> exists c {:trigger c in cs} :: c in cs && c.name == name
  {
    var r := SortBy(Normals(cs), NameLe);
    SameElements(r, Normals(cs));
    if exists c :: c in cs && c.name == name {
      var c :| c in cs && c.name == name;
      NormalsHold(cs, Normal(c));
      assert Normal(c) in r;
      var i :| 0 <= i < |r| && r[i] == Normal(c);
      assert Names(r)[i] == name;
    }
    if name in Names(r) {
      var i :| 0 <= i < |r| && Names(r)[i] == name;
      var c := SortedFrom(cs, i);
    }
  }

  lemma OneByName(cs: seq<Channel>, c: Channel, d: Channel)
    requires UniqueNames(cs) && c in cs && d in cs && c.name == d.name
    ensures c == d
  {
    var i :| 0 <= i < |cs| && cs[i] == c;
    var j :| 0 <= j < |cs| && cs[j] == d;
    assert i == j;
  }

  /** Reordered channels are sorted to the same list. */
  lemma SortedAlike(cs: seq<Channel>, ds: seq<Channel>)
    requires UniqueNames(cs) && multiset(cs) == multiset(ds)
    ensures SortBy(Normals(cs), NameLe) == SortBy(Normals(ds), NameLe)
  {
    var a, b := SortBy(Normals(cs), NameLe), SortBy(Normals(ds), NameLe);
    SameElements(cs, ds);
    UniqueUnder(cs, ds);
    NamesAscend(Normals(cs));
    NamesAscend(Normals(ds));
    forall name ensures name in Names(a) <==> name in Names(b) {
      SortedHasName(cs, name);
      SortedHasName(ds, name);
    }
    AscendingUnique(Names(a), Names(b));
    forall i | 0 <= i < |a| ensures a[i] == b[i] {
      var c := SortedFrom(cs, i);
      var d := SortedFrom(ds, i);
      assert Names(a)[i] == Names(b)[i];
      OneByName(cs, c, d);
    }
  }

  /** The envelope does not depend on the order of the channels. */
  lemma EnvelopeOrderFree(cs: seq<Channel>, ds: seq<Channel>, nodes: set<string>, network: string)
    requires multiset(cs) == multiset(ds)
    ensures Compose(cs, nodes, network) == Compose(ds, nodes, network)
  {
    if Composable(cs, nodes, network) {
      ComposableAlike(cs, ds, nodes, network);
      SortedAlike(cs, ds);
    } else if Composable(ds, nodes, network) {
      ComposableAlike(ds, cs, nodes, network);
    }
  }

  lemma ComposableAlike(cs: seq<Channel>, ds: seq<Channel>, nodes: set<string>, network: string)
    requires multiset(cs) == multiset(ds) && Composable(cs, nodes, network)
    ensures Composable(ds, nodes, network)
  {
    SameElements(cs, ds);
    UniqueUnder(cs, ds);
    forall i | 0 <= i < |ds| ensures GoodChannel(ds[i], nodes, network) {
      assert ds[i] in cs;
      var j :| 0 <= j < |cs| && cs[j] == ds[i];
    }
  }

  function NamesAt(m: map<string, set<string>>, ref: string): set<string> {
    if ref in m then m[ref] else {}
  }

  method AddNames(m: map<string, set<string>>, refs: seq<string>, name: string) returns (r: map<string, set<string>>)
    ensures r.Keys == m.Keys + Elems(refs)
    ensures forall ref :: ref in r ==> r[ref] == NamesAt(m, ref) + if ref in refs then {name} else {}
  {
    r := m;
    var k := 0;
    while k < |refs|
      invariant k <= |refs| && r.Keys == m.Keys + Elems(refs[..k])
      invariant forall ref :: ref in r ==> r[ref] == NamesAt(m, ref) + if ref in refs[..k] then {name} else {}
    {
      assert refs[..k + 1] == refs[..k] + [refs[k]];
      r := r[refs[k] := NamesAt(r, refs[k]) + {name}];
      k := k + 1;
    }
    assert refs[..k] == refs;
  }

  lemma PresenceStep(cs: seq<Channel>, c: Channel, ref: string)
    ensures ref in Mentioned(cs + [c]) <==> ref in Mentioned(cs) || ref in c.candidates
    ensures Naming(cs + [c], ref) == Naming(cs, ref) + if ref in c.candidates then {c.name} else {}
    ensures ref !in Mentioned(cs) ==> Naming(cs, ref) == {}
  {
    assert c in cs + [c];
    assert forall x :: x in cs + [c] <==> x in cs || x == c;
  }

  /** The loop that fills the presence table. */
  method CollectPresence(cs: seq<Channel>) returns (m: map<string, set<string>>)
    ensures m.Keys == Mentioned(cs)
    ensures forall ref :: ref in m ==> m[ref] == Naming(cs, ref)
  {
    m := map[];
    var n := 0;
    while n < |cs|
      invariant n <= |cs| && m.Keys == Mentioned(cs[..n])
      invariant forall ref :: ref in m ==> m[ref] == Naming(cs[..n], ref)
    {
      assert cs[..n + 1] == cs[..n] + [cs[n]];
      m := AddNames(m, cs[n].candidates, cs[n].name);
      forall ref ensures ref in m <==> ref in Mentioned(cs[..n + 1])
                 ensures ref in m ==> m[ref] == Naming(cs[..n + 1], ref) {
        PresenceStep(cs[..n], cs[n], ref);
      }
      n := n + 1;
    }
    assert cs[..n] == cs;
  }
}
