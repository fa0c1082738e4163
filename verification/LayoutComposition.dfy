/** Putting local offsets and global anchors together into one layout. */
module LayoutComposition {
  import opened Folding
  import opened Ordering
  import opened Graphs
  import opened LayoutBatches

  datatype Pos = Pos(x: real, y: real)
  {
    function Plus(p: Pos): Pos { Pos(x + p.x, y + p.y) }
    function Minus(p: Pos): Pos { Pos(x - p.x, y - p.y) }
  }

  /** A row of a stage's answer: a card with its offset, or a batch with its anchor. */
  datatype Placed = Placed(id: string, at: Pos)

  datatype LocalResult = LocalResult(batchId: string, cards: seq<Placed>)

  type Locals = map<string, LocalResult>

  // ----- reading the answer of a stage --------------------------------------------------

  function Ids(rows: seq<Placed>): (r: seq<string>)
    ensures |r| == |rows| && forall i :: 0 <= i < |rows| ==> r[i] == rows[i].id
  {
    seq(|rows|, i requires 0 <= i < |rows| => rows[i].id)
  }

  function Table(rows: seq<Placed>): map<string, Pos> {
    if rows == [] then map[] else
      var n := |rows| - 1;
      Table(rows[..n])[rows[n].id := rows[n].at]
  }

  lemma {:induction false} TableKeys(rows: seq<Placed>, id: string)
    ensures id in Table(rows) <==> id in Ids(rows)
  {
    if rows != [] {
      var n := |rows| - 1;
      TableKeys(rows[..n], id);
      assert Ids(rows) == Ids(rows[..n]) + [rows[n].id];
    }
  }

  lemma {:induction false} TableAt(rows: seq<Placed>, i: nat)
    requires NoRepeats(Ids(rows)) && i < |rows|
    ensures rows[i].id in Table(rows) && Table(rows)[rows[i].id] == rows[i].at
  {
    var n := |rows| - 1;
    if i < n {
      assert Ids(rows)[i] != Ids(rows)[n];
      assert NoRepeats(Ids(rows[..n])) by {
        forall j, k | 0 <= j < k < n ensures Ids(rows[..n])[j] != Ids(rows[..n])[k] {
          assert Ids(rows)[j] != Ids(rows)[k];
        }
      }
      TableAt(rows[..n], i);
    }
  }

  /** Not more and not fewer rows than expected, none unknown and none twice. */
  predicate Answers(rows: seq<Placed>, expected: seq<string>) {
    && |rows| == |expected|
    && NoRepeats(Ids(rows))
    && forall i :: 0 <= i < |rows| ==> rows[i].id in expected
  }

  lemma {:induction false} ElemsFit(s: seq<string>)
    ensures |Elems(s)| <= |s|
    ensures |Elems(s)| == |s| ==> NoRepeats(s)
  {
    if s != [] {
      var t := s[1..];
      ElemsFit(t);
      assert Elems(s) == {s[0]} + Elems(t);
      if |Elems(s)| == |s| {
        assert s[0] !in Elems(t);
        forall i, j | 0 <= i < j < |s| ensures s[i] != s[j] {
          if i == 0 {
            assert s[j] == t[j - 1] && s[j] in Elems(t);
          } else {
            assert s[i] == t[i - 1] && s[j] == t[j - 1];
          }
        }
      }
    }
  }

  /** The pigeonhole: such rows cover what is expected, so a check for coverage cannot fail. */
  lemma CoverageForced(rows: seq<Placed>, expected: seq<string>)
    requires Answers(rows, expected)
    ensures Elems(Ids(rows)) == Elems(expected) && NoRepeats(expected)
  {
    var got := Ids(rows);
    NoRepeatsCard(got);
    ElemsFit(expected);
    assert Elems(got) <= Elems(expected);
    SubsetSameSize(Elems(got), Elems(expected));
  }

  lemma SubsetSameSize(a: set<string>, b: set<string>)
    requires a <= b && |a| >= |b|
    ensures a == b
  {
    assert b == a + (b - a);
    assert |b| == |a| + |b - a|;
  }

  /** An answer is accepted exactly if it is a duplicate-free reordering of what is expected. */
  lemma AnswersExactly(rows: seq<Placed>, expected: seq<string>)
    ensures Answers(rows, expected) <==> NoRepeats(Ids(rows)) && multiset(Ids(rows)) == multiset(expected)
  {
    var got := Ids(rows);
    if Answers(rows, expected) {
      CoverageForced(rows, expected);
      forall x ensures multiset(got)[x] == multiset(expected)[x] {
        CountAtMostOne(got, x);
        CountAtMostOne(expected, x);
        assert x in got <==> x in Elems(got);
        assert x in expected <==> x in Elems(expected);
      }
    } else if multiset(got) == multiset(expected) {
      SameElements(got, expected);
    }
  }

  method ParseRows(rows: seq<Placed>, expected: seq<string>) returns (r: Result<map<string, Pos>>)
    ensures r.Ok? <==> Answers(rows, expected)
    ensures r.Ok? ==> r.value == Table(rows)
  {
    if |rows| != |expected| {
      return Err(WrongLength);
    }
    var parsed: map<string, Pos> := map[];
    var n := 0;
    while n < |rows|
      invariant n <= |rows|
      invariant parsed == Table(rows[..n])
      invariant NoRepeats(Ids(rows[..n]))
      invariant forall i :: 0 <= i < n ==> rows[i].id in expected
    {
      if rows[n].id !in expected {
        return Err(UnknownRow);
      }
      TableKeys(rows[..n], rows[n].id);
      IdsStep(rows, n);
      if rows[n].id in parsed {
        RepeatSpoils(rows, n);
        return Err(DuplicateRow);
      }
      assert rows[..n + 1][..n] == rows[..n];
      parsed := parsed[rows[n].id := rows[n].at];
      n := n + 1;
    }
    assert rows[..n] == rows;
    CoverageForced(rows, expected);
    r := Ok(parsed);
  }

  lemma IdsStep(rows: seq<Placed>, n: nat)
    requires n < |rows|
    ensures Ids(rows[..n + 1]) == Ids(rows[..n]) + [rows[n].id]
  {
  }

  lemma RepeatSpoils(rows: seq<Placed>, n: nat)
    requires n < |rows| && rows[n].id in Ids(rows[..n])
    ensures !NoRepeats(Ids(rows))
  {
    var i :| 0 <= i < n && Ids(rows[..n])[i] == rows[n].id;
    assert Ids(rows)[i] == Ids(rows)[n];
  }

  method ParseLocal(raw: LocalResult, b: Batch) returns (r: Result<map<string, Pos>>)
    ensures r.Ok? <==> raw.batchId == b.id && Answers(raw.cards, b.cardIds)
    ensures r.Ok? ==> r.value == Table(raw.cards) && r.value.Keys == Elems(b.cardIds)
  {
    if raw.batchId != b.id {
      return Err(WrongBatchId);
    }
    r := ParseRows(raw.cards, b.cardIds);
    if r.Ok? {
      CoverageForced(raw.cards, b.cardIds);
      forall id ensures id in Table(raw.cards) <==> id in Elems(b.cardIds) {
        TableKeys(raw.cards, id);
        assert id in Ids(raw.cards) <==> id in Elems(Ids(raw.cards));
      }
    }
  }

  function BatchIdsOf(bs: seq<Batch>): (r: seq<string>)
    ensures |r| == |bs| && forall i :: 0 <= i < |bs| ==> r[i] == bs[i].id
  {
    seq(|bs|, i requires 0 <= i < |bs| => bs[i].id)
  }

  method ParseGlobal(raw: seq<Placed>, bs: seq<Batch>) returns (r: Result<map<string, Pos>>)
    ensures r.Ok? <==> Answers(raw, BatchIdsOf(bs))
    ensures r.Ok? ==> r.value == Table(raw) && r.value.Keys == Elems(BatchIdsOf(bs))
  {
    var expected := BatchIdsOf(bs);
    r := ParseRows(raw, expected);
    if r.Ok? {
      CoverageForced(raw, expected);
      forall id ensures id in Table(raw) <==> id in Elems(expected) {
        TableKeys(raw, id);
        assert id in Ids(raw) <==> id in Elems(Ids(raw));
      }
    }
  }

  // ----- composition --------------------------------------------------------------------

  predicate SourceOk(cards: seq<Card>) {
    && (forall i :: 0 <= i < |cards| ==> cards[i].id != "")
    && (forall i, j :: 0 <= i < j < |cards| ==> cards[i].id != cards[j].id)
  }

  function LookUp(rows: seq<Placed>, id: string): Pos {
    if id in Table(rows) then Table(rows)[id] else Pos(0.0, 0.0)
  }

  function OffsetRows(locals: Locals, b: string): seq<Placed> {
    if b in locals then locals[b].cards else []
  }

  /** A card's place is its batch's anchor plus its offset. */
  function PlaceOf(b: string, locals: Locals, global: seq<Placed>, c: string): Pos {
    LookUp(global, b).Plus(LookUp(OffsetRows(locals, b), c))
  }

  function Layer(b: Batch, locals: Locals, global: seq<Placed>, cards: seq<string>): map<string, Pos> {
    map c | c in cards :: PlaceOf(b.id, locals, global, c)
  }

  function Composed(bs: seq<Batch>, locals: Locals, global: seq<Placed>): map<string, Pos> {
    if bs == [] then map[] else
      var n := |bs| - 1;
      Composed(bs[..n], locals, global) + Layer(bs[n], locals, global, bs[n].cardIds)
  }

  predicate Answered(b: Batch, locals: Locals) {
    b.id in locals && locals[b.id].batchId == b.id && Answers(locals[b.id].cards, b.cardIds)
  }

  predicate AllAnswered(bs: seq<Batch>, locals: Locals) {
    forall i {:trigger Answered(bs[i], locals)} :: 0 <= i < |bs| ==> Answered(bs[i], locals)
  }

  predicate Consistent(bs: seq<Batch>, locals: Locals, global: seq<Placed>) {
    && locals.Keys == Elems(BatchIdsOf(bs))
    && Answers(global, BatchIdsOf(bs))
    && AllAnswered(bs, locals)
  }

  /** What the composition demands of the stages' answers, the plan and the document. */
  ghost predicate Accepts(cards: seq<Card>, bs: seq<Batch>, locals: Locals, global: seq<Placed>) {
    && Consistent(bs, locals, global)
    && SourceOk(cards)
    && Disjoint(bs)
    && Covers(bs, CardIds(cards))
  }

  ghost predicate Covers(bs: seq<Batch>, ids: set<string>) {
    forall c :: c in Total(bs) <==> c in ids
  }

  function Listing(m: map<string, Pos>): seq<Placed> {
    var ids := Sorted(m.Keys);
    seq(|ids|, i requires 0 <= i < |ids| => Placed(ids[i], m[ids[i]]))
  }

  lemma {:induction false} ComposedKeys(bs: seq<Batch>, locals: Locals, global: seq<Placed>, c: string)
    ensures c in Composed(bs, locals, global) <==> c in Total(bs)
  {
    if bs != [] { ComposedKeys(bs[..|bs| - 1], locals, global, c); }
  }

  function Placements(anchor: Pos, offsets: map<string, Pos>, cards: seq<string>): map<string, Pos> {
    map c | c in cards && c in offsets :: anchor.Plus(offsets[c])
  }

  lemma PlacementsStep(m: map<string, Pos>, anchor: Pos, offsets: map<string, Pos>, cards: seq<string>, k: nat)
    requires k < |cards| && cards[k] in offsets
    ensures m + Placements(anchor, offsets, cards[..k + 1])
         == (m + Placements(anchor, offsets, cards[..k]))[cards[k] := anchor.Plus(offsets[cards[k]])]
  {
    assert cards[..k + 1] == cards[..k] + [cards[k]];
  }

  lemma PlacementsNew(m: map<string, Pos>, anchor: Pos, offsets: map<string, Pos>, cards: seq<string>, k: nat)
    requires k < |cards| && NoRepeats(cards)
    ensures cards[k] in m + Placements(anchor, offsets, cards[..k]) <==> cards[k] in m
  {
    assert cards[k] !in cards[..k];
  }

  /** A batch's cards are placed, unless one already has a place. */
  method ComposeBatch(composed: map<string, Pos>, anchor: Pos, offsets: map<string, Pos>, cards: seq<string>)
    returns (r: Result<map<string, Pos>>)
    requires NoRepeats(cards) && Elems(cards) <= offsets.Keys
    ensures r.Ok? <==> Elems(cards) !! composed.Keys
    ensures r.Ok? ==> r.value == composed + Placements(anchor, offsets, cards)
  {
    var m := composed;
    var k := 0;
    assert composed + Placements(anchor, offsets, cards[..0]) == composed;
    while k < |cards|
      invariant k <= |cards|
      invariant m == composed + Placements(anchor, offsets, cards[..k])
      invariant Elems(cards[..k]) !! composed.Keys
    {
      var c := cards[k];
      assert c in Elems(cards);
      assert Elems(cards[..k + 1]) == Elems(cards[..k]) + {c} by { assert cards[..k + 1] == cards[..k] + [c]; }
      PlacementsNew(composed, anchor, offsets, cards, k);
      if c in m {
        return Err(CardTwice);
      }
      PlacementsStep(composed, anchor, offsets, cards, k);
      m := m[c := anchor.Plus(offsets[c])];
      k := k + 1;
    }
    assert cards[..k] == cards;
    r := Ok(m);
  }

  lemma LayerIs(b: Batch, locals: Locals, global: seq<Placed>)
    requires Answered(b, locals) && b.id in Table(global)
    ensures Layer(b, locals, global, b.cardIds) == Placements(Table(global)[b.id], Table(locals[b.id].cards), b.cardIds)
  {
    var rows := locals[b.id].cards;
    CoverageForced(rows, b.cardIds);
    forall c | c in b.cardIds ensures c in Table(rows) {
      assert c in Elems(b.cardIds);
      TableKeys(rows, c);
    }
  }

  /** The next batch's cards are new exactly if the batches stay disjoint. */
  lemma DisjointStep(bs: seq<Batch>, b: Batch)
    requires Disjoint(bs) && NoRepeats(b.cardIds)
    ensures Disjoint(bs + [b]) <==> forall c :: c in Elems(b.cardIds) ==> c !in Total(bs)
  {
    TotalStep(bs, b);
    if forall c :: c in Elems(b.cardIds) ==> c !in Total(bs) {
      forall c ensures Total(bs + [b])[c] <= 1 {
        assert Total(bs)[c] <= 1;
        CountAtMostOne(b.cardIds, c);
        assert c in b.cardIds <==> c in multiset(b.cardIds);
      }
    } else {
      var c :| c in Elems(b.cardIds) && c in Total(bs);
      assert c in multiset(b.cardIds);
      assert Total(bs + [b])[c] >= 2;
    }
  }

  lemma NotDisjoint(bs: seq<Batch>, n: nat)
    requires n <= |bs| && !Disjoint(bs[..n])
    ensures !Disjoint(bs)
  {
    var c :| Total(bs[..n])[c] > 1;
    TotalGrows(bs, n, c);
  }

  lemma AnsweredStep(bs: seq<Batch>, b: Batch, locals: Locals)
    ensures AllAnswered(bs + [b], locals) <==> AllAnswered(bs, locals) && Answered(b, locals)
  {
    var next := bs + [b];
    assert next[|bs|] == b && forall i :: 0 <= i < |bs| ==> next[i] == bs[i];
    if AllAnswered(next, locals) {
      assert Answered(next[|bs|], locals);
      forall i | 0 <= i < |bs| ensures Answered(bs[i], locals) { assert Answered(next[i], locals); }
    }
  }

  // The two outcomes of the loop over the batches show their bodies only where `Unfold` is
  // mentioned.

  ghost predicate Usable(bs: seq<Batch>, locals: Locals) {
    forall u {:trigger Unfold(u)} :: Unfold(u) ==> AllAnswered(bs, locals) && Disjoint(bs)
  }

  ghost predicate Reached(bs: seq<Batch>, locals: Locals, global: seq<Placed>, m: map<string, Pos>) {
    forall u {:trigger Unfold(u)} :: Unfold(u) ==> m == Composed(bs, locals, global)
  }

  lemma UsableInit(bs: seq<Batch>, n: nat, locals: Locals)
    requires n <= |bs| && Usable(bs, locals)
    ensures Usable(bs[..n], locals)
  {
    assert Unfold(true);
    if !Disjoint(bs[..n]) { NotDisjoint(bs, n); }
    forall i | 0 <= i < n ensures Answered(bs[..n][i], locals) { assert Answered(bs[i], locals); }
  }

  /** One batch: its local answer is read and its cards are placed. */
  method ComposeNext(ghost before: seq<Batch>, m: map<string, Pos>, b: Batch, locals: Locals, ghost global: seq<Placed>, anchors: map<string, Pos>)
    returns (r: Result<map<string, Pos>>)
    requires Reached(before, locals, global, m) && Usable(before, locals)
    requires anchors == Table(global) && b.id in anchors && b.id in locals
    ensures r.Ok? <==> Usable(before + [b], locals)
    ensures r.Ok? ==> Reached(before + [b], locals, global, r.value)
  {
    assert Unfold(true);
    AnsweredStep(before, b, locals);
    var offsets := ParseLocal(locals[b.id], b);
    if offsets.Err? {
      return Err(offsets.error);
    }
    CoverageForced(locals[b.id].cards, b.cardIds);
    r := ComposeBatch(m, anchors[b.id], offsets.value, b.cardIds);
    DisjointStep(before, b);
    forall c ensures c in m <==> c in Total(before) { ComposedKeys(before, locals, global, c); }
    LayerIs(b, locals, global);
    assert (before + [b])[..|before|] == before;
  }

  method ComposeBatches(bs: seq<Batch>, locals: Locals, ghost global: seq<Placed>, anchors: map<string, Pos>)
    returns (r: Result<map<string, Pos>>)
    requires anchors == Table(global) && forall i :: 0 <= i < |bs| ==> bs[i].id in anchors && bs[i].id in locals
    ensures r.Ok? <==> Usable(bs, locals)
    ensures r.Ok? ==> Reached(bs, locals, global, r.value)
  {
    r := Ok(map[]);
    var n := 0;
    while n < |bs|
      invariant n <= |bs|
      invariant r.Ok? && Reached(bs[..n], locals, global, r.value) && Usable(bs[..n], locals)
    {
      assert bs[..n + 1] == bs[..n] + [bs[n]];
      r := ComposeNext(bs[..n], r.value, bs[n], locals, global, anchors);
      if r.Err? {
        if Usable(bs, locals) { UsableInit(bs, n + 1, locals); }
        return;
      }
      n := n + 1;
    }
    assert bs[..n] == bs;
  }

  method SourceIds(cards: seq<Card>) returns (r: Result<set<string>>)
    ensures r.Ok? <==> SourceOk(cards)
    ensures r.Ok? ==> r.value == CardIds(cards)
  {
    var ids: set<string> := {};
    var n := 0;
    while n < |cards|
      invariant n <= |cards|
      invariant ids == CardIds(cards[..n])
      invariant SourceOk(cards[..n])
    {
      var c := cards[n];
      if c.id == "" {
        return Err(BadSourceId);
      }
      if c.id in ids {
        return Err(DuplicateSourceId);
      }
      assert cards[..n + 1] == cards[..n] + [c];
      ids := ids + {c.id};
      n := n + 1;
    }
    assert cards[..n] == cards;
    r := Ok(ids);
  }

  lemma BatchesListed(bs: seq<Batch>)
    ensures forall i :: 0 <= i < |bs| ==> bs[i].id in Elems(BatchIdsOf(bs))
  {
    forall i | 0 <= i < |bs| ensures bs[i].id in Elems(BatchIdsOf(bs)) {
      assert BatchIdsOf(bs)[i] in BatchIdsOf(bs);
    }
  }

  lemma CoversExactly(bs: seq<Batch>, locals: Locals, global: seq<Placed>, ids: set<string>)
    ensures Composed(bs, locals, global).Keys == ids <==> Covers(bs, ids)
  {
    forall c ensures c in Composed(bs, locals, global) <==> c in Total(bs) { ComposedKeys(bs, locals, global, c); }
  }

  /** Local offsets and global anchors are composed, or the answers are refused. */
  method Compose(cards: seq<Card>, bs: seq<Batch>, locals: Locals, global: seq<Placed>) returns (r: Result<seq<Placed>>)
    ensures r.Ok? <==> Accepts(cards, bs, locals, global)
    ensures r.Ok? ==> r.value == Listing(Composed(bs, locals, global))
  {
    var expected := Elems(BatchIdsOf(bs));
    if locals.Keys != expected {
      return Err(WrongBatches);
    }
    var anchors := ParseGlobal(global, bs);
    if anchors.Err? {
      return Err(anchors.error);
    }
    var ids := SourceIds(cards);
    if ids.Err? {
      return Err(ids.error);
    }
    BatchesListed(bs);
    var m := ComposeBatches(bs, locals, global, anchors.value);
    assert Unfold(true);
    if m.Err? {
      return Err(m.error);
    }
    CoversExactly(bs, locals, global, ids.value);
    if m.value.Keys != ids.value {
      return Err(NotCovered);
    }
    r := Ok(Listing(m.value));
  }
}
