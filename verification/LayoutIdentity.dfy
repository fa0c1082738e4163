/** Answers that encode the source layout, and what composing them gives. */
module LayoutIdentity {
  import opened Ordering
  import opened Graphs
  import opened LayoutBatches
  import opened LayoutComposition
  import opened LayoutAlgebra

  function SourceRows(cards: seq<Card>): (r: seq<Placed>)
    ensures |r| == |cards| && forall i :: 0 <= i < |cards| ==> r[i] == Placed(cards[i].id, Pos(cards[i].x, cards[i].y))
  {
    seq(|cards|, i requires 0 <= i < |cards| => Placed(cards[i].id, Pos(cards[i].x, cards[i].y)))
  }

  /** Where the source has its cards. */
  function Source(cards: seq<Card>): map<string, Pos> { Table(SourceRows(cards)) }

  function At(src: map<string, Pos>, c: string): Pos {
    if c in src then src[c] else Pos(0.0, 0.0)
  }

  function Sum(src: map<string, Pos>, ids: seq<string>): Pos {
    if ids == [] then Pos(0.0, 0.0) else Sum(src, ids[..|ids| - 1]).Plus(At(src, ids[|ids| - 1]))
  }

  function Centroid(src: map<string, Pos>, ids: seq<string>): Pos {
    if ids == [] then Pos(0.0, 0.0)
    else var s, n := Sum(src, ids), |ids| as real; Pos(s.x / n, s.y / n)
  }

  /** The offsets of a batch's cards around `a`. */
  function OffsetsAround(src: map<string, Pos>, ids: seq<string>, a: Pos): (r: seq<Placed>)
    ensures Ids(r) == ids
  {
    var r := seq(|ids|, i requires 0 <= i < |ids| => Placed(ids[i], At(src, ids[i]).Minus(a)));
    assert Ids(r) == ids;
    r
  }

  /** Each batch's anchor is the centroid of its cards. */
  function Middle(src: map<string, Pos>): Batch -> Pos {
    (b: Batch) => Centroid(src, b.cardIds)
  }

  function IdentityLocal(src: map<string, Pos>, anchor: Batch -> Pos, b: Batch): LocalResult {
    LocalResult(b.id, OffsetsAround(src, b.cardIds, anchor(b)))
  }

  function IdentityLocals(src: map<string, Pos>, anchor: Batch -> Pos, bs: seq<Batch>): Locals {
    if bs == [] then map[] else
      var n := |bs| - 1;
      IdentityLocals(src, anchor, bs[..n])[bs[n].id := IdentityLocal(src, anchor, bs[n])]
  }

  function IdentityGlobal(anchor: Batch -> Pos, bs: seq<Batch>): (r: seq<Placed>)
    ensures Ids(r) == BatchIdsOf(bs)
  {
    var r := seq(|bs|, i requires 0 <= i < |bs| => Placed(bs[i].id, anchor(bs[i])));
    assert Ids(r) == BatchIdsOf(bs);
    r
  }

  predicate Encodable(b: Batch, src: map<string, Pos>) {
    b.cardIds != [] && forall i :: 0 <= i < |b.cardIds| ==> b.cardIds[i] in src
  }

  method BuildIdentity(cards: seq<Card>, bs: seq<Batch>) returns (r: Result<(Locals, seq<Placed>)>)
    ensures r.Ok? <==> SourceOk(cards) && forall i :: 0 <= i < |bs| ==> Encodable(bs[i], Source(cards))
    ensures r.Ok? ==> r.value == (IdentityLocals(Source(cards), Middle(Source(cards)), bs), IdentityGlobal(Middle(Source(cards)), bs))
  {
    var ids := SourceIds(cards);
    if ids.Err? {
      return Err(ids.error);
    }
    var src := Source(cards);
    var anchor := Middle(src);
    var locals: Locals := map[];
    var global: seq<Placed> := [];
    var n := 0;
    while n < |bs|
      invariant n <= |bs|
      invariant locals == IdentityLocals(src, anchor, bs[..n])
      invariant global == IdentityGlobal(anchor, bs[..n])
      invariant forall i :: 0 <= i < n ==> Encodable(bs[i], src)
    {
      var b := bs[n];
      if b.cardIds == [] {
        return Err(EmptyBatch);
      }
      if !Encodable(b, src) {
        return Err(UnknownMember);
      }
      assert bs[..n + 1][..n] == bs[..n];
      locals := locals[b.id := IdentityLocal(src, anchor, b)];
      global := global + [Placed(b.id, anchor(b))];
      n := n + 1;
    }
    assert bs[..n] == bs;
    r := Ok((locals, global));
  }

  // ----- the round trip -----------------------------------------------------------------

  lemma {:induction false} LocalsAt(src: map<string, Pos>, anchor: Batch -> Pos, bs: seq<Batch>, i: nat)
    requires NoRepeats(BatchIdsOf(bs)) && i < |bs|
    ensures bs[i].id in IdentityLocals(src, anchor, bs) && IdentityLocals(src, anchor, bs)[bs[i].id] == IdentityLocal(src, anchor, bs[i])
  {
    var n := |bs| - 1;
    if i < n {
      assert BatchIdsOf(bs)[i] != BatchIdsOf(bs)[n];
      DistinctInit(bs);
      LocalsAt(src, anchor, bs[..n], i);
    }
  }

  lemma DistinctInit(bs: seq<Batch>)
    requires NoRepeats(BatchIdsOf(bs)) && bs != []
    ensures NoRepeats(BatchIdsOf(bs[..|bs| - 1]))
  {
    var ids := BatchIdsOf(bs);
    assert BatchIdsOf(bs[..|bs| - 1]) == ids[..|bs| - 1];
  }

  lemma {:induction false} LocalsKeys(src: map<string, Pos>, anchor: Batch -> Pos, bs: seq<Batch>, b: string)
    ensures b in IdentityLocals(src, anchor, bs) <==> b in BatchIdsOf(bs)
  {
    if bs != [] {
      var n := |bs| - 1;
      LocalsKeys(src, anchor, bs[..n], b);
      assert BatchIdsOf(bs) == BatchIdsOf(bs[..n]) + [bs[n].id];
    }
  }

  /** Rows that are the expected ids in order are an answer, if those are distinct. */
  lemma InOrderAnswers(rows: seq<Placed>, expected: seq<string>)
    requires Ids(rows) == expected && NoRepeats(expected)
    ensures Answers(rows, expected)
  {
    assert |rows| == |expected|;
    forall i | 0 <= i < |rows| ensures rows[i].id in expected { assert rows[i].id == Ids(rows)[i]; }
  }

  lemma DisjointBatch(bs: seq<Batch>, i: nat)
    requires Disjoint(bs) && i < |bs|
    ensures NoRepeats(bs[i].cardIds)
  {
    var ids, upTo := bs[i].cardIds, bs[..i + 1];
    assert upTo[..i] == bs[..i] && upTo[i] == bs[i];
    if !Disjoint(upTo) { NotDisjoint(bs, i + 1); }
    DisjointInit(upTo);
    forall j, k | 0 <= j < k < |ids| ensures ids[j] != ids[k] {
      if ids[j] == ids[k] { CountAtLeastTwo(ids, j, k); }
    }
  }

  lemma IdentityAnswered(src: map<string, Pos>, anchor: Batch -> Pos, bs: seq<Batch>, i: nat)
    requires NoRepeats(BatchIdsOf(bs)) && Disjoint(bs) && i < |bs|
    ensures Answered(bs[i], IdentityLocals(src, anchor, bs))
  {
    LocalsAt(src, anchor, bs, i);
    DisjointBatch(bs, i);
    InOrderAnswers(IdentityLocal(src, anchor, bs[i]).cards, bs[i].cardIds);
  }

  lemma IdentityConsistent(src: map<string, Pos>, anchor: Batch -> Pos, bs: seq<Batch>)
    requires NoRepeats(BatchIdsOf(bs)) && Disjoint(bs)
    ensures Consistent(bs, IdentityLocals(src, anchor, bs), IdentityGlobal(anchor, bs))
  {
    var locals := IdentityLocals(src, anchor, bs);
    forall i | 0 <= i < |bs| ensures Answered(bs[i], locals) { IdentityAnswered(src, anchor, bs, i); }
    InOrderAnswers(IdentityGlobal(anchor, bs), BatchIdsOf(bs));
    forall b ensures b in locals <==> b in Elems(BatchIdsOf(bs)) { LocalsKeys(src, anchor, bs, b); }
  }

  lemma AnchorAt(anchor: Batch -> Pos, bs: seq<Batch>, i: nat)
    requires NoRepeats(BatchIdsOf(bs)) && i < |bs|
    ensures LookUp(IdentityGlobal(anchor, bs), bs[i].id) == anchor(bs[i])
  {
    TableAt(IdentityGlobal(anchor, bs), i);
  }

  lemma OffsetAt(src: map<string, Pos>, ids: seq<string>, a: Pos, c: string)
    requires NoRepeats(ids) && c in ids
    ensures LookUp(OffsetsAround(src, ids, a), c) == At(src, c).Minus(a)
  {
    var k :| 0 <= k < |ids| && ids[k] == c;
    TableAt(OffsetsAround(src, ids, a), k);
  }

  /** Anchor plus offset is where the source has the card. */
  lemma IdentityPlace(src: map<string, Pos>, anchor: Batch -> Pos, bs: seq<Batch>, i: nat, c: string)
    requires NoRepeats(BatchIdsOf(bs)) && i < |bs| && NoRepeats(bs[i].cardIds) && c in bs[i].cardIds && c in src
    ensures PlaceOf(bs[i].id, IdentityLocals(src, anchor, bs), IdentityGlobal(anchor, bs), c) == src[c]
  {
    LocalsAt(src, anchor, bs, i);
    assert OffsetRows(IdentityLocals(src, anchor, bs), bs[i].id) == OffsetsAround(src, bs[i].cardIds, anchor(bs[i]));
    AnchorAt(anchor, bs, i);
    OffsetAt(src, bs[i].cardIds, anchor(bs[i]), c);
  }

  lemma IdentityCard(src: map<string, Pos>, anchor: Batch -> Pos, bs: seq<Batch>, c: string)
    requires NoRepeats(BatchIdsOf(bs)) && Disjoint(bs) && c in Total(bs) && c in src
    ensures var m := Composed(bs, IdentityLocals(src, anchor, bs), IdentityGlobal(anchor, bs)); c in m && m[c] == src[c]
  {
    var i := HolderAt(bs, c);
    PlacedAt(bs, IdentityLocals(src, anchor, bs), IdentityGlobal(anchor, bs), i, c);
    DisjointBatch(bs, i);
    IdentityPlace(src, anchor, bs, i, c);
  }

  lemma SourceKeys(cards: seq<Card>)
    ensures Source(cards).Keys == CardIds(cards)
  {
    var rows := SourceRows(cards);
    forall c ensures c in Source(cards) <==> c in CardIds(cards) {
      TableKeys(rows, c);
      if c in Ids(rows) {
        var i :| 0 <= i < |rows| && Ids(rows)[i] == c;
        assert cards[i] in cards && cards[i].id == c;
      }
      if c in CardIds(cards) {
        var x :| x in cards && x.id == c;
        var i :| 0 <= i < |cards| && cards[i] == x;
        assert Ids(rows)[i] == c;
      }
    }
  }

  lemma IdentityComposed(src: map<string, Pos>, anchor: Batch -> Pos, bs: seq<Batch>)
    requires NoRepeats(BatchIdsOf(bs)) && Disjoint(bs) && Covers(bs, src.Keys)
    ensures Composed(bs, IdentityLocals(src, anchor, bs), IdentityGlobal(anchor, bs)) == src
  {
    var m := Composed(bs, IdentityLocals(src, anchor, bs), IdentityGlobal(anchor, bs));
    CoversExactly(bs, IdentityLocals(src, anchor, bs), IdentityGlobal(anchor, bs), src.Keys);
    forall c | c in src ensures c in m && m[c] == src[c] { IdentityCard(src, anchor, bs, c); }
  }

  /** Composing the identity answers of a plan that partitions the cards gives the source layout,
      whatever the anchors are. */
  lemma IdentityRoundTrip(cards: seq<Card>, anchor: Batch -> Pos, bs: seq<Batch>)
    requires SourceOk(cards) && NoRepeats(BatchIdsOf(bs)) && Disjoint(bs) && Covers(bs, CardIds(cards))
    ensures var locals, global := IdentityLocals(Source(cards), anchor, bs), IdentityGlobal(anchor, bs);
            Accepts(cards, bs, locals, global) && Composed(bs, locals, global) == Source(cards)
  {
    SourceKeys(cards);
    IdentityConsistent(Source(cards), anchor, bs);
    IdentityComposed(Source(cards), anchor, bs);
  }

  lemma PlanDistinct(o: Ownership)
    requires Within(o)
    ensures NoRepeats(BatchIdsOf(Plan(o)))
  {
    var ids := BatchIds(o);
    AscendingDistinct(ids);
    forall i | 0 <= i < |ids| ensures BatchIdsOf(Plan(o))[i] == ids[i] {
      assert ids[i] in ids;
      assert Fits(o, ids[i]);
    }
  }

  /** For every document whose members can be owned and whose plan's batches are not empty: the
      identity answers to its plan can be built, and composing them gives the source layout. */
  lemma DocumentRoundTrip(doc: Document)
    requires SourceOk(doc.cards) && Ownable(doc) && IslandsKept(doc)
    requires forall i :: 0 <= i < |Plan(OwnershipOf(doc))| ==> Plan(OwnershipOf(doc))[i].cardIds != []
    ensures var bs, src := Plan(OwnershipOf(doc)), Source(doc.cards); var anchor := Middle(src);
            && (forall i :: 0 <= i < |bs| ==> Encodable(bs[i], src))
            && Accepts(doc.cards, bs, IdentityLocals(src, anchor, bs), IdentityGlobal(anchor, bs))
            && Composed(bs, IdentityLocals(src, anchor, bs), IdentityGlobal(anchor, bs)) == src
  {
    var bs := Plan(OwnershipOf(doc));
    OwnershipWithin(doc);
    PlanPartitions(doc);
    PlanDistinct(OwnershipOf(doc));
    PartitionFits(doc, bs);
    IdentityRoundTrip(doc.cards, Middle(Source(doc.cards)), bs);
  }

  lemma PartitionFits(doc: Document, bs: seq<Batch>)
    requires Partition(doc, bs)
    ensures Disjoint(bs) && Covers(bs, CardIds(doc.cards))
    ensures forall i, k :: 0 <= i < |bs| && 0 <= k < |bs[i].cardIds| ==> bs[i].cardIds[k] in Source(doc.cards)
  {
    forall c ensures Total(bs)[c] <= 1 && (c in Total(bs) <==> c in CardIds(doc.cards)) {
      assert Total(bs)[c] == if c in CardIds(doc.cards) then 1 else 0;
    }
    SourceKeys(doc.cards);
    forall i, k | 0 <= i < |bs| && 0 <= k < |bs[i].cardIds| ensures bs[i].cardIds[k] in Source(doc.cards) {
      DisjointIn(bs, i, bs[i].cardIds[k]);
    }
  }
}
