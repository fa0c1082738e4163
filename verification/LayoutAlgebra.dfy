/** What composing a layout keeps and moves. */
module LayoutAlgebra {
  import opened Ordering
  import opened Graphs
  import opened LayoutBatches
  import opened LayoutComposition

  // ----- where a card goes --------------------------------------------------------------

  lemma DisjointIn(bs: seq<Batch>, i: nat, c: string)
    requires i < |bs| && c in bs[i].cardIds
    ensures c in Total(bs)
  {
    assert bs[..i + 1] == bs[..i] + [bs[i]];
    TotalStep(bs[..i], bs[i]);
    assert c in multiset(bs[i].cardIds);
    TotalGrows(bs, i + 1, c);
  }

  lemma LaterApart(bs: seq<Batch>, i: nat, j: nat, c: string)
    requires Disjoint(bs) && i < j < |bs| && c in bs[i].cardIds
    ensures c !in bs[j].cardIds
  {
    var upTo := bs[..j + 1];
    assert upTo[..j] == bs[..j] && upTo[j] == bs[j];
    if !Disjoint(upTo) { NotDisjoint(bs, j + 1); }
    DisjointInit(upTo);
    DisjointIn(bs[..j], i, c);
  }

  lemma ComposedStep(bs: seq<Batch>, locals: Locals, global: seq<Placed>, c: string)
    requires bs != []
    ensures var b, m := bs[|bs| - 1], Composed(bs[..|bs| - 1], locals, global); var all := Composed(bs, locals, global);
            && (c in b.cardIds ==> c in all && all[c] == PlaceOf(b.id, locals, global, c))
            && (c !in b.cardIds ==> (c in all <==> c in m) && (c in m ==> all[c] == m[c]))
  {
  }

  /** The last batch that holds a card. */
  ghost function HolderAt(bs: seq<Batch>, c: string): (i: nat)
    requires c in Total(bs)
    ensures i < |bs| && c in bs[i].cardIds
  {
    var n := |bs| - 1;
    if c in bs[n].cardIds then n
    else
      assert c !in multiset(bs[n].cardIds);
      HolderAt(bs[..n], c)
  }

  lemma {:induction false} PlacedByHolder(bs: seq<Batch>, locals: Locals, global: seq<Placed>, c: string)
    requires c in Total(bs)
    ensures c in Composed(bs, locals, global)
    ensures Composed(bs, locals, global)[c] == PlaceOf(bs[HolderAt(bs, c)].id, locals, global, c)
  {
    var n := |bs| - 1;
    ComposedStep(bs, locals, global, c);
    if c !in bs[n].cardIds {
      assert c !in multiset(bs[n].cardIds);
      PlacedByHolder(bs[..n], locals, global, c);
    }
  }

  ghost function HolderIndex(bs: seq<Batch>, i: nat, c: string): (j: nat)
    requires i < |bs| && c in bs[i].cardIds
    ensures c in Total(bs) && j == HolderAt(bs, c) && j < |bs| && c in bs[j].cardIds
  {
    DisjointIn(bs, i, c);
    HolderAt(bs, c)
  }

  lemma OneHolder(bs: seq<Batch>, i: nat, j: nat, c: string)
    requires Disjoint(bs) && i < |bs| && j < |bs| && c in bs[i].cardIds && c in bs[j].cardIds
    ensures i == j
  {
    if i < j { LaterApart(bs, i, j, c); } else if j < i { LaterApart(bs, j, i, c); }
  }

  /** Every card is at its batch's anchor plus its offset. */
  lemma PlacedAt(bs: seq<Batch>, locals: Locals, global: seq<Placed>, i: nat, c: string)
    requires Disjoint(bs) && i < |bs| && c in bs[i].cardIds
    ensures c in Composed(bs, locals, global)
    ensures Composed(bs, locals, global)[c] == PlaceOf(bs[i].id, locals, global, c)
  {
    OneHolder(bs, i, HolderIndex(bs, i, c), c);
    PlacedByHolder(bs, locals, global, c);
  }

  /** An accepted composition lists every source card exactly once, in the order of the ids. */
  lemma EachCardOnce(cards: seq<Card>, bs: seq<Batch>, locals: Locals, global: seq<Placed>)
    requires Accepts(cards, bs, locals, global)
    ensures Ids(Listing(Composed(bs, locals, global))) == Sorted(CardIds(cards))
  {
    CoversExactly(bs, locals, global, CardIds(cards));
  }

  // ----- shifting all anchors -----------------------------------------------------------

  function Shift(rows: seq<Placed>, d: Pos): seq<Placed> {
    seq(|rows|, i requires 0 <= i < |rows| => Placed(rows[i].id, rows[i].at.Plus(d)))
  }

  lemma SameAnswers(rows: seq<Placed>, others: seq<Placed>, expected: seq<string>)
    requires Ids(rows) == Ids(others)
    ensures Answers(rows, expected) <==> Answers(others, expected)
  {
    assert forall i :: 0 <= i < |rows| ==> rows[i].id == Ids(rows)[i] && others[i].id == Ids(others)[i];
  }

  lemma {:induction false} ShiftTable(rows: seq<Placed>, d: Pos, id: string)
    ensures id in Table(Shift(rows, d)) <==> id in Table(rows)
    ensures id in Table(rows) ==> Table(Shift(rows, d))[id] == Table(rows)[id].Plus(d)
  {
    if rows != [] {
      var n := |rows| - 1;
      ShiftTable(rows[..n], d, id);
      assert Shift(rows, d)[..n] == Shift(rows[..n], d);
    }
  }

  lemma ShiftAccepted(cards: seq<Card>, bs: seq<Batch>, locals: Locals, global: seq<Placed>, d: Pos)
    ensures Accepts(cards, bs, locals, Shift(global, d)) <==> Accepts(cards, bs, locals, global)
  {
    assert Ids(Shift(global, d)) == Ids(global);
    SameAnswers(global, Shift(global, d), BatchIdsOf(bs));
  }

  /** If a composition is accepted, so is the one with all anchors shifted, and in it every card
      is shifted alike. */
  lemma ShiftMovesAll(cards: seq<Card>, bs: seq<Batch>, locals: Locals, global: seq<Placed>, d: Pos, c: string)
    requires Accepts(cards, bs, locals, global) && c in CardIds(cards)
    ensures Accepts(cards, bs, locals, Shift(global, d))
    ensures c in Composed(bs, locals, global) && c in Composed(bs, locals, Shift(global, d))
    ensures Composed(bs, locals, Shift(global, d))[c] == Composed(bs, locals, global)[c].Plus(d)
  {
    ShiftAccepted(cards, bs, locals, global, d);
    var i := HolderAt(bs, c);
    PlacedAt(bs, locals, global, i, c);
    PlacedAt(bs, locals, Shift(global, d), i, c);
    AnchorKnown(bs, global, i);
    ShiftTable(global, d, bs[i].id);
  }

  lemma AnchorKnown(bs: seq<Batch>, global: seq<Placed>, i: nat)
    requires Answers(global, BatchIdsOf(bs)) && i < |bs|
    ensures bs[i].id in Table(global)
  {
    CoverageForced(global, BatchIdsOf(bs));
    BatchesListed(bs);
    TableKeys(global, bs[i].id);
    assert bs[i].id in Elems(Ids(global));
  }

  // ----- moving one card ----------------------------------------------------------------

  function Moved(rows: seq<Placed>, c: string, p: Pos): seq<Placed> {
    seq(|rows|, i requires 0 <= i < |rows| => if rows[i].id == c then Placed(c, p) else rows[i])
  }

  lemma {:induction false} MovedTable(rows: seq<Placed>, c: string, p: Pos, id: string)
    ensures id in Table(Moved(rows, c, p)) <==> id in Table(rows)
    ensures id in Table(rows) ==> Table(Moved(rows, c, p))[id] == if id == c then p else Table(rows)[id]
  {
    if rows != [] {
      var n := |rows| - 1;
      MovedTable(rows[..n], c, p, id);
      assert Moved(rows, c, p)[..n] == Moved(rows[..n], c, p);
    }
  }

  /** The answers with the offset of card `c` in batch `b` replaced. */
  function MoveCard(locals: Locals, b: string, c: string, p: Pos): Locals
    requires b in locals
  {
    locals[b := LocalResult(locals[b].batchId, Moved(locals[b].cards, c, p))]
  }

  lemma MoveAnswered(b: Batch, locals: Locals, at: string, c: string, p: Pos)
    requires at in locals
    ensures Answered(b, MoveCard(locals, at, c, p)) <==> Answered(b, locals)
  {
    if b.id == at {
      var rows := locals[at].cards;
      assert Ids(Moved(rows, c, p)) == Ids(rows);
      SameAnswers(rows, Moved(rows, c, p), b.cardIds);
    }
  }

  lemma MoveAccepted(cards: seq<Card>, bs: seq<Batch>, locals: Locals, global: seq<Placed>, b: string, c: string, p: Pos)
    requires Accepts(cards, bs, locals, global) && b in locals
    ensures Accepts(cards, bs, MoveCard(locals, b, c, p), global)
  {
    var moved := MoveCard(locals, b, c, p);
    forall i | 0 <= i < |bs| ensures Answered(bs[i], moved) {
      assert Answered(bs[i], locals);
      MoveAnswered(bs[i], locals, b, c, p);
    }
    assert moved.Keys == locals.Keys;
  }

  lemma LookUpMoved(locals: Locals, at: string, b: string, c: string, p: Pos, x: string)
    requires b in locals && (x != c || at != b)
    ensures LookUp(OffsetRows(MoveCard(locals, b, c, p), at), x) == LookUp(OffsetRows(locals, at), x)
  {
    MovedTable(locals[b].cards, c, p, x);
  }

  /** Another offset for one card is accepted, moves that card there and leaves all others. */
  lemma OneOffsetMovesOne(cards: seq<Card>, bs: seq<Batch>, locals: Locals, global: seq<Placed>, i: nat, c: string, p: Pos, x: string)
    requires Accepts(cards, bs, locals, global) && i < |bs| && c in bs[i].cardIds && x in CardIds(cards)
    ensures bs[i].id in locals
    ensures var moved := MoveCard(locals, bs[i].id, c, p);
            && Accepts(cards, bs, moved, global)
            && x in Composed(bs, locals, global) && x in Composed(bs, moved, global)
            && Composed(bs, moved, global)[x]
                 == if x == c then LookUp(global, bs[i].id).Plus(p) else Composed(bs, locals, global)[x]
  {
    assert Answered(bs[i], locals);
    MoveAccepted(cards, bs, locals, global, bs[i].id, c, p);
    var moved := MoveCard(locals, bs[i].id, c, p);
    var j := if x == c then i else HolderAt(bs, x);
    PlacedAt(bs, locals, global, j, x);
    PlacedAt(bs, moved, global, j, x);
    if x == c {
      OffsetKnown(bs[i], locals, c);
      MovedTable(locals[bs[i].id].cards, c, p, c);
    } else {
      LookUpMoved(locals, bs[j].id, bs[i].id, c, p, x);
    }
  }

  lemma OffsetKnown(b: Batch, locals: Locals, c: string)
    requires Answered(b, locals) && c in b.cardIds
    ensures c in Table(locals[b.id].cards)
  {
    CoverageForced(locals[b.id].cards, b.cardIds);
    assert c in Elems(b.cardIds);
    TableKeys(locals[b.id].cards, c);
  }
}
