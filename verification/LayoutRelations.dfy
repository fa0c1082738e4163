/** Splitting the relations of a layout document: each is local to one batch or global. */
module LayoutRelations {
  import opened Options
  import opened Ordering
  import opened Graphs
  import opened LayoutBatches

  function Kind(kind: string): string { if kind == "" then "card" else kind }

  predicate BetweenCards(e: Relation) { Kind(e.fromKind) == "card" && Kind(e.toKind) == "card" }

  predicate Grounded(owners: map<string, string>, e: Relation) {
    BetweenCards(e) ==> e.fromId in owners && e.toId in owners
  }

  /** How a relation stands to the batches: inside one, from one to another, or between other
      things than two cards. */
  datatype Link = Inside(batch: string) | Bridge(from: string, to: string) | Stated

  datatype Row = Row(relation: Relation, link: Link)

  function LinkOf(owners: map<string, string>, e: Relation): Link {
    if !BetweenCards(e) || e.fromId !in owners || e.toId !in owners then Stated
    else if owners[e.fromId] == owners[e.toId] then Inside(owners[e.fromId])
    else Bridge(owners[e.fromId], owners[e.toId])
  }

  /** The batch a relation is local to. */
  function Home(owners: map<string, string>, e: Relation): (h: Option<string>)
    ensures h.Some? <==> BetweenCards(e) && e.fromId in owners && e.toId in owners && owners[e.fromId] == owners[e.toId]
  {
    var l := LinkOf(owners, e);
    if l.Inside? then Some(l.batch) else None
  }

  function SortKey(e: Relation): seq<string> { [e.kind, e.fromId, e.toId, e.id] }

  predicate RelationLe(a: Relation, b: Relation) { TupleLe(SortKey(a), SortKey(b)) }

  predicate AllGrounded(owners: map<string, string>, es: seq<Relation>) {
    forall i :: 0 <= i < |es| ==> Grounded(owners, es[i])
  }

  function RowsFor(owners: map<string, string>, e: Relation, h: Option<string>): seq<Row> {
    if Home(owners, e) == h then [Row(e, LinkOf(owners, e))] else []
  }

  /** The rows, in order, of the relations whose home is `h`. */
  function Pick(owners: map<string, string>, es: seq<Relation>, h: Option<string>): seq<Row> {
    if es == [] then [] else
      var n := |es| - 1;
      Pick(owners, es[..n], h) + RowsFor(owners, es[n], h)
  }

  datatype Split = Split(local: map<string, seq<Row>>, global: seq<Row>)

  function LocalRows(s: Split, b: string): seq<Row> {
    if b in s.local then s.local[b] else []
  }

  ghost predicate IsSplit(owners: map<string, string>, es: seq<Relation>, s: Split) {
    && AllGrounded(owners, es)
    && s.global == Pick(owners, es, None)
    && (forall b :: LocalRows(s, b) == Pick(owners, es, Some(b)))
    && (forall b :: b in s.local ==> s.local[b] != [])
  }

  lemma PickStep(owners: map<string, string>, es: seq<Relation>, e: Relation, h: Option<string>)
    ensures Pick(owners, es + [e], h) == Pick(owners, es, h) + RowsFor(owners, e, h)
  {
    assert (es + [e])[..|es|] == es;
  }

  method RelationPartition(doc: Document, owners: map<string, string>) returns (r: Result<Split>)
    ensures r.Ok? <==> AllGrounded(owners, doc.relations)
    ensures r.Ok? ==> IsSplit(owners, SortBy(doc.relations, RelationLe), r.value)
    ensures r.Err? ==> r.error == UnknownEnd
  {
    var es := SortBy(doc.relations, RelationLe);
    SameElements(es, doc.relations);
    var s := Split(map[], []);
    var n := 0;
    while n < |es|
      invariant n <= |es|
      invariant IsSplit(owners, es[..n], s)
    {
      var e := es[n];
      assert e in doc.relations;
      if BetweenCards(e) && (e.fromId !in owners || e.toId !in owners) {
        return Err(UnknownEnd);
      }
      s := AddRow(owners, es[..n], s, e);
      assert es[..n + 1] == es[..n] + [e];
      n := n + 1;
    }
    assert es[..n] == es;
    forall i | 0 <= i < |doc.relations| ensures Grounded(owners, doc.relations[i]) {
      assert doc.relations[i] in es;
    }
    r := Ok(s);
  }

  method AddRow(owners: map<string, string>, ghost es: seq<Relation>, s: Split, e: Relation) returns (t: Split)
    requires IsSplit(owners, es, s) && Grounded(owners, e)
    ensures IsSplit(owners, es + [e], t)
  {
    forall h ensures Pick(owners, es + [e], h) == Pick(owners, es, h) + RowsFor(owners, e, h) {
      PickStep(owners, es, e, h);
    }
    assert AllGrounded(owners, es + [e]);
    if BetweenCards(e) && owners[e.fromId] == owners[e.toId] {
      var b := owners[e.fromId];
      t := s.(local := s.local[b := LocalRows(s, b) + [Row(e, Inside(b))]]);
    } else if BetweenCards(e) {
      t := s.(global := s.global + [Row(e, Bridge(owners[e.fromId], owners[e.toId]))]);
    } else {
      t := s.(global := s.global + [Row(e, Stated)]);
    }
  }

  // ----- conservation -------------------------------------------------------------------

  function Relations(rows: seq<Row>): multiset<Relation> {
    if rows == [] then multiset{} else Relations(rows[..|rows| - 1]) + multiset{rows[|rows| - 1].relation}
  }

  lemma RelationsStep(rows: seq<Row>, row: Row)
    ensures Relations(rows + [row]) == Relations(rows) + multiset{row.relation}
  {
    assert (rows + [row])[..|rows|] == rows;
  }

  lemma RelationsAdd(owners: map<string, string>, rows: seq<Row>, d: Relation, h: Option<string>)
    ensures Relations(rows + RowsFor(owners, d, h)) == Relations(rows) + if Home(owners, d) == h then multiset{d} else multiset{}
  {
    if Home(owners, d) == h {
      RelationsStep(rows, Row(d, LinkOf(owners, d)));
    } else {
      assert rows + [] == rows;
    }
  }

  lemma CountStep(es: seq<Relation>)
    requires es != []
    ensures var n := |es| - 1; multiset(es) == multiset(es[..n]) + multiset{es[n]}
  {
    assert es == es[..|es| - 1] + [es[|es| - 1]];
  }

  /** A relation is picked, as often as it occurs, for its home and for no other. */
  lemma {:induction false} PickCount(owners: map<string, string>, es: seq<Relation>, h: Option<string>, e: Relation)
    ensures Relations(Pick(owners, es, h))[e] == if Home(owners, e) == h then multiset(es)[e] else 0
  {
    if es != [] {
      var n := |es| - 1;
      CountStep(es);
      PickCount(owners, es[..n], h, e);
      RelationsAdd(owners, Pick(owners, es[..n], h), es[n], h);
    }
  }

  /** The relations local to the given batches. */
  function LocalTotal(s: Split, ids: seq<string>): multiset<Relation> {
    if ids == [] then multiset{} else
      LocalTotal(s, ids[..|ids| - 1]) + Relations(LocalRows(s, ids[|ids| - 1]))
  }

  lemma {:induction false} LocalCount(owners: map<string, string>, es: seq<Relation>, s: Split, ids: seq<string>, e: Relation)
    requires IsSplit(owners, es, s) && NoRepeats(ids)
    ensures LocalTotal(s, ids)[e] == match Home(owners, e) case Some(b) => (if b in ids then multiset(es)[e] else 0) case None => 0
  {
    if ids != [] {
      var n := |ids| - 1;
      assert ids == ids[..n] + [ids[n]];
      LocalCount(owners, es, s, ids[..n], e);
      PickCount(owners, es, Some(ids[n]), e);
    }
  }

  /** The relations of the document are the local ones of the plan's batches and the global
      ones, each as often as it occurs. */
  lemma RelationsConserved(doc: Document, o: Ownership, s: Split)
    requires Within(o) && IsSplit(o.owners, SortBy(doc.relations, RelationLe), s)
    ensures LocalTotal(s, BatchIds(o)) + Relations(s.global) == multiset(doc.relations)
  {
    var es, ids := SortBy(doc.relations, RelationLe), BatchIds(o);
    AscendingDistinct(ids);
    forall e ensures LocalTotal(s, ids)[e] + Relations(s.global)[e] == multiset(doc.relations)[e] {
      LocalCount(o.owners, es, s, ids, e);
      PickCount(o.owners, es, None, e);
    }
  }

  /** A local relation has both ends in its batch, and is local to no other. */
  lemma {:induction false} LocalMeans(owners: map<string, string>, es: seq<Relation>, b: string, row: Row)
    requires row in Pick(owners, es, Some(b))
    ensures row.link == Inside(b) && BetweenCards(row.relation) && row.relation in es
    ensures row.relation.fromId in owners && owners[row.relation.fromId] == b
    ensures row.relation.toId in owners && owners[row.relation.toId] == b
  {
    var n := |es| - 1;
    if row in Pick(owners, es[..n], Some(b)) { LocalMeans(owners, es[..n], b, row); }
  }
}
