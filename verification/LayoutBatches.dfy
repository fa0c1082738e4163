/** Splitting a layout document into batches: which batch owns each card, and which relations
    are local to a batch. */
module LayoutBatches {
  import opened Options
  import opened Ordering
  import opened Graphs

  datatype Card = Card(id: string, x: real, y: real)

  datatype Island = Island(id: string, title: string, parent: Option<string>, cardIds: seq<string>)

  /** A relation; an empty kind means a card. */
  datatype Relation = Relation(id: string, kind: string, fromKind: string, fromId: string, toKind: string, toId: string)

  datatype Document = Document(cards: seq<Card>, islands: seq<Island>, relations: seq<Relation>)

  datatype BatchKind = IslandBatch | LoneCard

  datatype Batch = Batch(id: string, kind: BatchKind, sourceId: string, title: string, parent: Option<string>, cardIds: seq<string>)

  datatype LayoutError =
    | UnknownMember | ManyMemberships | UnknownEnd
    | BadSourceId | DuplicateSourceId | EmptyBatch
    | WrongBatches | WrongBatchId | WrongLength | UnknownRow | DuplicateRow | CardTwice | NotCovered

  datatype Result<T> = Ok(value: T) | Err(error: LayoutError)

  datatype Ownership = Ownership(owners: map<string, string>, batches: map<string, Batch>)

  // ----- ownership ----------------------------------------------------------------------

  function CardIds(cards: seq<Card>): set<string> {
    set c | c in cards :: c.id
  }

  function IslandId(id: string): string { "island:" + id }

  function LoneId(id: string): string { "lone:" + id }

  lemma IdsApart(a: string, b: string)
    ensures IslandId(a) != LoneId(b)
    ensures IslandId(a) == IslandId(b) ==> a == b
    ensures LoneId(a) == LoneId(b) ==> a == b
  {
    assert IslandId(a)[0] == 'i' && LoneId(b)[0] == 'l';
    assert IslandId(a)[7..] == a && IslandId(b)[7..] == b;
    assert LoneId(a)[5..] == a && LoneId(b)[5..] == b;
  }

  predicate IslandLe(a: Island, b: Island) { Le(a.id, b.id) }

  function Islands(doc: Document): seq<Island> { SortBy(doc.islands, IslandLe) }

  function BatchOf(i: Island): Batch {
    Batch(IslandId(i.id), IslandBatch, i.id, i.title, i.parent, SortBy(i.cardIds, Le))
  }

  function LoneOf(c: string): Batch {
    Batch(LoneId(c), LoneCard, c, "", None, [c])
  }

  function IslandBatches(islands: seq<Island>): seq<Batch> {
    seq(|islands|, k requires 0 <= k < |islands| => BatchOf(islands[k]))
  }

  function LoneBatches(ids: seq<string>, owned: multiset<string>): seq<Batch> {
    if ids == [] then [] else
      var n := |ids| - 1;
      LoneBatches(ids[..n], owned) + if ids[n] in owned then [] else [LoneOf(ids[n])]
  }

  /** The cards of the batches, with multiplicity. */
  function Total(bs: seq<Batch>): multiset<string> {
    if bs == [] then multiset{} else
      var n := |bs| - 1;
      Total(bs[..n]) + multiset(bs[n].cardIds)
  }

  /** The batches in the order in which they are made. */
  function Made(doc: Document): seq<Batch> {
    var bs := IslandBatches(Islands(doc));
    bs + LoneBatches(Sorted(CardIds(doc.cards)), Total(bs))
  }

  /** A batch is entered, its cards become its own; a batch of the same id is overwritten. */
  function Put(o: Ownership, b: Batch): Ownership {
    Ownership(o.owners + Assigned(b.cardIds, b.id), o.batches[b.id := b])
  }

  function PutAll(bs: seq<Batch>): Ownership {
    if bs == [] then Ownership(map[], map[]) else Put(PutAll(bs[..|bs| - 1]), bs[|bs| - 1])
  }

  function OwnershipOf(doc: Document): Ownership { PutAll(Made(doc)) }

  /** Every island member is a known card, and none is a member twice. */
  ghost predicate Ownable(doc: Document) {
    Sound(IslandBatches(Islands(doc)), CardIds(doc.cards))
  }

  // ----- the loops ----------------------------------------------------------------------

  lemma TotalStep(bs: seq<Batch>, b: Batch)
    ensures Total(bs + [b]) == Total(bs) + multiset(b.cardIds)
  {
    assert (bs + [b])[..|bs|] == bs;
  }

  lemma {:induction false} TotalGrows(bs: seq<Batch>, n: nat, c: string)
    requires n <= |bs|
    ensures Total(bs[..n])[c] <= Total(bs)[c]
    decreases |bs| - n
  {
    if n == |bs| {
      assert bs[..n] == bs;
    } else {
      assert bs[..n + 1][..n] == bs[..n];
      TotalGrows(bs, n + 1, c);
    }
  }

  lemma PutStep(bs: seq<Batch>, b: Batch)
    ensures PutAll(bs + [b]) == Put(PutAll(bs), b)
  {
    assert (bs + [b])[..|bs|] == bs;
  }

  lemma {:induction false} OwnersAre(bs: seq<Batch>, c: string)
    ensures c in PutAll(bs).owners <==> c in Total(bs)
  {
    if bs != [] { OwnersAre(bs[..|bs| - 1], c); }
  }

  /** The member at `i` is a known card that has no owner yet. */
  ghost predicate Takable(owners: map<string, string>, members: seq<string>, known: set<string>, i: int) {
    0 <= i < |members| ==> members[i] in known && members[i] !in owners && members[i] !in members[..i]
  }

  ghost predicate AllTakable(owners: map<string, string>, members: seq<string>, known: set<string>) {
    forall i {:trigger Takable(owners, members, known, i)} :: Takable(owners, members, known, i)
  }

  function Assigned(members: seq<string>, batch: string): map<string, string> {
    map c | c in members :: batch
  }

  lemma AssignedStep(owners: map<string, string>, members: seq<string>, batch: string, k: nat)
    requires k < |members|
    ensures owners + Assigned(members[..k + 1], batch) == (owners + Assigned(members[..k], batch))[members[k] := batch]
  {
    assert members[..k + 1] == members[..k] + [members[k]];
  }

  /** The members of one island get their owner, unless one is unknown or taken. */
  method OwnMembers(owners: map<string, string>, members: seq<string>, batch: string, known: set<string>)
    returns (r: Result<map<string, string>>)
    ensures r.Ok? <==> AllTakable(owners, members, known)
    ensures r.Ok? ==> r.value == owners + Assigned(members, batch)
  {
    var own := owners;
    var k := 0;
    assert owners + Assigned([], batch) == owners;
    assert members[..0] == [];
    while k < |members|
      invariant k <= |members|
      invariant own == owners + Assigned(members[..k], batch)
      invariant forall i {:trigger Takable(owners, members, known, i)} :: i < k ==> Takable(owners, members, known, i)
    {
      var c := members[k];
      if c !in known {
        assert !Takable(owners, members, known, k);
        return Err(UnknownMember);
      }
      if c in own {
        assert !Takable(owners, members, known, k);
        return Err(ManyMemberships);
      }
      assert Takable(owners, members, known, k);
      AssignedStep(owners, members, batch, k);
      own := own[c := batch];
      k := k + 1;
    }
    assert members[..k] == members;
    r := Ok(own);
  }

  /** Members that can all be taken are new, and each occurs once. */
  lemma TakableOnce(owners: map<string, string>, members: seq<string>, known: set<string>, c: string)
    requires AllTakable(owners, members, known) && c in members
    ensures c in known && c !in owners && multiset(members)[c] == 1
  {
    var i :| 0 <= i < |members| && members[i] == c;
    assert Takable(owners, members, known, i);
    forall i, j | 0 <= i < j < |members| ensures members[i] != members[j] {
      assert Takable(owners, members, known, j);
      assert members[..j][i] == members[i];
    }
    CountAtMostOne(members, c);
  }

  lemma NotTakable(owners: map<string, string>, members: seq<string>, known: set<string>) returns (c: string)
    requires !AllTakable(owners, members, known)
    ensures c in members && (c !in known || c in owners || multiset(members)[c] >= 2)
  {
    var i :| !Takable(owners, members, known, i);
    c := members[i];
    if c in members[..i] {
      var j :| 0 <= j < i && members[..i][j] == c;
      CountAtLeastTwo(members, j, i);
    }
  }

  /** Known, and none twice. */
  ghost predicate Sound(bs: seq<Batch>, known: set<string>) {
    (forall c :: c in Total(bs) ==> c in known) && (forall c :: Total(bs)[c] <= 1)
  }

  lemma SoundStep(bs: seq<Batch>, b: Batch, known: set<string>)
    requires Sound(bs, known) && AllTakable(PutAll(bs).owners, b.cardIds, known)
    ensures Sound(bs + [b], known)
  {
    TotalStep(bs, b);
    forall c ensures (c in Total(bs + [b]) ==> c in known) && Total(bs + [b])[c] <= 1 {
      OwnersAre(bs, c);
      if c in b.cardIds {
        TakableOnce(PutAll(bs).owners, b.cardIds, known, c);
      } else {
        assert c !in multiset(b.cardIds);
      }
    }
  }

  /** Where a batch's members cannot all be taken, the whole is not sound. */
  lemma UnsoundStep(bs: seq<Batch>, n: nat, known: set<string>)
    requires n < |bs| && !AllTakable(PutAll(bs[..n]).owners, bs[n].cardIds, known)
    ensures !Sound(bs, known)
  {
    var ms := bs[n].cardIds;
    var c := NotTakable(PutAll(bs[..n]).owners, ms, known);
    OwnersAre(bs[..n], c);
    assert bs[..n + 1] == bs[..n] + [bs[n]];
    TotalStep(bs[..n], bs[n]);
    TotalGrows(bs, n + 1, c);
    assert multiset(ms)[c] >= 1;
  }

  /** One island: its batch is entered if its members can all be taken. */
  method OwnIsland(ghost bs: seq<Batch>, o: Ownership, b: Batch, known: set<string>) returns (r: Result<Ownership>)
    requires o == PutAll(bs) && Sound(bs, known)
    ensures r.Ok? <==> AllTakable(o.owners, b.cardIds, known)
    ensures r.Ok? ==> r.value == PutAll(bs + [b]) && Sound(bs + [b], known)
    ensures r.Err? ==> r.error == UnknownMember || r.error == ManyMemberships
  {
    var own := OwnMembers(o.owners, b.cardIds, b.id, known);
    if own.Err? {
      return Err(if own.error.UnknownMember? then UnknownMember else ManyMemberships);
    }
    SoundStep(bs, b, known);
    PutStep(bs, b);
    r := Ok(Ownership(own.value, o.batches[b.id := b]));
  }

  lemma IslandBatchesStep(islands: seq<Island>, n: nat)
    requires n < |islands|
    ensures var bs := IslandBatches(islands); bs[n] == BatchOf(islands[n]) && bs[..n + 1] == bs[..n] + [BatchOf(islands[n])]
  {
    var bs := IslandBatches(islands);
    assert bs[..n + 1] == bs[..n] + [bs[n]];
  }

  method OwnIslands(islands: seq<Island>, known: set<string>) returns (r: Result<Ownership>)
    ensures r.Ok? <==> Sound(IslandBatches(islands), known)
    ensures r.Ok? ==> r.value == PutAll(IslandBatches(islands))
    ensures r.Err? ==> r.error == UnknownMember || r.error == ManyMemberships
  {
    ghost var bs := IslandBatches(islands);
    r := Ok(Ownership(map[], map[]));
    var n := 0;
    while n < |islands|
      invariant n <= |islands|
      invariant r.Ok? && r.value == PutAll(bs[..n]) && Sound(bs[..n], known)
    {
      IslandBatchesStep(islands, n);
      r := OwnIsland(bs[..n], r.value, BatchOf(islands[n]), known);
      if r.Err? {
        UnsoundStep(bs, n, known);
        return;
      }
      n := n + 1;
    }
    assert bs[..n] == bs;
  }

  function AddLone(o: Ownership, c: string): Ownership {
    if c in o.owners then o else Ownership(o.owners[c := LoneId(c)], o.batches[LoneId(c) := LoneOf(c)])
  }

  function AddLones(o: Ownership, ids: seq<string>): Ownership {
    if ids == [] then o else AddLone(AddLones(o, ids[..|ids| - 1]), ids[|ids| - 1])
  }

  method OwnLones(start: Ownership, ids: seq<string>) returns (o: Ownership)
    ensures o == AddLones(start, ids)
  {
    o := start;
    var k := 0;
    while k < |ids|
      invariant k <= |ids|
      invariant o == AddLones(start, ids[..k])
    {
      var c := ids[k];
      assert ids[..k + 1][..k] == ids[..k];
      if c !in o.owners {
        o := Ownership(o.owners[c := LoneId(c)], o.batches[LoneId(c) := LoneOf(c)]);
      }
      k := k + 1;
    }
    assert ids[..k] == ids;
  }

  lemma PutLone(o: Ownership, c: string)
    requires c !in o.owners
    ensures Put(o, LoneOf(c)) == AddLone(o, c)
  {
    assert o.owners + Assigned([c], LoneId(c)) == o.owners[c := LoneId(c)];
  }

  lemma {:induction false} AddLonesOwners(o: Ownership, ids: seq<string>, c: string)
    ensures c in AddLones(o, ids).owners <==> c in o.owners || c in ids
  {
    if ids != [] {
      var n := |ids| - 1;
      assert ids == ids[..n] + [ids[n]];
      AddLonesOwners(o, ids[..n], c);
    }
  }

  lemma LonePuts(bs: seq<Batch>, lones: seq<Batch>, c: string)
    requires c !in PutAll(bs + lones).owners
    ensures PutAll(bs + (lones + [LoneOf(c)])) == AddLone(PutAll(bs + lones), c)
  {
    PutLone(PutAll(bs + lones), c);
    assert bs + (lones + [LoneOf(c)]) == (bs + lones) + [LoneOf(c)];
    PutStep(bs + lones, LoneOf(c));
  }

  lemma {:induction false} AddLonesPuts(bs: seq<Batch>, ids: seq<string>)
    requires NoRepeats(ids)
    ensures AddLones(PutAll(bs), ids) == PutAll(bs + LoneBatches(ids, Total(bs)))
  {
    if ids == [] {
      assert bs + [] == bs;
    } else {
      var n := |ids| - 1;
      var lones := LoneBatches(ids[..n], Total(bs));
      AddLonesPuts(bs, ids[..n]);
      AddLonesOwners(PutAll(bs), ids[..n], ids[n]);
      OwnersAre(bs, ids[n]);
      if ids[n] in Total(bs) {
        assert lones + [] == lones;
      } else {
        LonePuts(bs, lones, ids[n]);
      }
    }
  }

  method BatchOwnership(doc: Document) returns (r: Result<Ownership>)
    ensures r.Ok? <==> Ownable(doc)
    ensures r.Ok? ==> r.value == OwnershipOf(doc)
    ensures r.Err? ==> r.error == UnknownMember || r.error == ManyMemberships
  {
    var known := CardIds(doc.cards);
    r := OwnIslands(Islands(doc), known);
    if r.Ok? {
      AscendingDistinct(Sorted(known));
      AddLonesPuts(IslandBatches(Islands(doc)), Sorted(known));
      var o := OwnLones(r.value, Sorted(known));
      r := Ok(o);
    }
  }

  // ----- every card in exactly one batch ------------------------------------------------

  ghost predicate Disjoint(bs: seq<Batch>) {
    forall c :: Total(bs)[c] <= 1
  }

  lemma DisjointInit(bs: seq<Batch>)
    requires Disjoint(bs) && bs != []
    ensures var n := |bs| - 1; Disjoint(bs[..n]) && forall c :: c in bs[n].cardIds ==> c !in Total(bs[..n]) && multiset(bs[n].cardIds)[c] == 1
  {
    var n := |bs| - 1;
    forall c ensures Total(bs[..n])[c] <= 1 { assert Total(bs)[c] <= 1; }
    forall c | c in bs[n].cardIds ensures c !in Total(bs[..n]) && multiset(bs[n].cardIds)[c] == 1 {
      assert Total(bs)[c] <= 1;
      assert c in multiset(bs[n].cardIds);
    }
  }

  ghost predicate Fits(o: Ownership, b: string) {
    b in o.batches ==>
      && o.batches[b].id == b
      && forall c :: c in o.batches[b].cardIds ==> c in o.owners && o.owners[c] == b && multiset(o.batches[b].cardIds)[c] == 1
  }

  /** A batch's cards are its own, and in it once. */
  ghost predicate Within(o: Ownership) {
    && (forall b {:trigger Fits(o, b)} :: Fits(o, b))
    && (forall c :: c in o.owners ==> o.owners[c] in o.batches)
  }

  lemma {:induction false} PutWithin(bs: seq<Batch>)
    requires Disjoint(bs)
    ensures Within(PutAll(bs))
  {
    var o := PutAll(bs);
    if bs != [] {
      var n := |bs| - 1;
      var p := PutAll(bs[..n]);
      DisjointInit(bs);
      PutWithin(bs[..n]);
      forall b ensures Fits(o, b) {
        assert Fits(p, b);
        if b != bs[n].id && b in o.batches {
          forall c | c in o.batches[b].cardIds ensures c in o.owners && o.owners[c] == b {
            OwnersAre(bs[..n], c);
          }
        }
      }
    }
  }

  ghost predicate Kept(o: Ownership, c: string) {
    c in o.owners ==> o.owners[c] in o.batches && c in o.batches[o.owners[c]].cardIds
  }

  /** Every owned card is in the batch that owns it. */
  ghost predicate Covered(o: Ownership) {
    forall c {:trigger Kept(o, c)} :: Kept(o, c)
  }

  ghost predicate Spared(bs: seq<Batch>, j: int, k: int) {
    0 <= j < k < |bs| && bs[j].id == bs[k].id ==> bs[j].cardIds == []
  }

  /** No batch with cards is overwritten by a later one. */
  ghost predicate NoneLost(bs: seq<Batch>) {
    forall j, k {:trigger Spared(bs, j, k)} :: Spared(bs, j, k)
  }

  lemma {:induction false} OwnerFrom(bs: seq<Batch>, c: string) returns (j: nat)
    requires c in PutAll(bs).owners
    ensures j < |bs| && c in bs[j].cardIds && PutAll(bs).owners[c] == bs[j].id
  {
    var n := |bs| - 1;
    if c in bs[n].cardIds {
      j := n;
    } else {
      j := OwnerFrom(bs[..n], c);
    }
  }

  lemma {:induction false} OwnerIs(bs: seq<Batch>, j: nat, c: string)
    requires Disjoint(bs) && j < |bs| && c in bs[j].cardIds
    ensures c in PutAll(bs).owners && PutAll(bs).owners[c] == bs[j].id
  {
    var n := |bs| - 1;
    if j < n {
      DisjointInit(bs);
      OwnerIs(bs[..n], j, c);
      OwnersAre(bs[..n], c);
    }
  }

  lemma {:induction false} CoveredWhenNoneLost(bs: seq<Batch>)
    requires Disjoint(bs) && NoneLost(bs)
    ensures Covered(PutAll(bs))
  {
    if bs != [] {
      var n := |bs| - 1;
      var o, p := PutAll(bs), PutAll(bs[..n]);
      DisjointInit(bs);
      forall j, k ensures Spared(bs[..n], j, k) { assert Spared(bs, j, k); }
      CoveredWhenNoneLost(bs[..n]);
      forall c ensures Kept(o, c) {
        assert Kept(p, c);
        if c in o.owners && c !in bs[n].cardIds {
          var j := OwnerFrom(bs[..n], c);
          assert Spared(bs, j, n);
        }
      }
    }
  }

  lemma {:induction false} LostWhenOverwritten(bs: seq<Batch>, j: nat, k: nat)
    requires Disjoint(bs) && j < k < |bs| && !Spared(bs, j, k)
    ensures !Covered(PutAll(bs))
  {
    var o, c := PutAll(bs), bs[j].cardIds[0];
    HeadIn(bs[j].cardIds);
    OwnerIs(bs, j, c);
    Overwritten(bs, j, k, c);
    assert !Kept(o, c);
  }

  /** A card is not in the batch that stands under a later overwriting id. */
  lemma {:induction false} Overwritten(bs: seq<Batch>, j: nat, k: nat, c: string)
    requires Disjoint(bs) && j < k < |bs| && c in bs[j].cardIds && bs[j].id == bs[k].id
    ensures bs[k].id in PutAll(bs).batches && c !in PutAll(bs).batches[bs[k].id].cardIds
  {
    var n := |bs| - 1;
    var init := bs[..n];
    DisjointInit(bs);
    assert c !in bs[n].cardIds by { OwnerIs(init, j, c); OwnersAre(init, c); }
    if k < n { Overwritten(init, j, k, c); }
  }

  lemma CoveredExactly(bs: seq<Batch>)
    requires Disjoint(bs)
    ensures Covered(PutAll(bs)) <==> NoneLost(bs)
  {
    if NoneLost(bs) {
      CoveredWhenNoneLost(bs);
    } else {
      var j, k :| !Spared(bs, j, k);
      LostWhenOverwritten(bs, j, k);
    }
  }

  // ----- the plan -----------------------------------------------------------------------

  /** The batches in the order of their ids. */
  function Listed(o: Ownership, ids: seq<string>): seq<Batch>
    requires forall b :: b in ids ==> b in o.batches
  {
    seq(|ids|, k requires 0 <= k < |ids| => o.batches[ids[k]])
  }

  function BatchIds(o: Ownership): seq<string> { Sorted(o.batches.Keys) }

  function Plan(o: Ownership): seq<Batch> {
    Listed(o, BatchIds(o))
  }

  lemma {:induction false} TotalListed(o: Ownership, ids: seq<string>, c: string)
    requires Within(o) && NoRepeats(ids) && forall b :: b in ids ==> b in o.batches
    ensures Total(Listed(o, ids))[c]
         == if c in o.owners && o.owners[c] in ids && c in o.batches[o.owners[c]].cardIds then 1 else 0
  {
    if ids != [] {
      var n := |ids| - 1;
      var init, b := ids[..n], ids[n];
      assert ids == init + [b];
      TotalListed(o, init, c);
      assert Listed(o, ids)[..n] == Listed(o, init);
      assert Fits(o, b);
      assert c in o.batches[b].cardIds <==> c in multiset(o.batches[b].cardIds);
      if c in o.owners && o.owners[c] == b { assert b !in init; }
    }
  }

  /** The plan holds exactly the cards of the document, each in one batch and once in it. */
  ghost predicate Partition(doc: Document, bs: seq<Batch>) {
    forall c {:trigger Total(bs)[c]} :: Total(bs)[c] == if c in CardIds(doc.cards) then 1 else 0
  }

  lemma {:induction false} LoneTotal(ids: seq<string>, owned: multiset<string>, c: string)
    requires NoRepeats(ids)
    ensures Total(LoneBatches(ids, owned))[c] == if c in ids && c !in owned then 1 else 0
  {
    if ids != [] {
      var n := |ids| - 1;
      var init, d := ids[..n], ids[n];
      assert ids == init + [d];
      LoneTotal(init, owned, c);
      if d !in owned {
        TotalStep(LoneBatches(init, owned), LoneOf(d));
        assert LoneBatches(ids, owned) == LoneBatches(init, owned) + [LoneOf(d)];
      } else {
        assert LoneBatches(ids, owned) == LoneBatches(init, owned) + [];
        assert LoneBatches(init, owned) + [] == LoneBatches(init, owned);
      }
      if c == d { assert c !in init; }
    }
  }

  lemma {:induction false} TotalJoin(a: seq<Batch>, b: seq<Batch>)
    ensures Total(a + b) == Total(a) + Total(b)
  {
    if b == [] {
      assert a + b == a;
    } else {
      var n := |b| - 1;
      assert a + b == (a + b[..n]) + [b[n]];
      TotalStep(a + b[..n], b[n]);
      TotalJoin(a, b[..n]);
    }
  }

  /** The batches made hold every card once. */
  lemma MadeTotal(doc: Document)
    requires Ownable(doc)
    ensures Partition(doc, Made(doc))
  {
    var ids, bs := Sorted(CardIds(doc.cards)), IslandBatches(Islands(doc));
    AscendingDistinct(ids);
    TotalJoin(bs, LoneBatches(ids, Total(bs)));
    forall c ensures Total(Made(doc))[c] == if c in CardIds(doc.cards) then 1 else 0 {
      LoneTotal(ids, Total(bs), c);
      assert Total(bs)[c] <= 1;
      assert c in Total(bs) ==> c in CardIds(doc.cards);
    }
  }

  ghost predicate IslandSpared(islands: seq<Island>, j: int, k: int) {
    0 <= j < k < |islands| && islands[j].id == islands[k].id ==> islands[j].cardIds == []
  }

  /** No island with cards has the id of a later one. */
  ghost predicate IslandsKept(doc: Document) {
    forall j, k {:trigger IslandSpared(Islands(doc), j, k)} :: IslandSpared(Islands(doc), j, k)
  }

  lemma {:induction false} LonesAre(ids: seq<string>, owned: multiset<string>)
    requires NoRepeats(ids)
    ensures AllLone(LoneBatches(ids, owned))
    ensures forall k :: 0 <= k < |LoneBatches(ids, owned)| ==> LoneBatches(ids, owned)[k].sourceId in ids
  {
    if ids != [] {
      var n := |ids| - 1;
      assert ids == ids[..n] + [ids[n]];
      LonesAre(ids[..n], owned);
    }
  }

  lemma SortedEmpty(s: seq<string>)
    ensures SortBy(s, Le) == [] <==> s == []
  {
    assert |multiset(SortBy(s, Le))| == |multiset(s)|;
  }

  predicate AllLone(lones: seq<Batch>) {
    && (forall k :: 0 <= k < |lones| ==> lones[k] == LoneOf(lones[k].sourceId))
    && (forall j, k :: 0 <= j < k < |lones| ==> lones[j].sourceId != lones[k].sourceId)
  }

  /** Only islands can be overwritten, and only by islands. */
  lemma SparedIslands(islands: seq<Island>, lones: seq<Batch>, j: int, k: int)
    requires AllLone(lones)
    ensures Spared(IslandBatches(islands) + lones, j, k) <==> IslandSpared(islands, j, k)
  {
    var n := |islands|;
    if 0 <= j < k < n {
      IdsApart(islands[j].id, islands[k].id);
      SortedEmpty(islands[j].cardIds);
    } else if 0 <= j < n <= k < n + |lones| {
      IdsApart(islands[j].id, lones[k - n].sourceId);
    } else if n <= j < k < n + |lones| {
      IdsApart(lones[j - n].sourceId, lones[k - n].sourceId);
    }
  }

  lemma KeptIffNoneLost(doc: Document)
    ensures NoneLost(Made(doc)) <==> IslandsKept(doc)
  {
    var islands, ids := Islands(doc), Sorted(CardIds(doc.cards));
    var lones := LoneBatches(ids, Total(IslandBatches(islands)));
    AscendingDistinct(ids);
    LonesAre(ids, Total(IslandBatches(islands)));
    forall j, k ensures Spared(Made(doc), j, k) <==> IslandSpared(islands, j, k) {
      SparedIslands(islands, lones, j, k);
    }
    if NoneLost(Made(doc)) {
      forall j, k ensures IslandSpared(islands, j, k) { assert Spared(Made(doc), j, k); }
    } else {
      var j, k :| !Spared(Made(doc), j, k);
      assert !IslandSpared(islands, j, k);
    }
  }

  lemma OwnershipWithin(doc: Document)
    requires Ownable(doc)
    ensures OwnershipOf(doc).owners.Keys == CardIds(doc.cards) && Within(OwnershipOf(doc)) && Disjoint(Made(doc))
  {
    var bs := Made(doc);
    MadeTotal(doc);
    forall c ensures Total(bs)[c] <= 1 { assert Total(bs)[c] == if c in CardIds(doc.cards) then 1 else 0; }
    PutWithin(bs);
    forall c ensures c in PutAll(bs).owners <==> c in CardIds(doc.cards) {
      OwnersAre(bs, c);
      assert Total(bs)[c] == if c in CardIds(doc.cards) then 1 else 0;
    }
  }

  /** The plan is a partition of the cards exactly when no island with cards is overwritten by a
      later one of the same id. */
  lemma PlanPartitions(doc: Document)
    requires Ownable(doc)
    ensures Partition(doc, Plan(OwnershipOf(doc))) <==> IslandsKept(doc)
  {
    OwnershipWithin(doc);
    CoveredExactly(Made(doc));
    KeptIffNoneLost(doc);
    PlanCovers(doc, OwnershipOf(doc));
  }

  lemma PlanCovers(doc: Document, o: Ownership)
    requires Within(o) && o.owners.Keys == CardIds(doc.cards)
    ensures Partition(doc, Plan(o)) <==> Covered(o)
  {
    var ids := BatchIds(o);
    AscendingDistinct(ids);
    forall c ensures Total(Plan(o))[c] == (if c in CardIds(doc.cards) then 1 else 0) <==> Kept(o, c) {
      TotalListed(o, ids, c);
    }
    if Partition(doc, Plan(o)) {
      forall c ensures Kept(o, c) { assert Total(Plan(o))[c] == if c in CardIds(doc.cards) then 1 else 0; }
    } else {
      var c :| Total(Plan(o))[c] != if c in CardIds(doc.cards) then 1 else 0;
      assert !Kept(o, c);
    }
  }

  /** Distinct island ids are enough. */
  lemma DistinctIslandsKept(doc: Document)
    requires forall j, k :: 0 <= j < k < |Islands(doc)| ==> Islands(doc)[j].id != Islands(doc)[k].id
    ensures IslandsKept(doc)
  {
  }

  lemma SortedPair(a: Island, b: Island)
    requires a.id == b.id
    ensures SortBy([a, b], IslandLe) == [a, b]
  {
    LeRefl(a.id);
    assert [a, b][1..] == [b] && [b][1..] == [];
    assert SortBy([b], IslandLe) == [b];
  }

  lemma BatchOfOne(i: Island, x: string)
    requires i.cardIds == [x]
    ensures multiset(BatchOf(i).cardIds) == multiset{x}
  {
  }

  lemma PairTotal(a: Batch, b: Batch)
    ensures Total([a, b]) == multiset(a.cardIds) + multiset(b.cardIds)
  {
    assert [] + [a] == [a] && [a] + [b] == [a, b];
    TotalStep([], a);
    TotalStep([a], b);
  }

  lemma PairOwnable(doc: Document, a: Island, b: Island)
    requires |a.cardIds| == 1 && |b.cardIds| == 1 && a.cardIds[0] != b.cardIds[0]
    requires Islands(doc) == [a, b] && CardIds(doc.cards) == {a.cardIds[0], b.cardIds[0]}
    ensures Ownable(doc)
  {
    BatchOfOne(a, a.cardIds[0]);
    BatchOfOne(b, b.cardIds[0]);
    PairTotal(BatchOf(a), BatchOf(b));
    assert IslandBatches([a, b]) == [BatchOf(a), BatchOf(b)];
  }

  lemma PairLost(doc: Document)
    requires |Islands(doc)| == 2 && Islands(doc)[0].id == Islands(doc)[1].id && Islands(doc)[0].cardIds != []
    ensures !IslandsKept(doc)
  {
    assert !IslandSpared(Islands(doc), 0, 1);
  }

  /** Two islands of one id: the earlier one's card is in no batch. */
  lemma SameIdLosesCard(a: Card, b: Card, id: string)
    requires a.id != b.id
    ensures var doc := Document([a, b], [Island(id, "", None, [a.id]), Island(id, "", None, [b.id])], []);
            Ownable(doc) && !Partition(doc, Plan(OwnershipOf(doc)))
  {
    var first, second := Island(id, "", None, [a.id]), Island(id, "", None, [b.id]);
    var doc := Document([a, b], [first, second], []);
    SortedPair(first, second);
    assert CardIds(doc.cards) == {a.id, b.id} by {
      assert doc.cards[0] == a && doc.cards[1] == b;
    }
    PairOwnable(doc, first, second);
    PairLost(doc);
    PlanPartitions(doc);
  }
}
