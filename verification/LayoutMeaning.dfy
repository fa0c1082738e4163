/** What a layout plan holds, said island by island, card by card and relation by relation. */
module LayoutMeaning {
  import opened Options
  import opened Ordering
  import opened LayoutBatches
  import opened LayoutRelations
  import opened LayoutComposition
  import opened LayoutIdentity
  import Snapshots

  // ----- which documents have owners ----------------------------------------------------

  /** All memberships, with multiplicity. */
  function Memberships(islands: seq<Island>): multiset<string> {
    if islands == [] then multiset{} else multiset(islands[0].cardIds) + Memberships(islands[1..])
  }

  lemma {:induction false} MembershipsInsert(x: Island, s: seq<Island>)
    ensures Memberships(Insert(x, s, IslandLe)) == multiset(x.cardIds) + Memberships(s)
  {
    if s != [] && !IslandLe(x, s[0]) {
      MembershipsInsert(x, s[1..]);
      assert Insert(x, s, IslandLe)[1..] == Insert(x, s[1..], IslandLe);
    }
  }

  lemma {:induction false} MembershipsSorted(s: seq<Island>)
    ensures Memberships(SortBy(s, IslandLe)) == Memberships(s)
  {
    if s != [] {
      MembershipsSorted(s[1..]);
      MembershipsInsert(s[0], SortBy(s[1..], IslandLe));
    }
  }

  lemma TotalCons(b: Batch, bs: seq<Batch>)
    ensures Total([b] + bs) == multiset(b.cardIds) + Total(bs)
  {
    TotalJoin([b], bs);
    assert [] + [b] == [b];
    TotalStep([], b);
  }

  lemma IslandBatchesCons(islands: seq<Island>)
    requires islands != []
    ensures IslandBatches(islands) == [BatchOf(islands[0])] + IslandBatches(islands[1..])
    ensures multiset(BatchOf(islands[0]).cardIds) == multiset(islands[0].cardIds)
  {
  }

  lemma {:induction false} TotalMemberships(islands: seq<Island>)
    ensures Total(IslandBatches(islands)) == Memberships(islands)
  {
    if islands != [] {
      IslandBatchesCons(islands);
      TotalCons(BatchOf(islands[0]), IslandBatches(islands[1..]));
      TotalMemberships(islands[1..]);
    }
  }

  lemma OnceEach(m: multiset<string>, known: set<string>)
    ensures (forall c :: c in m ==> c in known) && (forall c :: m[c] <= 1) <==> forall c :: m[c] <= if c in known then 1 else 0
  {
  }

  /** The cards can be owned exactly if every membership is of a card of the document, and all the
      memberships together name no card twice. */
  lemma OwnableMeans(doc: Document)
    ensures Ownable(doc) <==> forall c :: Memberships(doc.islands)[c] <= if c in CardIds(doc.cards) then 1 else 0
  {
    MembershipsSorted(doc.islands);
    TotalMemberships(Islands(doc));
    OnceEach(Memberships(doc.islands), CardIds(doc.cards));
  }

  // ----- the order of equals ------------------------------------------------------------

  function IfKept<T>(x: T, keep: T -> bool): seq<T> { if keep(x) then [x] else [] }

  lemma FilterCons<T>(x: T, s: seq<T>, keep: T -> bool)
    ensures Snapshots.Filter([x] + s, keep) == IfKept(x, keep) + Snapshots.Filter(s, keep)
  {
    assert ([x] + s)[1..] == s;
  }

  lemma FilterSwap<T>(x: T, y: T, s: seq<T>, keep: T -> bool)
    requires !keep(x) || !keep(y)
    ensures Snapshots.Filter([y] + ([x] + s), keep) == Snapshots.Filter([x] + ([y] + s), keep)
  {
    FilterCons(y, [x] + s, keep);
    FilterCons(x, s, keep);
    FilterCons(x, [y] + s, keep);
    FilterCons(y, s, keep);
  }

  lemma {:induction false} InsertStable<T(!new)>(x: T, s: seq<T>, le: (T, T) -> bool, keep: T -> bool)
    requires forall a, b :: keep(a) && keep(b) ==> le(a, b)
    ensures Snapshots.Filter(Insert(x, s, le), keep) == Snapshots.Filter([x] + s, keep)
  {
    if s != [] && !le(x, s[0]) {
      var y, t := s[0], s[1..];
      InsertStable(x, t, le, keep);
      FilterCons(y, Insert(x, t, le), keep);
      FilterCons(y, [x] + t, keep);
      assert s == [y] + t;
      FilterSwap(x, y, t, keep);
    }
  }

  /** Sorting leaves elements with equal keys in their order. */
  lemma {:induction false} SortStable<T(!new)>(s: seq<T>, le: (T, T) -> bool, keep: T -> bool)
    requires forall a, b :: keep(a) && keep(b) ==> le(a, b)
    ensures Snapshots.Filter(SortBy(s, le), keep) == Snapshots.Filter(s, keep)
  {
    if s != [] {
      var x, t := s[0], s[1..];
      SortStable(t, le, keep);
      InsertStable(x, SortBy(t, le), le, keep);
      FilterCons(x, SortBy(t, le), keep);
      FilterCons(x, t, keep);
      assert s == [x] + t;
    }
  }

  /** The islands of the id, in the order of the document. */
  function Named(islands: seq<Island>, id: string): seq<Island> {
    Snapshots.Filter(islands, (i: Island) => i.id == id)
  }

  lemma NamedSorted(doc: Document, id: string)
    ensures Named(Islands(doc), id) == Named(doc.islands, id)
  {
    LeRefl(id);
    SortStable(doc.islands, IslandLe, (i: Island) => i.id == id);
  }

  // ----- the plan -----------------------------------------------------------------------

  /** The batch at `k` is not overwritten by a later one. */
  ghost predicate LastOf(bs: seq<Batch>, k: int) {
    0 <= k < |bs| && forall j {:trigger bs[j]} :: k < j < |bs| ==> bs[j].id != bs[k].id
  }

  /** The batch at `k` is `b`, and is not overwritten. */
  ghost predicate LastIs(bs: seq<Batch>, k: int, b: Batch) {
    LastOf(bs, k) && bs[k] == b
  }

  lemma {:induction false} EnteredLast(bs: seq<Batch>, b: Batch)
    ensures b.id in PutAll(bs).batches && PutAll(bs).batches[b.id] == b <==> exists k :: LastIs(bs, k, b)
    decreases |bs|
  {
    if bs != [] {
      var n := |bs| - 1;
      var init := bs[..n];
      EnteredLast(init, b);
      if b.id == bs[n].id {
        if b == bs[n] { assert LastIs(bs, n, b); }
        if k :| LastIs(bs, k, b) { assert k == n; }
      } else {
        if k :| LastIs(init, k, b) { assert LastIs(bs, k, b); }
        if k :| LastIs(bs, k, b) {
          forall j | k < j < n ensures init[j].id != init[k].id { assert bs[j].id != bs[k].id; }
          assert LastIs(init, k, b);
        }
      }
    }
  }

  lemma InPlan(o: Ownership, b: Batch)
    requires Within(o)
    ensures b in Plan(o) <==> b.id in o.batches && o.batches[b.id] == b
  {
    var ids := BatchIds(o);
    if b in Plan(o) {
      var k :| 0 <= k < |ids| && Plan(o)[k] == b;
      assert Fits(o, ids[k]);
    }
    if b.id in o.batches && o.batches[b.id] == b {
      assert b.id in ids;
      var k :| 0 <= k < |ids| && ids[k] == b.id;
      assert Plan(o)[k] == b;
    }
  }

  lemma {:induction false} LastNamed(islands: seq<Island>, k: nat)
    requires k < |islands|
    ensures (forall j {:trigger islands[j]} :: k < j < |islands| ==> islands[j].id != islands[k].id) ==>
              var same := Named(islands, islands[k].id); same != [] && same[|same| - 1] == islands[k]
  {
    if forall j {:trigger islands[j]} :: k < j < |islands| ==> islands[j].id != islands[k].id {
      if k == 0 {
        forall j | 0 <= j < |islands[1..]| ensures islands[1..][j].id != islands[0].id { assert islands[1..][j] == islands[j + 1]; }
        NoneNamed(islands[1..], islands[0].id);
      } else {
        forall j | k - 1 < j < |islands[1..]| ensures islands[1..][j].id != islands[1..][k - 1].id {
          assert islands[1..][j] == islands[j + 1];
        }
        LastNamed(islands[1..], k - 1);
      }
    }
  }

  lemma {:induction false} NoneNamed(islands: seq<Island>, id: string)
    requires forall j {:trigger islands[j]} :: 0 <= j < |islands| ==> islands[j].id != id
    ensures Named(islands, id) == []
  {
    if islands != [] { NoneNamed(islands[1..], id); }
  }

  /** Some island is the last of its id. */
  lemma {:induction false} LastExists(islands: seq<Island>, id: string) returns (k: nat)
    requires Named(islands, id) != []
    ensures k < |islands| && islands[k].id == id && forall j {:trigger islands[j]} :: k < j < |islands| ==> islands[j].id != id
    decreases |islands|
  {
    var rest := islands[1..];
    if Named(rest, id) != [] {
      k := LastExists(rest, id);
      forall j | k + 1 < j < |islands| ensures islands[j].id != id { assert islands[j] == rest[j - 1]; }
      k := k + 1;
    } else {
      k := 0;
      forall j | 0 < j < |islands| ensures islands[j].id != id {
        if islands[j].id == id { NamedIn(rest, j - 1); }
      }
    }
  }

  lemma {:induction false} NamedIn(islands: seq<Island>, j: nat)
    requires j < |islands|
    ensures islands[j] in Named(islands, islands[j].id)
  {
    if j > 0 { NamedIn(islands[1..], j - 1); }
  }

  /** The batch of an island, and of a card by itself. */
  ghost predicate ForIsland(b: Batch, i: Island) {
    b == Batch("island:" + i.id, IslandBatch, i.id, i.title, i.parent, SortBy(i.cardIds, Le))
  }

  ghost predicate ForCard(b: Batch, c: string) {
    b == Batch("lone:" + c, LoneCard, c, "", None, [c])
  }

  /** The batch is that of the last island of its id. */
  ghost predicate IslandPlanned(islands: seq<Island>, b: Batch) {
    var same := Named(islands, b.sourceId);
    same != [] && ForIsland(b, same[|same| - 1])
  }

  ghost predicate CardPlanned(doc: Document, b: Batch) {
    b.sourceId in CardIds(doc.cards) && b.sourceId !in Memberships(doc.islands) && ForCard(b, b.sourceId)
  }

  lemma {:induction false} LoneIn(ids: seq<string>, owned: multiset<string>, b: Batch)
    ensures b in LoneBatches(ids, owned) <==> b.sourceId in ids && b.sourceId !in owned && b == LoneOf(b.sourceId)
  {
    if ids != [] {
      var n := |ids| - 1;
      assert ids == ids[..n] + [ids[n]];
      LoneIn(ids[..n], owned, b);
    }
  }

  lemma LastIsland(islands: seq<Island>, lones: seq<Batch>, k: nat)
    requires AllLone(lones) && k < |islands|
    ensures LastOf(IslandBatches(islands) + lones, k) <==> forall j {:trigger islands[j]} :: k < j < |islands| ==> islands[j].id != islands[k].id
  {
    var bs, n := IslandBatches(islands) + lones, |islands|;
    forall j | k < j < |bs| ensures bs[j].id != bs[k].id <==> (j < n ==> islands[j].id != islands[k].id) {
      if j < n { IdsApart(islands[j].id, islands[k].id); } else { IdsApart(islands[k].id, lones[j - n].sourceId); }
    }
    if LastOf(bs, k) {
      forall j | k < j < n ensures islands[j].id != islands[k].id { assert bs[j].id != bs[k].id; }
    }
  }

  lemma LastLone(islands: seq<Island>, lones: seq<Batch>, k: nat)
    requires AllLone(lones) && k < |lones|
    ensures LastOf(IslandBatches(islands) + lones, |islands| + k)
  {
    var bs, n := IslandBatches(islands) + lones, |islands|;
    forall j | n + k < j < |bs| ensures bs[j].id != bs[n + k].id { IdsApart(lones[j - n].sourceId, lones[k].sourceId); }
  }

  /** The batch at `k` is of an island, and stays in the plan. */
  ghost predicate KeptAt(islands: seq<Island>, lones: seq<Batch>, k: int, b: Batch) {
    0 <= k < |islands| && LastOf(IslandBatches(islands) + lones, k) && BatchOf(islands[k]) == b
  }

  lemma PlannedIsKept(islands: seq<Island>, lones: seq<Batch>, b: Batch)
    requires AllLone(lones) && IslandPlanned(islands, b)
    ensures exists k :: KeptAt(islands, lones, k, b)
  {
    var k := LastExists(islands, b.sourceId);
    LastNamed(islands, k);
    LastIsland(islands, lones, k);
    assert KeptAt(islands, lones, k, b);
  }

  lemma KeptIsPlanned(islands: seq<Island>, lones: seq<Batch>, k: int, b: Batch)
    requires AllLone(lones) && KeptAt(islands, lones, k, b)
    ensures IslandPlanned(islands, b)
  {
    LastIsland(islands, lones, k);
    LastNamed(islands, k);
  }

  /** The plan's batches: one for the last island of each id, with its title, its parent and its
      members in order, and one for each card that is a member of none. */
  lemma PlanMeans(doc: Document, b: Batch)
    requires Ownable(doc)
    ensures b in Plan(OwnershipOf(doc)) <==> IslandPlanned(doc.islands, b) || CardPlanned(doc, b)
  {
    var islands, ids := Islands(doc), Sorted(CardIds(doc.cards));
    var owned := Total(IslandBatches(islands));
    var lones := LoneBatches(ids, owned);
    OwnershipWithin(doc);
    InPlan(OwnershipOf(doc), b);
    EnteredLast(Made(doc), b);
    AscendingDistinct(ids);
    LonesAre(ids, owned);
    NamedSorted(doc, b.sourceId);
    if IslandPlanned(islands, b) { PlannedIsKept(islands, lones, b); }
    if k :| KeptAt(islands, lones, k, b) { KeptIsPlanned(islands, lones, k, b); }
    LoneIn(ids, owned, b);
    MembershipsSorted(doc.islands);
    TotalMemberships(islands);
    SplitAt(islands, lones, b);
  }

  lemma PlaceAt(islands: seq<Island>, lones: seq<Batch>, k: nat)
    requires k < |islands| + |lones|
    ensures (IslandBatches(islands) + lones)[k] == if k < |islands| then BatchOf(islands[k]) else lones[k - |islands|]
  {
  }

  lemma LastSplits(islands: seq<Island>, lones: seq<Batch>, k: int, b: Batch)
    requires LastIs(IslandBatches(islands) + lones, k, b)
    ensures KeptAt(islands, lones, k, b) || b in lones
  {
    PlaceAt(islands, lones, k);
  }

  lemma KeptLasts(islands: seq<Island>, lones: seq<Batch>, k: int, b: Batch)
    requires KeptAt(islands, lones, k, b)
    ensures LastIs(IslandBatches(islands) + lones, k, b)
  {
    PlaceAt(islands, lones, k);
  }

  lemma LoneLasts(islands: seq<Island>, lones: seq<Batch>, k: nat)
    requires AllLone(lones) && k < |lones|
    ensures LastIs(IslandBatches(islands) + lones, |islands| + k, lones[k])
  {
    LastLone(islands, lones, k);
    PlaceAt(islands, lones, |islands| + k);
  }

  lemma SplitAt(islands: seq<Island>, lones: seq<Batch>, b: Batch)
    requires AllLone(lones)
    ensures (exists k :: LastIs(IslandBatches(islands) + lones, k, b)) <==> (exists k :: KeptAt(islands, lones, k, b)) || b in lones
  {
    var bs := IslandBatches(islands) + lones;
    if k :| LastIs(bs, k, b) { LastSplits(islands, lones, k, b); }
    if k :| KeptAt(islands, lones, k, b) { KeptLasts(islands, lones, k, b); }
    if b in lones {
      var k :| 0 <= k < |lones| && lones[k] == b;
      LoneLasts(islands, lones, k);
    }
  }

  // ----- relations ----------------------------------------------------------------------

  predicate OfCard(kind: string) { kind == "" || kind == "card" }

  /** The row is in the batch's bucket exactly if both ends are cards of the batch. */
  lemma {:induction false} LocalExactly(owners: map<string, string>, es: seq<Relation>, b: string, row: Row)
    ensures row in Pick(owners, es, Some(b)) <==>
      var e := row.relation;
      && e in es && OfCard(e.fromKind) && OfCard(e.toKind) && row.link == Inside(b)
      && e.fromId in owners && owners[e.fromId] == b && e.toId in owners && owners[e.toId] == b
  {
    if es != [] {
      var n := |es| - 1;
      assert es == es[..n] + [es[n]];
      LocalExactly(owners, es[..n], b, row);
    }
  }

  /** And in the global bucket exactly if it is between cards of two batches, or not between two
      cards. */
  lemma {:induction false} GlobalExactly(owners: map<string, string>, es: seq<Relation>, row: Row)
    requires AllGrounded(owners, es)
    ensures row in Pick(owners, es, None) <==>
      var e := row.relation;
      && e in es
      && if OfCard(e.fromKind) && OfCard(e.toKind)
         then e.fromId in owners && e.toId in owners && owners[e.fromId] != owners[e.toId]
              && row.link == Bridge(owners[e.fromId], owners[e.toId])
         else row.link == Stated
  {
    if es != [] {
      var n := |es| - 1;
      assert es == es[..n] + [es[n]];
      assert Grounded(owners, es[n]);
      GlobalExactly(owners, es[..n], row);
    }
  }

  /** A split is refused exactly for a relation between cards of which one is unknown. */
  lemma GroundedMeans(owners: map<string, string>, es: seq<Relation>)
    ensures !AllGrounded(owners, es) <==>
      exists e :: e in es && OfCard(e.fromKind) && OfCard(e.toKind) && !(e.fromId in owners && e.toId in owners)
  {
    if !AllGrounded(owners, es) {
      var i :| 0 <= i < |es| && !Grounded(owners, es[i]);
      assert es[i] in es;
    }
  }

  lemma {:induction false} PickOrdered(owners: map<string, string>, es: seq<Relation>, h: Option<string>, i: nat, j: nat)
    requires Ordered(es, RelationLe) && i < j < |Pick(owners, es, h)|
    ensures RelationLe(Pick(owners, es, h)[i].relation, Pick(owners, es, h)[j].relation)
  {
    var n := |es| - 1;
    var init := es[..n];
    var rows := Pick(owners, init, h);
    if j < |rows| {
      forall i, j | 0 <= i < j < n ensures InOrder(init, RelationLe, i, j) { assert InOrder(es, RelationLe, i, j); }
      PickOrdered(owners, init, h, i, j);
    } else {
      PickFrom(owners, init, h, rows[i]);
      var k :| 0 <= k < n && init[k] == rows[i].relation;
      assert InOrder(es, RelationLe, k, n);
    }
  }

  lemma {:induction false} PickFrom(owners: map<string, string>, es: seq<Relation>, h: Option<string>, row: Row)
    requires row in Pick(owners, es, h)
    ensures row.relation in es
  {
    var n := |es| - 1;
    if row in Pick(owners, es[..n], h) { PickFrom(owners, es[..n], h, row); }
  }

  lemma RelationOrder()
    ensures TotalPreorder(RelationLe)
  {
    forall a: Relation, b: Relation ensures RelationLe(a, b) || RelationLe(b, a) { TupleLeTotal(SortKey(a), SortKey(b)); }
    forall a: Relation, b: Relation, c: Relation | RelationLe(a, b) && RelationLe(b, c) ensures RelationLe(a, c) {
      TupleLeTrans(SortKey(a), SortKey(b), SortKey(c));
    }
  }

  lemma PairLe(a: string, b: string, x: string, y: string)
    requires TupleLe([a, b], [x, y])
    ensures Le(a, x) && (a == x ==> Le(b, y))
  {
    assert [a, b] == [a] + [b] && [x, y] == [x] + [y];
    HeadLe(a, [b], x, [y]);
    if a == x {
      assert [b] == [b] + [] && [y] == [y] + [];
      HeadLe(b, [], y, []);
    }
  }

  /** By kind, then by the one end, by the other, and by id. */
  lemma RelationLeMeans(a: Relation, b: Relation)
    requires RelationLe(a, b)
    ensures Le(a.kind, b.kind)
    ensures a.kind == b.kind ==> Le(a.fromId, b.fromId)
    ensures a.kind == b.kind && a.fromId == b.fromId ==> Le(a.toId, b.toId)
    ensures a.kind == b.kind && a.fromId == b.fromId && a.toId == b.toId ==> Le(a.id, b.id)
  {
    var p, q := [a.toId, a.id], [b.toId, b.id];
    assert SortKey(a) == [a.kind] + ([a.fromId] + p) && SortKey(b) == [b.kind] + ([b.fromId] + q);
    HeadLe(a.kind, [a.fromId] + p, b.kind, [b.fromId] + q);
    if a.kind == b.kind {
      HeadLe(a.fromId, p, b.fromId, q);
      if a.fromId == b.fromId { PairLe(a.toId, a.id, b.toId, b.id); }
    }
  }

  /** Every bucket is in that order. */
  lemma BucketOrder(doc: Document, owners: map<string, string>, h: Option<string>, i: nat, j: nat)
    requires var rows := Pick(owners, SortBy(doc.relations, RelationLe), h); i < j < |rows|
    ensures var rows := Pick(owners, SortBy(doc.relations, RelationLe), h); RelationLe(rows[i].relation, rows[j].relation)
  {
    RelationOrder();
    SortByOrdered(doc.relations, RelationLe);
    PickOrdered(owners, SortBy(doc.relations, RelationLe), h, i, j);
  }

  // ----- centroids ----------------------------------------------------------------------

  function SumOf(rows: seq<Placed>): Pos {
    if rows == [] then Pos(0.0, 0.0) else SumOf(rows[..|rows| - 1]).Plus(rows[|rows| - 1].at)
  }

  lemma OffsetStep(t: real, s: real, n: nat, a: real, p: real)
    requires t == s - n as real * a
    ensures t + (p - a) == s + p - (n + 1) as real * a
  {
    assert (n + 1) as real == n as real + 1.0;
  }

  lemma SumStep(src: map<string, Pos>, ids: seq<string>, a: Pos, n: nat)
    requires |ids| == n + 1
    ensures SumOf(OffsetsAround(src, ids, a)) == SumOf(OffsetsAround(src, ids[..n], a)).Plus(At(src, ids[n]).Minus(a))
    ensures Sum(src, ids) == Sum(src, ids[..n]).Plus(At(src, ids[n]))
  {
    assert OffsetsAround(src, ids, a)[..n] == OffsetsAround(src, ids[..n], a);
  }

  /** The sum of the offsets, given the sum of the places. */
  ghost predicate Off(t: Pos, s: Pos, n: nat, a: Pos) {
    t.x == s.x - n as real * a.x && t.y == s.y - n as real * a.y
  }

  lemma OffStep(t: Pos, s: Pos, n: nat, a: Pos, p: Pos)
    requires Off(t, s, n, a)
    ensures Off(t.Plus(p.Minus(a)), s.Plus(p), n + 1, a)
  {
    OffsetStep(t.x, s.x, n, a.x, p.x);
    OffsetStep(t.y, s.y, n, a.y, p.y);
  }

  lemma {:induction false} OffsetsSum(src: map<string, Pos>, ids: seq<string>, a: Pos)
    ensures Off(SumOf(OffsetsAround(src, ids, a)), Sum(src, ids), |ids|, a)
  {
    if ids != [] {
      var n := |ids| - 1;
      OffsetsSum(src, ids[..n], a);
      SumStep(src, ids, a, n);
      OffStep(SumOf(OffsetsAround(src, ids[..n], a)), Sum(src, ids[..n]), n, a, At(src, ids[n]));
    }
  }

  lemma Quotient(s: real, n: real, a: real)
    requires n > 0.0
    ensures s - n * a == 0.0 <==> a == s / n
  {
  }

  /** The centroid is the one point around which the offsets of a batch balance. */
  lemma CentroidBalances(src: map<string, Pos>, ids: seq<string>, a: Pos)
    requires ids != []
    ensures SumOf(OffsetsAround(src, ids, a)) == Pos(0.0, 0.0) <==> a == Centroid(src, ids)
  {
    OffsetsSum(src, ids, a);
    BalancedAt(SumOf(OffsetsAround(src, ids, a)), Sum(src, ids), |ids| as real, a, Centroid(src, ids));
  }

  lemma BalancedAt(t: Pos, s: Pos, n: real, a: Pos, m: Pos)
    requires n > 0.0 && t.x == s.x - n * a.x && t.y == s.y - n * a.y && m == Pos(s.x / n, s.y / n)
    ensures t == Pos(0.0, 0.0) <==> a == m
  {
    Quotient(s.x, n, a.x);
    Quotient(s.y, n, a.y);
  }
}
