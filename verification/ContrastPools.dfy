/** The cross-island contrast pools of the association benchmark: which islands are admitted, what
    the pools hold, and how many entries they have. */
module ContrastPools {
  import opened Ordering
  import opened Graphs

  /** Card ids in order, observed islands of several cards, and islands of one card. */
  datatype Source = Source(ids: seq<string>, groups: seq<seq<string>>, singles: seq<string>)

  datatype Island = Multi(index: nat) | Single(index: nat)

  // ----- admission ----------------------------------------------------------------------

  ghost predicate GroupFits(reviewed: set<string>, groups: seq<seq<string>>, k: int) {
    0 <= k < |groups| ==>
      && |groups[k]| >= 2
      && Elems(groups[k]) <= reviewed
      && forall j {:trigger groups[j]} :: 0 <= j < k ==> Elems(groups[j]) !! Elems(groups[k])
  }

  function Grouped(groups: seq<seq<string>>): set<string> {
    if groups == [] then {} else Grouped(groups[..|groups| - 1]) + Elems(groups[|groups| - 1])
  }

  /** Every island is of known cards, no card is in two islands, and every card is in one. */
  ghost predicate Admitted(reviewed: set<string>, groups: seq<seq<string>>, singles: seq<string>) {
    && (forall k {:trigger GroupFits(reviewed, groups, k)} :: GroupFits(reviewed, groups, k))
    && (forall k :: 0 <= k < |singles| ==> singles[k] in reviewed && singles[k] !in Grouped(groups))
    && NoRepeats(singles)
    && reviewed == Grouped(groups) + Elems(singles)
  }

  lemma {:induction false} GroupedHas(groups: seq<seq<string>>, x: string)
    ensures x in Grouped(groups) <==> exists k {:trigger groups[k]} :: 0 <= k < |groups| && x in groups[k]
  {
    if groups != [] {
      var n := |groups| - 1;
      GroupedHas(groups[..n], x);
      if x in Grouped(groups[..n]) {
        var k :| 0 <= k < |groups[..n]| && x in groups[..n][k];
        assert x in groups[k];
      }
      if exists k :: 0 <= k < |groups| && x in groups[k] {
        var k :| 0 <= k < |groups| && x in groups[k];
        if k < n { assert x in groups[..n][k]; }
      }
    }
  }

  /** Apart from all earlier groups is apart from their union. */
  lemma ApartFromEarlier(groups: seq<seq<string>>, k: nat)
    requires k < |groups|
    ensures Grouped(groups[..k]) !! Elems(groups[k]) <==> forall j {:trigger groups[j]} :: 0 <= j < k ==> Elems(groups[j]) !! Elems(groups[k])
  {
    if Grouped(groups[..k]) !! Elems(groups[k]) {
      forall j, x | 0 <= j < k && x in groups[j] ensures x !in groups[k] {
        GroupedHas(groups[..k], x);
        assert groups[..k][j] == groups[j];
      }
    } else {
      var x :| x in Grouped(groups[..k]) && x in Elems(groups[k]);
      GroupedHas(groups[..k], x);
      var j :| 0 <= j < k && x in groups[..k][j];
      assert x in Elems(groups[j]);
    }
  }

  method CheckGroups(reviewed: set<string>, groups: seq<seq<string>>) returns (ok: bool, seen: set<string>)
    ensures ok <==> forall k {:trigger GroupFits(reviewed, groups, k)} :: GroupFits(reviewed, groups, k)
    ensures ok ==> seen == Grouped(groups)
  {
    seen := {};
    var n := 0;
    while n < |groups|
      invariant n <= |groups| && seen == Grouped(groups[..n])
      invariant forall k {:trigger GroupFits(reviewed, groups, k)} :: k < n ==> GroupFits(reviewed, groups, k)
    {
      var g := groups[n];
      ApartFromEarlier(groups, n);
      if |g| < 2 || !(Elems(g) <= reviewed) || !(seen !! Elems(g)) {
        assert !GroupFits(reviewed, groups, n);
        return false, seen;
      }
      assert GroupFits(reviewed, groups, n);
      assert groups[..n + 1][..n] == groups[..n];
      seen := seen + Elems(g);
      n := n + 1;
    }
    assert groups[..n] == groups;
    ok := true;
  }

  method CheckIslands(reviewed: set<string>, groups: seq<seq<string>>, singles: seq<string>) returns (ok: bool)
    ensures ok <==> Admitted(reviewed, groups, singles)
  {
    var fits, seen := CheckGroups(reviewed, groups);
    if !fits {
      return false;
    }
    var n := 0;
    while n < |singles|
      invariant n <= |singles| && NoRepeats(singles[..n])
      invariant forall k :: 0 <= k < n ==> singles[k] in reviewed && singles[k] !in seen
    {
      if singles[n] !in reviewed || singles[n] in seen || singles[n] in singles[..n] {
        if singles[n] in singles[..n] {
          var j :| 0 <= j < n && singles[..n][j] == singles[n];
          assert singles[j] == singles[n];
        }
        return false;
      }
      n := n + 1;
    }
    assert singles[..n] == singles;
    SubsetsFit(reviewed, groups, singles);
    ok := reviewed <= seen + Elems(singles);
  }

  lemma SubsetsFit(reviewed: set<string>, groups: seq<seq<string>>, singles: seq<string>)
    requires forall k {:trigger GroupFits(reviewed, groups, k)} :: GroupFits(reviewed, groups, k)
    requires forall k :: 0 <= k < |singles| ==> singles[k] in reviewed
    ensures Grouped(groups) + Elems(singles) <= reviewed
  {
    forall x | x in Grouped(groups) ensures x in reviewed {
      GroupedHas(groups, x);
      var k :| 0 <= k < |groups| && x in groups[k];
      assert GroupFits(reviewed, groups, k);
      assert x in Elems(groups[k]);
    }
  }

  // ----- the island of a card -----------------------------------------------------------

  function GroupIndex(groups: seq<seq<string>>): map<string, Island> {
    if groups == [] then map[] else
      var n := |groups| - 1;
      GroupIndex(groups[..n]) + map c | c in groups[n] :: Multi(n)
  }

  function SingleIndex(m: map<string, Island>, singles: seq<string>): map<string, Island> {
    if singles == [] then m else
      var n := |singles| - 1;
      SingleIndex(m, singles[..n])[singles[n] := Single(n)]
  }

  function IslandIndex(s: Source): map<string, Island> {
    SingleIndex(GroupIndex(s.groups), s.singles)
  }

  lemma {:induction false} GroupIndexIs(reviewed: set<string>, groups: seq<seq<string>>, x: string, k: nat)
    requires forall k {:trigger GroupFits(reviewed, groups, k)} :: GroupFits(reviewed, groups, k)
    ensures x in GroupIndex(groups) <==> x in Grouped(groups)
    ensures x in GroupIndex(groups) ==> GroupIndex(groups)[x].Multi?
    ensures k < |groups| ==> (x in groups[k] <==> x in GroupIndex(groups) && GroupIndex(groups)[x] == Multi(k))
    ensures k >= |groups| && x in GroupIndex(groups) ==> GroupIndex(groups)[x] != Multi(k)
  {
    if groups != [] {
      var n := |groups| - 1;
      forall j ensures GroupFits(reviewed, groups[..n], j) {
        assert GroupFits(reviewed, groups, j);
      }
      GroupIndexIs(reviewed, groups[..n], x, k);
      assert GroupFits(reviewed, groups, n);
      ApartFromEarlier(groups, n);
      if k < n && x in groups[k] { assert x in Elems(groups[k]) && x !in Elems(groups[n]); }
    }
  }

  lemma {:induction false} SingleIndexIs(m: map<string, Island>, singles: seq<string>, x: string)
    requires NoRepeats(singles)
    ensures x !in singles ==> (x in SingleIndex(m, singles) <==> x in m) && (x in m ==> SingleIndex(m, singles)[x] == m[x])
    ensures forall k :: 0 <= k < |singles| && singles[k] == x ==> x in SingleIndex(m, singles) && SingleIndex(m, singles)[x] == Single(k)
  {
    if singles != [] {
      var n := |singles| - 1;
      assert singles == singles[..n] + [singles[n]];
      SingleIndexIs(m, singles[..n], x);
      forall k | 0 <= k < |singles| && singles[k] == x ensures x in SingleIndex(m, singles) && SingleIndex(m, singles)[x] == Single(k) {
        if k < n { assert singles[..n][k] == x; }
      }
    }
  }

  /** The ids are in order; one can occur several times, as the document's cards may share it. */
  ghost predicate Prepared(s: Source) {
    Ordered(s.ids, Le) && Admitted(Elems(s.ids), s.groups, s.singles)
  }

  /** The index tells a card's island: its group, or its place among the single ones. */
  lemma IslandIs(s: Source, x: string)
    requires Prepared(s)
    ensures x in IslandIndex(s) <==> x in s.ids
    ensures forall k: nat :: k < |s.groups| ==> (x in s.groups[k] <==> x in IslandIndex(s) && IslandIndex(s)[x] == Multi(k))
    ensures forall k: nat :: k < |s.singles| ==> (s.singles[k] == x <==> x in IslandIndex(s) && IslandIndex(s)[x] == Single(k))
    ensures x in IslandIndex(s) ==> match IslandIndex(s)[x] case Multi(k) => k < |s.groups| case Single(k) => k < |s.singles|
  {
    var all := Elems(s.ids);
    SingleIndexIs(GroupIndex(s.groups), s.singles, x);
    assert x in s.ids <==> x in all;
    assert x in s.singles <==> x in Elems(s.singles);
    forall k: nat ensures k < |s.groups| ==> (x in s.groups[k] <==> x in GroupIndex(s.groups) && GroupIndex(s.groups)[x] == Multi(k)) {
      GroupIndexIs(all, s.groups, x, k);
    }
    if x in s.singles {
      var k :| 0 <= k < |s.singles| && s.singles[k] == x;
      GroupIndexIs(all, s.groups, x, 0);
      GroupedHas(s.groups, x);
    } else if x in GroupIndex(s.groups) {
      GroupIndexIs(all, s.groups, x, GroupIndex(s.groups)[x].index);
    } else {
      GroupIndexIs(all, s.groups, x, 0);
    }
  }

  // ----- the pair pool ------------------------------------------------------------------

  function PairsWith(x: string, rest: seq<string>, m: map<string, Island>): seq<(string, string)> {
    if rest == [] then [] else
      var n := |rest| - 1;
      PairsWith(x, rest[..n], m) + if Apart(m, x, rest[n]) then [(x, rest[n])] else []
  }

  predicate Apart(m: map<string, Island>, x: string, y: string) {
    x in m && y in m && m[x] != m[y]
  }

  /** The pairs of cards of different islands, in the order of `itertools.combinations`. */
  function PairPool(ids: seq<string>, m: map<string, Island>): seq<(string, string)> {
    if ids == [] then [] else PairsWith(ids[0], ids[1..], m) + PairPool(ids[1..], m)
  }

  method PairCard(x: string, rest: seq<string>, m: map<string, Island>) returns (r: seq<(string, string)>)
    requires x in m && forall i :: 0 <= i < |rest| ==> rest[i] in m
    ensures r == PairsWith(x, rest, m)
  {
    r := [];
    var j := 0;
    while j < |rest|
      invariant j <= |rest| && r == PairsWith(x, rest[..j], m)
    {
      assert rest[..j + 1][..j] == rest[..j];
      if m[x] != m[rest[j]] {
        r := r + [(x, rest[j])];
      }
      j := j + 1;
    }
    assert rest[..j] == rest;
  }

  lemma PairPoolStep(done: seq<(string, string)>, ids: seq<string>, i: nat, m: map<string, Island>)
    requires i < |ids|
    ensures done + PairPool(ids[i..], m) == (done + PairsWith(ids[i], ids[i + 1..], m)) + PairPool(ids[i + 1..], m)
  {
    assert ids[i..][1..] == ids[i + 1..];
  }

  method DerivePairPool(s: Source) returns (r: seq<(string, string)>)
    requires Prepared(s)
    ensures r == PairPool(s.ids, IslandIndex(s))
  {
    var m := IslandIndex(s);
    forall k | 0 <= k < |s.ids| ensures s.ids[k] in m { IslandIs(s, s.ids[k]); }
    r := [];
    var i := 0;
    while i < |s.ids|
      invariant i <= |s.ids| && r + PairPool(s.ids[i..], m) == PairPool(s.ids, m)
    {
      PairPoolStep(r, s.ids, i, m);
      var ps := PairCard(s.ids[i], s.ids[i + 1..], m);
      r := r + ps;
      i := i + 1;
    }
    assert r + [] == r;
  }

  // ----- counting -----------------------------------------------------------------------

  /** The number of pairs of `n` things. */
  function Choose2(n: nat): nat {
    if n == 0 then 0 else Choose2(n - 1) + (n - 1)
  }

  function Count(ids: seq<string>, m: map<string, Island>, l: Island): nat {
    if ids == [] then 0 else (if ids[0] in m && m[ids[0]] == l then 1 else 0) + Count(ids[1..], m, l)
  }

  function SamePairs(ls: seq<Island>, ids: seq<string>, m: map<string, Island>): nat {
    if ls == [] then 0 else SamePairs(ls[..|ls| - 1], ids, m) + Choose2(Count(ids, m, ls[|ls| - 1]))
  }

  predicate DistinctIslands(ls: seq<Island>) {
    forall i, j :: 0 <= i < j < |ls| ==> ls[i] != ls[j]
  }

  lemma {:induction false} CountLast(ids: seq<string>, m: map<string, Island>, l: Island)
    requires ids != []
    ensures var n := |ids| - 1; Count(ids, m, l) == Count(ids[..n], m, l) + if ids[n] in m && m[ids[n]] == l then 1 else 0
  {
    var n := |ids| - 1;
    if n == 0 {
      assert ids[1..] == [] && ids[..n] == [];
    } else {
      CountLast(ids[1..], m, l);
      assert ids[1..][..n - 1] == ids[..n][1..];
    }
  }

  /** A card pairs with all later cards but those of its own island. */
  lemma {:induction false} PairsWithSize(x: string, rest: seq<string>, m: map<string, Island>)
    requires x in m && forall i :: 0 <= i < |rest| ==> rest[i] in m
    ensures |PairsWith(x, rest, m)| + Count(rest, m, m[x]) == |rest|
  {
    if rest != [] {
      PairsWithSize(x, rest[..|rest| - 1], m);
      CountLast(rest, m, m[x]);
    }
  }

  /** A card more adds a pair to its island for every other card of it, and none elsewhere. */
  lemma {:induction false} SamePairsStep(ls: seq<Island>, ids: seq<string>, m: map<string, Island>)
    requires ids != [] && ids[0] in m && DistinctIslands(ls)
    ensures SamePairs(ls, ids, m) == SamePairs(ls, ids[1..], m) + if m[ids[0]] in ls then Count(ids[1..], m, m[ids[0]]) else 0
  {
    if ls != [] {
      var n := |ls| - 1;
      assert ls == ls[..n] + [ls[n]];
      SamePairsStep(ls[..n], ids, m);
      if m[ids[0]] == ls[n] { assert ls[n] !in ls[..n]; }
    }
  }

  lemma PoolSizeStep(ids: seq<string>, m: map<string, Island>)
    requires ids != []
    ensures |PairPool(ids, m)| == |PairsWith(ids[0], ids[1..], m)| + |PairPool(ids[1..], m)|
  {
  }

  /** Cross pairs and same-island pairs are all pairs. */
  lemma {:induction false} PairsSplit(ls: seq<Island>, ids: seq<string>, m: map<string, Island>)
    requires DistinctIslands(ls) && forall i :: 0 <= i < |ids| ==> ids[i] in m && m[ids[i]] in ls
    ensures |PairPool(ids, m)| + SamePairs(ls, ids, m) == Choose2(|ids|)
  {
    if ids == [] {
      NoSamePairs(ls, m);
    } else {
      var rest := ids[1..];
      PairsSplit(ls, rest, m);
      PairsWithSize(ids[0], rest, m);
      SamePairsStep(ls, ids, m);
      PoolSizeStep(ids, m);
      assert Choose2(|ids|) == Choose2(|rest|) + |rest|;
    }
  }

  lemma {:induction false} NoSamePairs(ls: seq<Island>, m: map<string, Island>)
    ensures SamePairs(ls, [], m) == 0
  {
    if ls != [] { NoSamePairs(ls[..|ls| - 1], m); }
  }

  function CardsOf(ids: seq<string>, m: map<string, Island>, l: Island): set<string> {
    set x | x in ids && x in m && m[x] == l
  }

  lemma CardsOfStep(ids: seq<string>, m: map<string, Island>, l: Island)
    requires ids != []
    ensures CardsOf(ids, m, l) == (if ids[0] in m && m[ids[0]] == l then {ids[0]} else {}) + CardsOf(ids[1..], m, l)
  {
    assert ids == [ids[0]] + ids[1..];
  }

  lemma {:induction false} CountIsCard(ids: seq<string>, m: map<string, Island>, l: Island)
    requires NoRepeats(ids)
    ensures Count(ids, m, l) == |CardsOf(ids, m, l)|
  {
    if ids != [] {
      CountIsCard(ids[1..], m, l);
      CardsOfStep(ids, m, l);
      assert ids[0] !in CardsOf(ids[1..], m, l);
    }
  }

  function Multis(n: nat): seq<Island> { seq(n, (k: nat) => Multi(k)) }

  function Singles(n: nat): seq<Island> { seq(n, (k: nat) => Single(k)) }

  /** The pairs inside the groups. */
  function GroupPairs(groups: seq<seq<string>>): nat {
    if groups == [] then 0 else GroupPairs(groups[..|groups| - 1]) + Choose2(|Elems(groups[|groups| - 1])|)
  }

  lemma GroupCount(s: Source, k: nat)
    requires Prepared(s) && NoRepeats(s.ids) && k < |s.groups|
    ensures Count(s.ids, IslandIndex(s), Multi(k)) == |Elems(s.groups[k])|
  {
    var m := IslandIndex(s);
    CountIsCard(s.ids, m, Multi(k));
    forall x ensures x in s.ids && x in m && m[x] == Multi(k) <==> x in Elems(s.groups[k]) { IslandIs(s, x); }
    assert CardsOf(s.ids, m, Multi(k)) == Elems(s.groups[k]);
  }

  lemma SingleCount(s: Source, k: nat)
    requires Prepared(s) && NoRepeats(s.ids) && k < |s.singles|
    ensures Count(s.ids, IslandIndex(s), Single(k)) == 1
  {
    var m := IslandIndex(s);
    CountIsCard(s.ids, m, Single(k));
    forall x ensures x in s.ids && x in m && m[x] == Single(k) <==> x == s.singles[k] { IslandIs(s, x); }
    assert CardsOf(s.ids, m, Single(k)) == {s.singles[k]};
  }

  lemma {:induction false} MultiPairs(s: Source, n: nat)
    requires Prepared(s) && NoRepeats(s.ids) && n <= |s.groups|
    ensures SamePairs(Multis(n), s.ids, IslandIndex(s)) == GroupPairs(s.groups[..n])
  {
    if n > 0 {
      MultiPairs(s, n - 1);
      GroupCount(s, n - 1);
      assert Multis(n)[..n - 1] == Multis(n - 1);
      assert s.groups[..n][..n - 1] == s.groups[..n - 1];
    }
  }

  lemma SamePairsLast(ls: seq<Island>, l: Island, ids: seq<string>, m: map<string, Island>)
    ensures SamePairs(ls + [l], ids, m) == SamePairs(ls, ids, m) + Choose2(Count(ids, m, l))
  {
    assert (ls + [l])[..|ls|] == ls;
  }

  lemma SinglesStep(a: nat, n: nat)
    requires n > 0
    ensures Multis(a) + Singles(n) == (Multis(a) + Singles(n - 1)) + [Single(n - 1)]
  {
  }

  lemma {:induction false} SinglesPairNothing(a: nat, n: nat, ids: seq<string>, m: map<string, Island>)
    requires forall k: nat :: k < n ==> Count(ids, m, Single(k)) == 1
    ensures SamePairs(Multis(a) + Singles(n), ids, m) == SamePairs(Multis(a), ids, m)
  {
    if n == 0 {
      assert Multis(a) + Singles(0) == Multis(a);
    } else {
      SinglesPairNothing(a, n - 1, ids, m);
      SinglesStep(a, n);
      SamePairsLast(Multis(a) + Singles(n - 1), Single(n - 1), ids, m);
      assert Choose2(1) == 0;
    }
  }

  /** All islands: the groups, then the single ones. */
  function AllIslands(s: Source): seq<Island> { Multis(|s.groups|) + Singles(|s.singles|) }

  lemma AllPairs(s: Source)
    requires Prepared(s) && NoRepeats(s.ids)
    ensures SamePairs(AllIslands(s), s.ids, IslandIndex(s)) == GroupPairs(s.groups)
  {
    MultiPairs(s, |s.groups|);
    assert s.groups[..|s.groups|] == s.groups;
    forall k: nat | k < |s.singles| ensures Count(s.ids, IslandIndex(s), Single(k)) == 1 { SingleCount(s, k); }
    SinglesPairNothing(|s.groups|, |s.singles|, s.ids, IslandIndex(s));
  }

  /** The pair pool has all pairs of entries but those inside the islands. */
  lemma PairPoolSplit(s: Source)
    requires Prepared(s)
    ensures |PairPool(s.ids, IslandIndex(s))| == Choose2(|s.ids|) - SamePairs(AllIslands(s), s.ids, IslandIndex(s))
  {
    var m, ls := IslandIndex(s), AllIslands(s);
    forall i | 0 <= i < |s.ids| ensures s.ids[i] in m && m[s.ids[i]] in ls {
      IslandIs(s, s.ids[i]);
      var l := m[s.ids[i]];
      assert l == ls[if l.Multi? then l.index else |s.groups| + l.index];
    }
    PairsSplit(ls, s.ids, m);
  }

  /** With distinct cards these are the pairs inside the groups. */
  lemma PairPoolSize(s: Source)
    requires Prepared(s) && NoRepeats(s.ids)
    ensures |PairPool(s.ids, IslandIndex(s))| == Choose2(|s.ids|) - GroupPairs(s.groups)
  {
    PairPoolSplit(s);
    AllPairs(s);
  }

  // ----- the pool of a pair and an outsider ---------------------------------------------

  function Combinations(g: seq<string>): seq<(string, string)> {
    if g == [] then [] else PairUp(g[0], g[1..]) + Combinations(g[1..])
  }

  function PairUp(x: string, rest: seq<string>): (r: seq<(string, string)>)
    ensures |r| == |rest| && forall i :: 0 <= i < |rest| ==> r[i] == (x, rest[i])
  {
    seq(|rest|, i requires 0 <= i < |rest| => (x, rest[i]))
  }

  lemma {:induction false} CombinationsSize(g: seq<string>)
    ensures |Combinations(g)| == Choose2(|g|)
  {
    if g != [] { CombinationsSize(g[1..]); }
  }

  function WithOutsiders(p: (string, string), outsiders: seq<string>): (r: seq<(string, string, string)>)
    ensures |r| == |outsiders| && forall i :: 0 <= i < |outsiders| ==> r[i] == (p.0, p.1, outsiders[i])
  {
    seq(|outsiders|, i requires 0 <= i < |outsiders| => (p.0, p.1, outsiders[i]))
  }

  function Product(ps: seq<(string, string)>, outsiders: seq<string>): seq<(string, string, string)> {
    if ps == [] then [] else Product(ps[..|ps| - 1], outsiders) + WithOutsiders(ps[|ps| - 1], outsiders)
  }

  function Outsiders(ids: seq<string>, g: seq<string>): seq<string> {
    Sorted(Elems(ids) - Elems(g))
  }

  /** A group's pairs, each with every card outside it. */
  function GroupPool(ids: seq<string>, g: seq<string>): seq<(string, string, string)> {
    Product(Combinations(SortBy(g, Le)), Outsiders(ids, g))
  }

  function TriplePool(ids: seq<string>, groups: seq<seq<string>>): seq<(string, string, string)> {
    if groups == [] then [] else
      TriplePool(ids, groups[..|groups| - 1]) + GroupPool(ids, groups[|groups| - 1])
  }

  method DeriveGroupPool(pairs: seq<(string, string)>, outsiders: seq<string>) returns (r: seq<(string, string, string)>)
    ensures r == Product(pairs, outsiders)
  {
    r := [];
    var i := 0;
    while i < |pairs|
      invariant i <= |pairs| && r == Product(pairs[..i], outsiders)
    {
      var row := [];
      var k := 0;
      while k < |outsiders|
        invariant k <= |outsiders| && row == WithOutsiders(pairs[i], outsiders)[..k]
      {
        row := row + [(pairs[i].0, pairs[i].1, outsiders[k])];
        k := k + 1;
      }
      assert pairs[..i + 1][..i] == pairs[..i];
      r := r + row;
      i := i + 1;
    }
    assert pairs[..i] == pairs;
  }

  lemma TripleAppend(ids: seq<string>, groups: seq<seq<string>>, n: nat)
    requires n < |groups|
    ensures TriplePool(ids, groups[..n + 1]) == TriplePool(ids, groups[..n]) + GroupPool(ids, groups[n])
  {
    assert groups[..n + 1][..n] == groups[..n];
  }

  method DeriveTwoPlusOnePool(s: Source) returns (r: seq<(string, string, string)>)
    ensures r == TriplePool(s.ids, s.groups)
  {
    r := [];
    var n := 0;
    while n < |s.groups|
      invariant n <= |s.groups| && r == TriplePool(s.ids, s.groups[..n])
    {
      var g := s.groups[n];
      var entries := DeriveGroupPool(Combinations(SortBy(g, Le)), Outsiders(s.ids, g));
      TripleAppend(s.ids, s.groups, n);
      r := r + entries;
      n := n + 1;
    }
    assert s.groups[..n] == s.groups;
  }

  lemma TimesStep(a: nat, b: nat)
    requires a > 0
    ensures a * b == (a - 1) * b + b
  {
  }

  lemma {:induction false} ProductSize(ps: seq<(string, string)>, outsiders: seq<string>)
    ensures |Product(ps, outsiders)| == |ps| * |outsiders|
  {
    if ps != [] {
      ProductSize(ps[..|ps| - 1], outsiders);
      TimesStep(|ps|, |outsiders|);
    }
  }

  /** The pairs of a group times the cards outside it. */
  function Entries(n: nat, g: seq<string>): int {
    Choose2(|g|) * (n - |Elems(g)|)
  }

  function TripleCount(n: nat, groups: seq<seq<string>>): int {
    if groups == [] then 0 else TripleCount(n, groups[..|groups| - 1]) + Entries(n, groups[|groups| - 1])
  }

  lemma TripleStep(ids: seq<string>, groups: seq<seq<string>>)
    requires groups != []
    ensures var init, g := groups[..|groups| - 1], groups[|groups| - 1];
            && |TriplePool(ids, groups)| == |TriplePool(ids, init)| + |GroupPool(ids, g)|
            && TripleCount(|Elems(ids)|, groups) == TripleCount(|Elems(ids)|, init) + Entries(|Elems(ids)|, g)
  {
  }

  lemma SortedSize(g: seq<string>)
    ensures |SortBy(g, Le)| == |g|
  {
    SameElements(SortBy(g, Le), g);
  }

  lemma OutsidersSize(ids: seq<string>, g: seq<string>)
    requires Elems(g) <= Elems(ids)
    ensures |Outsiders(ids, g)| == |Elems(ids)| - |Elems(g)|
  {
    assert Elems(ids) == Elems(g) + (Elems(ids) - Elems(g));
  }

  lemma GroupPoolSize(ids: seq<string>, g: seq<string>)
    requires Elems(g) <= Elems(ids)
    ensures |GroupPool(ids, g)| == Entries(|Elems(ids)|, g)
  {
    SortedSize(g);
    OutsidersSize(ids, g);
    CombinationsSize(SortBy(g, Le));
    ProductSize(Combinations(SortBy(g, Le)), Outsiders(ids, g));
  }

  /** The pool has, for every group, as many entries as it has pairs times the cards outside. */
  lemma {:induction false} TriplePoolSize(ids: seq<string>, groups: seq<seq<string>>)
    requires forall k :: 0 <= k < |groups| ==> Elems(groups[k]) <= Elems(ids)
    ensures |TriplePool(ids, groups)| == TripleCount(|Elems(ids)|, groups)
  {
    if groups != [] {
      var n := |groups| - 1;
      TriplePoolSize(ids, groups[..n]);
      GroupPoolSize(ids, groups[n]);
      TripleStep(ids, groups);
    }
  }

  // ----- what the pools hold ------------------------------------------------------------

  lemma OrderedTail(s: seq<string>)
    requires Ordered(s, Le) && s != []
    ensures Ordered(s[1..], Le) && forall y :: y in s[1..] ==> Le(s[0], y)
  {
    var t := s[1..];
    forall i, j | 0 <= i < j < |t| ensures InOrder(t, Le, i, j) { assert InOrder(s, Le, i + 1, j + 1); }
    forall y | y in t ensures Le(s[0], y) {
      var j :| 0 <= j < |t| && t[j] == y;
      assert InOrder(s, Le, 0, j + 1);
    }
  }

  lemma CountHead(s: seq<string>, x: string)
    requires s != []
    ensures multiset(s)[x] == multiset(s[1..])[x] + if s[0] == x then 1 else 0
  {
    assert s == [s[0]] + s[1..];
  }

  lemma CountEnd<T>(s: seq<T>, e: T, x: T)
    ensures multiset(s + [e])[x] == multiset(s)[x] + if e == x then 1 else 0
  {
  }

  lemma {:induction false} PairsWithCount(x: string, rest: seq<string>, m: map<string, Island>, p: (string, string))
    ensures multiset(PairsWith(x, rest, m))[p] == if p.0 == x && Apart(m, x, p.1) then multiset(rest)[p.1] else 0
  {
    if rest != [] {
      var n := |rest| - 1;
      PairsWithCount(x, rest[..n], m, p);
      assert rest == rest[..n] + [rest[n]];
      CountEnd(rest[..n], rest[n], p.1);
      if Apart(m, x, rest[n]) {
        CountEnd(PairsWith(x, rest[..n], m), (x, rest[n]), p);
      } else {
        assert PairsWith(x, rest[..n], m) + [] == PairsWith(x, rest[..n], m);
      }
    }
  }

  /** How often two cards are paired when the smaller one is put first. */
  function Meetings(ids: seq<string>, x: string, y: string): nat {
    if Lt(x, y) then multiset(ids)[x] * multiset(ids)[y] else 0
  }

  lemma MeetingsHead(ids: seq<string>, x: string, y: string)
    requires Ordered(ids, Le) && ids != [] && x != y
    ensures Meetings(ids, x, y) == Meetings(ids[1..], x, y) + if ids[0] == x then multiset(ids[1..])[y] else 0
  {
    var h, rest := ids[0], ids[1..];
    OrderedTail(ids);
    CountHead(ids, x);
    CountHead(ids, y);
    if h == y && Lt(x, y) && x in rest { LeAntisym(x, y); }
    assert x in rest <==> multiset(rest)[x] > 0;
    assert y in rest <==> multiset(rest)[y] > 0;
    Distribute(multiset(rest)[x], multiset(rest)[y]);
  }

  lemma Distribute(a: nat, b: nat)
    ensures (a + 1) * b == a * b + b && a * (b + 1) == a * b + a
  {
  }

  /** A pair of different islands is in the pool, the smaller card first, once for every way to
      choose the two entries; other pairs are not. */
  lemma {:induction false} PairPoolCount(ids: seq<string>, m: map<string, Island>, x: string, y: string)
    requires Ordered(ids, Le)
    ensures multiset(PairPool(ids, m))[(x, y)] == if Apart(m, x, y) then Meetings(ids, x, y) else 0
  {
    if ids != [] {
      var h, rest := ids[0], ids[1..];
      OrderedTail(ids);
      PairPoolCount(rest, m, x, y);
      PairsWithCount(h, rest, m, (x, y));
      if Apart(m, x, y) { MeetingsHead(ids, x, y); }
    }
  }

  lemma TimesPositive(a: nat, b: nat)
    ensures a * b > 0 <==> a > 0 && b > 0
    ensures a > 0 && b > 0 ==> (a * b <= 1 <==> a == 1 && b == 1)
  {
    if a > 1 && b > 0 { assert a * b >= 2 * b; }
    if a > 0 && b > 1 { assert a * b >= a * 2; }
  }

  /** The pair pool holds the pairs of different islands, the smaller card first. */
  lemma PairPoolExact(ids: seq<string>, m: map<string, Island>, x: string, y: string)
    requires Ordered(ids, Le)
    ensures (x, y) in PairPool(ids, m) <==> x in ids && y in ids && Lt(x, y) && Apart(m, x, y)
  {
    PairPoolCount(ids, m, x, y);
    TimesPositive(multiset(ids)[x], multiset(ids)[y]);
    assert (x, y) in PairPool(ids, m) <==> (x, y) in multiset(PairPool(ids, m));
    assert x in ids <==> x in multiset(ids);
    assert y in ids <==> y in multiset(ids);
  }

  predicate Distinct<T(==)>(s: seq<T>) {
    forall i, j :: 0 <= i < j < |s| ==> s[i] != s[j]
  }

  lemma DistinctByCount<T(!new)>(s: seq<T>)
    ensures Distinct(s) <==> forall x :: multiset(s)[x] <= 1
  {
    if Distinct(s) {
      forall x ensures multiset(s)[x] <= 1 { CountAtMostOne(s, x); }
    } else {
      var i, j :| 0 <= i < j < |s| && s[i] == s[j];
      CountAtLeastTwo(s, i, j);
    }
  }

  ghost predicate ListedOnce(ids: seq<string>, m: map<string, Island>, x: string, y: string) {
    x in ids && y in ids && Apart(m, x, y) ==> multiset(ids)[x] == 1
  }

  /** No pair is in the pool twice, exactly if every card that has a pair is listed once. */
  lemma PairPoolOnce(ids: seq<string>, m: map<string, Island>)
    requires Ordered(ids, Le)
    ensures Distinct(PairPool(ids, m)) <==> forall x, y {:trigger ListedOnce(ids, m, x, y)} :: ListedOnce(ids, m, x, y)
  {
    var pool := PairPool(ids, m);
    DistinctByCount(pool);
    if forall x, y :: ListedOnce(ids, m, x, y) {
      forall p: (string, string) ensures multiset(pool)[p] <= 1 {
        var (x, y) := p;
        PairPoolCount(ids, m, x, y);
        assert ListedOnce(ids, m, x, y) && ListedOnce(ids, m, y, x);
        TimesPositive(multiset(ids)[x], multiset(ids)[y]);
        assert x in ids <==> x in multiset(ids);
        assert y in ids <==> y in multiset(ids);
      }
    } else {
      var x, y :| !ListedOnce(ids, m, x, y);
      PairedTwice(ids, m, x, y);
    }
  }

  lemma PairedTwice(ids: seq<string>, m: map<string, Island>, x: string, y: string)
    requires Ordered(ids, Le) && !ListedOnce(ids, m, x, y)
    ensures exists p :: multiset(PairPool(ids, m))[p] > 1
  {
    LeTotal(x, y);
    var p := if Lt(x, y) then (x, y) else (y, x);
    PairPoolCount(ids, m, p.0, p.1);
    TimesPositive(multiset(ids)[p.0], multiset(ids)[p.1]);
    assert x in multiset(ids) && y in multiset(ids);
  }

  lemma {:induction false} PairUpCount(x: string, rest: seq<string>, p: (string, string))
    ensures multiset(PairUp(x, rest))[p] == if p.0 == x then multiset(rest)[p.1] else 0
  {
    if rest != [] {
      var n := |rest| - 1;
      PairUpCount(x, rest[..n], p);
      assert rest == rest[..n] + [rest[n]];
      CountEnd(rest[..n], rest[n], p.1);
      assert PairUp(x, rest) == PairUp(x, rest[..n]) + [(x, rest[n])];
      CountEnd(PairUp(x, rest[..n]), (x, rest[n]), p);
    }
  }

  /** How often a pair is chosen from a group in order: a card listed several times also meets
      itself. */
  function Chosen(g: seq<string>, x: string, y: string): nat {
    if x == y then Choose2(multiset(g)[x]) else Meetings(g, x, y)
  }

  lemma {:induction false} CombinationsCount(g: seq<string>, x: string, y: string)
    requires Ordered(g, Le)
    ensures multiset(Combinations(g))[(x, y)] == Chosen(g, x, y)
  {
    if g != [] {
      var h, rest := g[0], g[1..];
      OrderedTail(g);
      CombinationsCount(rest, x, y);
      PairUpCount(h, rest, (x, y));
      if x == y { CountHead(g, x); } else { MeetingsHead(g, x, y); }
    }
  }

  lemma {:induction false} WithCount(p: (string, string), outsiders: seq<string>, t: (string, string, string))
    ensures multiset(WithOutsiders(p, outsiders))[t] == if (t.0, t.1) == p then multiset(outsiders)[t.2] else 0
  {
    if outsiders != [] {
      var n := |outsiders| - 1;
      WithCount(p, outsiders[..n], t);
      assert outsiders == outsiders[..n] + [outsiders[n]];
      CountEnd(outsiders[..n], outsiders[n], t.2);
      assert WithOutsiders(p, outsiders) == WithOutsiders(p, outsiders[..n]) + [(p.0, p.1, outsiders[n])];
      CountEnd(WithOutsiders(p, outsiders[..n]), (p.0, p.1, outsiders[n]), t);
    }
  }

  lemma {:induction false} ProductCount(ps: seq<(string, string)>, outsiders: seq<string>, t: (string, string, string))
    ensures multiset(Product(ps, outsiders))[t] == multiset(ps)[(t.0, t.1)] * multiset(outsiders)[t.2]
  {
    if ps != [] {
      var n := |ps| - 1;
      ProductCount(ps[..n], outsiders, t);
      WithCount(ps[n], outsiders, t);
      assert ps == ps[..n] + [ps[n]];
      CountEnd(ps[..n], ps[n], (t.0, t.1));
      Distribute(multiset(ps[..n])[(t.0, t.1)], multiset(outsiders)[t.2]);
    }
  }

  lemma OutsiderOnce(ids: seq<string>, g: seq<string>, z: string)
    ensures multiset(Outsiders(ids, g))[z] == if z in ids && z !in g then 1 else 0
  {
    var out := Outsiders(ids, g);
    AscendingDistinct(out);
    CountAtMostOne(out, z);
    assert z in out <==> z in multiset(out);
    assert z in Elems(ids) <==> z in ids;
    assert z in Elems(g) <==> z in g;
  }

  /** An entry of a group's pool occurs once for every way to choose its pair from the group. */
  lemma GroupPoolCount(ids: seq<string>, g: seq<string>, x: string, y: string, z: string)
    ensures multiset(GroupPool(ids, g))[(x, y, z)] == if z in ids && z !in g then Chosen(g, x, y) else 0
  {
    var sorted := SortBy(g, Le);
    StringOrder();
    SortByOrdered(g, Le);
    var ps, out := multiset(Combinations(sorted))[(x, y)], multiset(Outsiders(ids, g))[z];
    ProductCount(Combinations(sorted), Outsiders(ids, g), (x, y, z));
    assert multiset(GroupPool(ids, g))[(x, y, z)] == ps * out;
    CombinationsCount(sorted, x, y);
    assert ps == Chosen(g, x, y);
    OutsiderOnce(ids, g, z);
    assert out == 0 || out == 1;
  }

  /** The pairs a group yields: two of its cards, the smaller first, or one card listed twice. */
  predicate Pairs(g: seq<string>, x: string, y: string) {
    x in g && y in g && if x == y then multiset(g)[x] >= 2 else Lt(x, y)
  }

  lemma ChosenExact(g: seq<string>, x: string, y: string)
    ensures Chosen(g, x, y) > 0 <==> Pairs(g, x, y)
  {
    assert x in g <==> x in multiset(g);
    assert y in g <==> y in multiset(g);
    TimesPositive(multiset(g)[x], multiset(g)[y]);
    if x == y && multiset(g)[x] >= 2 { assert Choose2(multiset(g)[x]) >= 1; }
  }

  /** A group gives its pairs with every card outside it. */
  lemma GroupPoolExact(ids: seq<string>, g: seq<string>, x: string, y: string, z: string)
    ensures (x, y, z) in GroupPool(ids, g) <==> Pairs(g, x, y) && z in ids && z !in g
  {
    GroupPoolCount(ids, g, x, y, z);
    ChosenExact(g, x, y);
    assert (x, y, z) in GroupPool(ids, g) <==> (x, y, z) in multiset(GroupPool(ids, g));
  }

  /** A card is paired with itself exactly if the group lists it twice and there is an outsider. */
  lemma SelfPairedExactly(ids: seq<string>, g: seq<string>, x: string, z: string)
    ensures (x, x, z) in GroupPool(ids, g) <==> multiset(g)[x] >= 2 && z in ids && z !in g
  {
    GroupPoolExact(ids, g, x, x, z);
    assert x in g <==> x in multiset(g);
  }

  /** A card listed twice in a group is admitted, and paired with itself. */
  lemma RepeatedCardPaired(x: string, z: string)
    requires x != z
    ensures Admitted({x, z}, [[x, x]], [z]) && (x, x, z) in GroupPool([x, z], [x, x])
  {
    var groups := [[x, x]];
    assert Elems([x, x]) == {x} && Elems([z]) == {z};
    assert Grouped(groups) == {x} by { assert groups[..0] == []; }
    forall k ensures GroupFits({x, z}, groups, k) { }
    assert multiset([x, x])[x] == 2;
    SelfPairedExactly([x, z], [x, x], x, z);
  }

  /** The whole pool holds what the groups give. */
  lemma {:induction false} TriplePoolExact(ids: seq<string>, groups: seq<seq<string>>, x: string, y: string, z: string)
    ensures (x, y, z) in TriplePool(ids, groups)
       <==> z in ids && exists k :: Gives(groups, k, x, y, z)
  {
    if groups != [] {
      var n := |groups| - 1;
      var init := groups[..n];
      TriplePoolExact(ids, init, x, y, z);
      GroupPoolExact(ids, groups[n], x, y, z);
      forall k | k < n ensures Gives(init, k, x, y, z) <==> Gives(groups, k, x, y, z) { }
      assert Gives(groups, n, x, y, z) <==> Pairs(groups[n], x, y) && z !in groups[n];
      assert forall k :: Gives(init, k, x, y, z) ==> k < n;
      assert forall k :: Gives(groups, k, x, y, z) ==> k <= n;
      if k :| Gives(init, k, x, y, z) { assert Gives(groups, k, x, y, z); }
      if k :| Gives(groups, k, x, y, z) { assert k < n ==> Gives(init, k, x, y, z); }
    }
  }

  predicate Gives(groups: seq<seq<string>>, k: int, x: string, y: string, z: string) {
    0 <= k < |groups| && Pairs(groups[k], x, y) && z !in groups[k]
  }

  /** No entry comes twice from a group of distinct cards, from a group of two, or from one without
      outsiders. */
  predicate Clean(ids: seq<string>, g: seq<string>) {
    Elems(ids) <= Elems(g) || NoRepeats(g) || |g| <= 2
  }

  lemma {:induction false} CountWithin(s: seq<string>, x: string, y: string)
    requires x != y
    ensures multiset(s)[x] + multiset(s)[y] <= |s|
  {
    if s != [] {
      CountWithin(s[1..], x, y);
      CountHead(s, x);
      CountHead(s, y);
    }
  }

  lemma {:induction false} CountAtMost(s: seq<string>, x: string)
    ensures multiset(s)[x] <= |s|
  {
    if s != [] {
      CountAtMost(s[1..], x);
      CountHead(s, x);
    }
  }

  lemma ChosenOnce(g: seq<string>, x: string, y: string)
    requires NoRepeats(g) || |g| <= 2
    ensures Chosen(g, x, y) <= 1
  {
    if NoRepeats(g) {
      CountAtMostOne(g, x);
      CountAtMostOne(g, y);
    } else if x == y {
      CountAtMost(g, x);
      assert Choose2(2) == 1;
    } else {
      CountWithin(g, x, y);
    }
    TimesPositive(multiset(g)[x], multiset(g)[y]);
  }

  lemma OtherEntry(g: seq<string>, x: string) returns (y: string)
    requires |g| > 2 && multiset(g)[x] == 2
    ensures y in g && y != x
  {
    if forall i :: 0 <= i < |g| ==> g[i] == x {
      AllSame(g, x);
      assert false;
    }
    var i :| 0 <= i < |g| && g[i] != x;
    y := g[i];
  }

  lemma {:induction false} AllSame(g: seq<string>, x: string)
    requires forall i :: 0 <= i < |g| ==> g[i] == x
    ensures multiset(g)[x] == |g|
  {
    if g != [] {
      AllSame(g[1..], x);
      CountHead(g, x);
    }
  }

  /** A longer group with a repeated card yields some pair twice. */
  lemma ChosenTwice(g: seq<string>) returns (x: string, y: string)
    requires !NoRepeats(g) && |g| > 2
    ensures Chosen(g, x, y) >= 2
  {
    var i, j :| 0 <= i < j < |g| && g[i] == g[j];
    CountAtLeastTwo(g, i, j);
    x, y := g[i], g[i];
    if multiset(g)[x] == 2 {
      var other := OtherEntry(g, x);
      LeTotal(x, other);
      y := other;
      if !Lt(x, y) { x, y := other, x; }
      assert x in multiset(g) && y in multiset(g);
      TimesPositive(multiset(g)[x], multiset(g)[y]);
    } else {
      assert Choose2(3) == 3;
      Choose2Grows(3, multiset(g)[x]);
    }
  }

  lemma {:induction false} Choose2Grows(a: nat, b: nat)
    requires a <= b
    ensures Choose2(a) <= Choose2(b)
  {
    if a < b { Choose2Grows(a, b - 1); }
  }

  lemma GroupPoolOnce(ids: seq<string>, g: seq<string>)
    ensures Distinct(GroupPool(ids, g)) <==> Clean(ids, g)
  {
    var pool := GroupPool(ids, g);
    DistinctByCount(pool);
    if Clean(ids, g) {
      forall t: (string, string, string) ensures multiset(pool)[t] <= 1 {
        GroupPoolCount(ids, g, t.0, t.1, t.2);
        if t.2 in ids && t.2 !in g {
          assert t.2 in Elems(ids) && t.2 !in Elems(g);
          ChosenOnce(g, t.0, t.1);
        }
      }
    } else {
      var z :| z in Elems(ids) && z !in Elems(g);
      var x, y := ChosenTwice(g);
      GroupPoolCount(ids, g, x, y, z);
    }
  }

  lemma DistinctJoin<T>(a: seq<T>, b: seq<T>)
    ensures Distinct(a + b) <==> Distinct(a) && Distinct(b) && forall x :: x in a ==> x !in b
  {
    var c := a + b;
    if Distinct(c) {
      forall i, j | 0 <= i < j < |a| ensures a[i] != a[j] { assert c[i] != c[j]; }
      forall i, j | 0 <= i < j < |b| ensures b[i] != b[j] { assert c[|a| + i] != c[|a| + j]; }
      forall x | x in a ensures x !in b {
        var i :| 0 <= i < |a| && a[i] == x;
        forall j | 0 <= j < |b| ensures b[j] != x { assert c[i] != c[|a| + j]; }
      }
    } else if Distinct(a) && Distinct(b) {
      var i, j :| 0 <= i < j < |c| && c[i] == c[j];
      assert c[i] in a && c[j] in b;
    }
  }

  ghost predicate CleanAt(ids: seq<string>, groups: seq<seq<string>>, k: int) {
    0 <= k < |groups| ==> Clean(ids, groups[k])
  }

  /** No entry is in the whole pool twice, exactly if none comes twice from its group. */
  lemma {:induction false} TriplePoolOnce(reviewed: set<string>, ids: seq<string>, groups: seq<seq<string>>)
    requires forall k {:trigger GroupFits(reviewed, groups, k)} :: GroupFits(reviewed, groups, k)
    ensures Distinct(TriplePool(ids, groups)) <==> AllClean(ids, groups)
  {
    if groups != [] {
      var n := |groups| - 1;
      var init := groups[..n];
      forall k ensures GroupFits(reviewed, init, k) { assert GroupFits(reviewed, groups, k); }
      TriplePoolOnce(reviewed, ids, init);
      GroupPoolOnce(ids, groups[n]);
      forall t | t in TriplePool(ids, init) ensures t !in GroupPool(ids, groups[n]) {
        EntriesApart(reviewed, ids, groups, t);
      }
      DistinctJoin(TriplePool(ids, init), GroupPool(ids, groups[n]));
      CleanStep(ids, groups);
    }
  }

  ghost predicate AllClean(ids: seq<string>, groups: seq<seq<string>>) {
    forall k {:trigger CleanAt(ids, groups, k)} :: CleanAt(ids, groups, k)
  }

  lemma CleanStep(ids: seq<string>, groups: seq<seq<string>>)
    requires groups != []
    ensures AllClean(ids, groups) <==> AllClean(ids, groups[..|groups| - 1]) && Clean(ids, groups[|groups| - 1])
  {
    var n := |groups| - 1;
    var init := groups[..n];
    if AllClean(ids, groups) {
      forall k ensures CleanAt(ids, init, k) { assert CleanAt(ids, groups, k); }
      assert CleanAt(ids, groups, n);
    } else {
      var k :| !CleanAt(ids, groups, k);
      assert k < n ==> !CleanAt(ids, init, k);
    }
  }

  lemma EntriesApart(reviewed: set<string>, ids: seq<string>, groups: seq<seq<string>>, t: (string, string, string))
    requires groups != [] && GroupFits(reviewed, groups, |groups| - 1) && t in TriplePool(ids, groups[..|groups| - 1])
    ensures t !in GroupPool(ids, groups[|groups| - 1])
  {
    var n := |groups| - 1;
    TriplePoolExact(ids, groups[..n], t.0, t.1, t.2);
    var k :| Gives(groups[..n], k, t.0, t.1, t.2);
    GroupPoolExact(ids, groups[n], t.0, t.1, t.2);
    assert t.0 in Elems(groups[k]);
    assert t.0 !in Elems(groups[n]);
  }
}
