/** The orders Python's `sorted` uses on the values of this repository: strings by
    code point, tuples of strings lexicographically, records by a key.

    `Sorted` is `sorted(set)`; `SortBy` is `sorted(list, key=...)`. */
module Ordering {

  /** `a <= b` on strings. */
  predicate Le(a: string, b: string) {
    a == [] || (b != [] && (a[0] < b[0] || (a[0] == b[0] && Le(a[1..], b[1..]))))
  }

  predicate Lt(a: string, b: string) {
    Le(a, b) && a != b
  }

  lemma {:induction false} LeTotal(a: string, b: string)
    ensures Le(a, b) || Le(b, a)
  {
    if a != [] && b != [] && a[0] == b[0] {
      LeTotal(a[1..], b[1..]);
    }
  }

  lemma {:induction false} LeRefl(a: string)
    ensures Le(a, a)
  {
    LeTotal(a, a);
  }

  lemma {:induction false} LeAntisym(a: string, b: string)
    requires Le(a, b) && Le(b, a)
    ensures a == b
  {
    if a != [] && b != [] {
      LeAntisym(a[1..], b[1..]);
      assert a == [a[0]] + a[1..] && b == [b[0]] + b[1..];
    }
  }

  lemma {:induction false} LeTrans(a: string, b: string, c: string)
    requires Le(a, b) && Le(b, c)
    ensures Le(a, c)
  {
    if a != [] && a[0] == b[0] == c[0] {
      LeTrans(a[1..], b[1..], c[1..]);
    }
  }

  lemma LtTrans(a: string, b: string, c: string)
    requires (Lt(a, b) && Le(b, c)) || (Le(a, b) && Lt(b, c))
    ensures Lt(a, c)
  {
    LeTrans(a, b, c);
    if a == c {
      LeAntisym(a, b);
    }
  }

  /** `a <= b` on tuples of strings. */
  predicate TupleLe(a: seq<string>, b: seq<string>) {
    a == [] || (b != [] && (Lt(a[0], b[0]) || (a[0] == b[0] && TupleLe(a[1..], b[1..]))))
  }

  lemma {:induction false} TupleLeTotal(a: seq<string>, b: seq<string>)
    ensures TupleLe(a, b) || TupleLe(b, a)
  {
    if a != [] && b != [] {
      LeTotal(a[0], b[0]);
      if a[0] == b[0] {
        TupleLeTotal(a[1..], b[1..]);
      }
    }
  }

  lemma {:induction false} TupleLeAntisym(a: seq<string>, b: seq<string>)
    requires TupleLe(a, b) && TupleLe(b, a)
    ensures a == b
  {
    if a != [] && b != [] {
      if a[0] != b[0] {
        LeAntisym(a[0], b[0]);
      }
      TupleLeAntisym(a[1..], b[1..]);
      assert a == [a[0]] + a[1..] && b == [b[0]] + b[1..];
    }
  }

  lemma {:induction false} TupleLeTrans(a: seq<string>, b: seq<string>, c: seq<string>)
    requires TupleLe(a, b) && TupleLe(b, c)
    ensures TupleLe(a, c)
  {
    if a != [] {
      if a[0] == b[0] == c[0] {
        TupleLeTrans(a[1..], b[1..], c[1..]);
      } else {
        LeRefl(a[0]);
        LeRefl(c[0]);
        LtTrans(a[0], b[0], c[0]);
      }
    }
  }

  /** A tuple is compared by its first component, then by the others. */
  lemma HeadLe(a: string, s: seq<string>, x: string, t: seq<string>)
    requires TupleLe([a] + s, [x] + t)
    ensures Le(a, x) && (a == x ==> TupleLe(s, t))
  {
    assert ([a] + s)[1..] == s && ([x] + t)[1..] == t;
    LeRefl(a);
  }

  // ----- sorted(set) --------------------------------------------------------------------

  /** Strictly ascending: sorted and free of duplicates. */
  predicate Ascending(s: seq<string>) {
    forall i, j {:trigger Precedes(s, i, j)} :: 0 <= i < j < |s| ==> Precedes(s, i, j)
  }

  predicate Precedes(s: seq<string>, i: int, j: int)
    requires 0 <= i < j < |s|
  {
    Lt(s[i], s[j])
  }

  lemma AscendingDistinct(s: seq<string>)
    requires Ascending(s)
    ensures forall i, j :: 0 <= i < j < |s| ==> s[i] != s[j]
  {
    forall i, j | 0 <= i < j < |s| ensures s[i] != s[j] { assert Precedes(s, i, j); }
  }

  lemma AscendingTail(s: seq<string>)
    requires Ascending(s) && s != []
    ensures Ascending(s[1..]) && s[0] !in s[1..]
    ensures forall x :: x in s[1..] <==> x in s && x != s[0]
  {
    AscendingDistinct(s);
    var t := s[1..];
    forall i, j | 0 <= i < j < |t| ensures Precedes(t, i, j) {
      assert Precedes(s, i + 1, j + 1);
    }
  }

  lemma AscendingHead(s: seq<string>, x: string)
    requires Ascending(s) && s != [] && x in s
    ensures Le(s[0], x)
  {
    LeRefl(x);
    var j :| 0 <= j < |s| && s[j] == x;
    if j > 0 { assert Precedes(s, 0, j); }
  }

  lemma AscendingCons(m: string, s: seq<string>)
    requires Ascending(s) && forall x :: x in s ==> Lt(m, x)
    ensures Ascending([m] + s)
  {
    var t := [m] + s;
    forall i, j | 0 <= i < j < |t| ensures Precedes(t, i, j) {
      if i > 0 { assert Precedes(s, i - 1, j - 1); }
    }
  }

  predicate IsMin(m: string, xs: set<string>) {
    m in xs && forall x :: x in xs ==> Le(m, x)
  }

  lemma {:induction false} MinExists(xs: set<string>)
    requires xs != {}
    ensures exists m :: IsMin(m, xs)
  {
    var x :| x in xs;
    LeRefl(x);
    if xs - {x} == {} {
      assert xs == {x};
      assert IsMin(x, xs);
    } else {
      MinExists(xs - {x});
      var m :| IsMin(m, xs - {x});
      LeTotal(x, m);
      if Le(x, m) {
        forall y | y in xs ensures Le(x, y) {
          if y != x { LeTrans(x, m, y); }
        }
        assert IsMin(x, xs);
      } else {
        assert IsMin(m, xs);
      }
    }
  }

  lemma MinUnique(a: string, b: string, xs: set<string>)
    requires IsMin(a, xs) && IsMin(b, xs)
    ensures a == b
  {
    LeAntisym(a, b);
  }

  function Min(xs: set<string>): (m: string)
    requires xs != {}
    ensures IsMin(m, xs)
  {
    MinExists(xs);
    assert forall a, b | IsMin(a, xs) && IsMin(b, xs) :: a == b by {
      forall a, b | IsMin(a, xs) && IsMin(b, xs) ensures a == b { MinUnique(a, b, xs); }
    }
    var m :| m in xs && IsMin(m, xs);
    m
  }

  /** `sorted(xs)` for a set of strings. */
  function Sorted(xs: set<string>): (s: seq<string>)
    ensures Ascending(s)
    ensures forall x :: x in s <==> x in xs
    ensures |s| == |xs|
  {
    if xs == {} then [] else
      var m := Min(xs);
      var rest := Sorted(xs - {m});
      AscendingCons(m, rest);
      [m] + rest
  }

  lemma HeadIn<T>(s: seq<T>)
    ensures s != [] ==> s[0] in s
  {
  }

  /** Ascending sequences are canonical: the elements determine the sequence. */
  lemma {:induction false} AscendingUnique(a: seq<string>, b: seq<string>)
    requires Ascending(a) && Ascending(b)
    requires forall x :: x in a <==> x in b
    ensures a == b
  {
    if a == [] {
      HeadIn(b);
    } else {
      HeadIn(a);
      HeadIn(b);
      assert a[0] in b;
      assert b[0] in a;
      AscendingHead(a, b[0]);
      AscendingHead(b, a[0]);
      LeAntisym(a[0], b[0]);
      AscendingTail(a);
      AscendingTail(b);
      AscendingUnique(a[1..], b[1..]);
      assert a == [a[0]] + a[1..] && b == [b[0]] + b[1..];
    }
  }

  lemma SortedIs(xs: set<string>, s: seq<string>)
    requires Ascending(s)
    requires forall x :: x in s <==> x in xs
    ensures s == Sorted(xs)
  {
    AscendingUnique(s, Sorted(xs));
  }

  // ----- sorted(list, key=...) ----------------------------------------------------------

  ghost predicate TotalPreorder<T(!new)>(le: (T, T) -> bool) {
    && (forall x, y :: le(x, y) || le(y, x))
    && (forall x, y, z :: le(x, y) && le(y, z) ==> le(x, z))
  }

  predicate Ordered<T>(s: seq<T>, le: (T, T) -> bool) {
    forall i, j {:trigger InOrder(s, le, i, j)} :: 0 <= i < j < |s| ==> InOrder(s, le, i, j)
  }

  predicate InOrder<T>(s: seq<T>, le: (T, T) -> bool, i: int, j: int)
    requires 0 <= i < j < |s|
  {
    le(s[i], s[j])
  }

  function Insert<T>(x: T, s: seq<T>, le: (T, T) -> bool): (r: seq<T>)
    ensures multiset(r) == multiset{x} + multiset(s)
  {
    if s == [] then [x]
    else if le(x, s[0]) then [x] + s
    else
      assert s == [s[0]] + s[1..];
      [s[0]] + Insert(x, s[1..], le)
  }

  /** `sorted(s, key=k)`, where `le(x, y)` is `k(x) <= k(y)`. */
  function SortBy<T>(s: seq<T>, le: (T, T) -> bool): (r: seq<T>)
    ensures multiset(r) == multiset(s)
  {
    if s == [] then [] else
      assert s == [s[0]] + s[1..];
      Insert(s[0], SortBy(s[1..], le), le)
  }

  lemma SameElements<T>(a: seq<T>, b: seq<T>)
    requires multiset(a) == multiset(b)
    ensures |a| == |b|
    ensures forall x :: x in a <==> x in b
  {
    assert |multiset(a)| == |multiset(b)|;
    forall x ensures x in a <==> x in b {
      assert x in a <==> x in multiset(a);
      assert x in b <==> x in multiset(b);
    }
  }

  lemma {:induction false} InsertOrdered<T(!new)>(x: T, s: seq<T>, le: (T, T) -> bool)
    requires TotalPreorder(le) && Ordered(s, le)
    ensures Ordered(Insert(x, s, le), le)
  {
    if s == [] {
    } else if le(x, s[0]) {
      forall y | y in s ensures le(x, y) {
        var k :| 0 <= k < |s| && s[k] == y;
        if k > 0 { assert InOrder(s, le, 0, k); }
      }
      ConsOrdered(x, s, le);
    } else {
      var t := s[1..];
      forall i, j | 0 <= i < j < |t| ensures InOrder(t, le, i, j) { assert InOrder(s, le, i + 1, j + 1); }
      InsertOrdered(x, t, le);
      var r := Insert(x, t, le);
      forall y | y in r ensures le(s[0], y) {
        assert y in multiset(r);
        if y != x {
          assert y in t;
          var k :| 0 <= k < |t| && t[k] == y;
          assert InOrder(s, le, 0, k + 1);
        }
      }
      ConsOrdered(s[0], r, le);
    }
  }

  lemma ConsOrdered<T(!new)>(x: T, s: seq<T>, le: (T, T) -> bool)
    requires Ordered(s, le) && forall y :: y in s ==> le(x, y)
    ensures Ordered([x] + s, le)
  {
    var q := [x] + s;
    forall i, j | 0 <= i < j < |q| ensures InOrder(q, le, i, j) {
      if i > 0 { assert InOrder(s, le, i - 1, j - 1); }
    }
  }

  lemma {:induction false} SortByOrdered<T(!new)>(s: seq<T>, le: (T, T) -> bool)
    requires TotalPreorder(le)
    ensures Ordered(SortBy(s, le), le)
  {
    if s != [] {
      SortByOrdered(s[1..], le);
      InsertOrdered(s[0], SortBy(s[1..], le), le);
    }
  }

  /** Sorting what is already in order changes nothing. */
  lemma {:induction false} SortByIdle<T(!new)>(s: seq<T>, le: (T, T) -> bool)
    requires Ordered(s, le)
    ensures SortBy(s, le) == s
  {
    if s != [] {
      var t := s[1..];
      forall i, j | 0 <= i < j < |t| ensures InOrder(t, le, i, j) { assert InOrder(s, le, i + 1, j + 1); }
      SortByIdle(t, le);
      if t != [] { assert InOrder(s, le, 0, 1); }
      assert s == [s[0]] + t;
    }
  }

  /** Sorting a duplicate-free list of strings is sorting the set of its elements. */
  lemma SortByDistinct(s: seq<string>)
    requires forall i, j :: 0 <= i < j < |s| ==> s[i] != s[j]
    ensures SortBy(s, Le) == Sorted(set x | x in s)
  {
    var r := SortBy(s, Le);
    StringOrder();
    SortByOrdered(s, Le);
    SameElements(r, s);
    forall i, j | 0 <= i < j < |r| ensures r[i] != r[j] {
      if r[i] == r[j] {
        CountAtLeastTwo(r, i, j);
        CountAtMostOne(s, r[i]);
      }
    }
    forall i, j | 0 <= i < j < |r| ensures Precedes(r, i, j) {
      assert InOrder(r, Le, i, j);
    }
    SortedIs((set x | x in s), r);
  }

  lemma CountAtLeastTwo<T>(r: seq<T>, i: nat, j: nat)
    requires i < j < |r| && r[i] == r[j]
    ensures multiset(r)[r[i]] >= 2
  {
    assert r == r[..j] + r[j..];
    assert r[i] in r[..j] && r[i] in r[j..];
    assert r[..j][i] == r[i] && r[j..][0] == r[i];
  }

  lemma {:induction false} CountAtMostOne<T>(s: seq<T>, x: T)
    requires forall i, j :: 0 <= i < j < |s| ==> s[i] != s[j]
    ensures multiset(s)[x] <= 1
  {
    if s != [] {
      CountAtMostOne(s[1..], x);
      assert s == [s[0]] + s[1..];
      if s[0] == x {
        assert x !in s[1..];
      }
    }
  }

  lemma StringOrder()
    ensures TotalPreorder(Le)
  {
    forall x, y ensures Le(x, y) || Le(y, x) { LeTotal(x, y); }
    forall x, y, z | Le(x, y) && Le(y, z) ensures Le(x, z) { LeTrans(x, y, z); }
  }

  lemma TupleOrder()
    ensures TotalPreorder(TupleLe)
  {
    forall x, y ensures TupleLe(x, y) || TupleLe(y, x) { TupleLeTotal(x, y); }
    forall x, y, z | TupleLe(x, y) && TupleLe(y, z) ensures TupleLe(x, z) { TupleLeTrans(x, y, z); }
  }
}
