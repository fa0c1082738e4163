/** Counting the nesting of parentheses and brackets. */
module Nesting {

  predicate Opens(c: char) { c == '[' || c == '(' }

  predicate Closes(c: char) { c == ']' || c == ')' }

  /** The three ways in which the evaluator counts nesting. */
  datatype Kind = Mixed | Round | Square

  function Delta(k: Kind, c: char): int {
    if c == '(' && k != Square then 1
    else if c == ')' && k != Square then -1
    else if c == '[' && k != Round then 1
    else if c == ']' && k != Round then -1
    else 0
  }

  function Net(k: Kind, s: string): int {
    if s == [] then 0 else Delta(k, s[0]) + Net(k, s[1..])
  }

  ghost predicate NonNegative(k: Kind, s: string, n: int) {
    0 <= n <= |s| ==> Net(k, s[..n]) >= 0
  }

  ghost predicate Balanced(k: Kind, s: string) {
    Net(k, s) == 0 && forall n {:trigger NonNegative(k, s, n)} :: NonNegative(k, s, n)
  }

  /** Balanced in all three ways. */
  ghost predicate Nested(s: string) {
    forall k {:trigger Balanced(k, s)} :: Balanced(k, s)
  }

  lemma {:induction false} NetJoin(k: Kind, a: string, b: string)
    ensures Net(k, a + b) == Net(k, a) + Net(k, b)
  {
    if a == [] {
      assert a + b == b;
    } else {
      NetJoin(k, a[1..], b);
      assert (a + b)[1..] == a[1..] + b;
    }
  }

  lemma BalancedJoin(k: Kind, a: string, b: string)
    requires Balanced(k, a) && Balanced(k, b)
    ensures Balanced(k, a + b)
  {
    NetJoin(k, a, b);
    forall n ensures NonNegative(k, a + b, n) {
      if 0 <= n <= |a| {
        assert NonNegative(k, a, n);
        assert (a + b)[..n] == a[..n];
      } else if |a| < n <= |a + b| {
        assert NonNegative(k, b, n - |a|);
        assert (a + b)[..n] == a + b[..n - |a|];
        NetJoin(k, a, b[..n - |a|]);
      }
    }
  }

  lemma {:induction false} NetPlain(k: Kind, s: string)
    requires forall i :: 0 <= i < |s| ==> Delta(k, s[i]) == 0
    ensures Net(k, s) == 0
  {
    if s != [] { NetPlain(k, s[1..]); }
  }

  lemma BalancedPlain(k: Kind, s: string)
    requires forall i :: 0 <= i < |s| ==> Delta(k, s[i]) == 0
    ensures Balanced(k, s)
  {
    NetPlain(k, s);
    forall n ensures NonNegative(k, s, n) {
      if 0 <= n <= |s| { NetPlain(k, s[..n]); }
    }
  }

  lemma BalancedWrap(k: Kind, o: char, s: string, c: char)
    requires Balanced(k, s) && Delta(k, o) >= 0 && Delta(k, o) + Delta(k, c) == 0
    ensures Balanced(k, [o] + s + [c])
  {
    var t := [o] + s + [c];
    NetJoin(k, [o] + s, [c]);
    NetJoin(k, [o], s);
    forall n ensures NonNegative(k, t, n) {
      if 1 <= n <= |s| + 1 {
        assert NonNegative(k, s, n - 1);
        assert t[..n] == [o] + s[..n - 1];
        NetJoin(k, [o], s[..n - 1]);
      } else if n == |t| {
        assert t[..n] == t;
      } else if n == 0 {
        assert t[..n] == [];
      }
    }
  }

  lemma NestedJoin(a: string, b: string)
    requires Nested(a) && Nested(b)
    ensures Nested(a + b)
  {
    forall k ensures Balanced(k, a + b) {
      assert Balanced(k, a) && Balanced(k, b);
      BalancedJoin(k, a, b);
    }
  }

  predicate Plain(s: string) {
    forall i :: 0 <= i < |s| ==> !Opens(s[i]) && !Closes(s[i])
  }

  lemma NestedPlain(s: string)
    requires Plain(s)
    ensures Nested(s)
  {
    forall k ensures Balanced(k, s) { BalancedPlain(k, s); }
  }

  lemma NestedRound(s: string)
    requires Nested(s)
    ensures Nested("(" + s + ")")
  {
    forall k ensures Balanced(k, "(" + s + ")") {
      assert Balanced(k, s);
      BalancedWrap(k, '(', s, ')');
    }
  }

  lemma NestedSquare(s: string)
    requires Nested(s)
    ensures Nested("[" + s + "]")
  {
    forall k ensures Balanced(k, "[" + s + "]") {
      assert Balanced(k, s);
      BalancedWrap(k, '[', s, ']');
    }
  }

  // ----- depth along a text -------------------------------------------------------------

  lemma NetStep(k: Kind, s: string, i: nat, j: nat)
    requires i < j <= |s|
    ensures Net(k, s[i..j]) == Delta(k, s[i]) + Net(k, s[i + 1..j])
  {
    assert s[i..j][1..] == s[i + 1..j];
  }

  /** Read up to `n`, from `i` at depth `d`, the depth is at least 1. */
  predicate Deep(k: Kind, s: string, i: nat, n: int, d: int) {
    i <= n <= |s| ==> d + Net(k, s[i..n]) >= 1
  }

  lemma DeepStart(k: Kind, s: string, i: nat, d: int)
    requires i <= |s| && Deep(k, s, i, i, d)
    ensures d >= 1
  {
    assert s[i..i] == [];
  }

  lemma DeepStep(k: Kind, s: string, i: nat, n: nat, d: int)
    requires i < n <= |s| && Deep(k, s, i, n, d)
    ensures Deep(k, s, i + 1, n, d + Delta(k, s[i]))
  {
    NetStep(k, s, i, n);
  }

  lemma BalancedDeep(k: Kind, s: string, i: nat, j: nat)
    requires i <= j <= |s| && Balanced(k, s[i..j])
    ensures forall n :: i <= n <= j ==> Deep(k, s, i, n, 1)
    ensures Net(k, s[i..j]) == 0
  {
    forall n | i <= n <= j ensures Deep(k, s, i, n, 1) {
      assert NonNegative(k, s[i..j], n - i);
      assert s[i..j][..n - i] == s[i..n];
    }
  }

  /** No prefix closes more than it opens. */
  ghost predicate NeverBelow(k: Kind, s: string) {
    forall n {:trigger NonNegative(k, s, n)} :: NonNegative(k, s, n)
  }

  /** Where the depth first falls below 0 it falls to -1, at a closing character. */
  lemma {:induction false} FirstBelow(k: Kind, s: string, n: nat) returns (m: nat)
    requires n <= |s| && Net(k, s[..n]) < 0
    ensures 0 < m <= n && Delta(k, s[m - 1]) == -1 && Net(k, s[..m]) == -1
  {
    assert s[..0] == [];
    NetEnd(k, s, n - 1);
    if Net(k, s[..n - 1]) < 0 {
      m := FirstBelow(k, s, n - 1);
    } else {
      m := n;
    }
  }

  lemma NetEnd(k: Kind, s: string, n: nat)
    requires n < |s|
    ensures Net(k, s[..n + 1]) == Net(k, s[..n]) + Delta(k, s[n])
  {
    assert s[..n + 1] == s[..n] + [s[n]];
    NetJoin(k, s[..n], [s[n]]);
    assert [s[n]][1..] == [];
  }

  /** Text without brackets around a text changes nothing. */
  lemma NeverBelowPadded(k: Kind, a: string, s: string, b: string)
    requires Plain(a) && Plain(b)
    ensures NeverBelow(k, a + s + b) <==> NeverBelow(k, s)
    ensures Net(k, a + s + b) == Net(k, s)
  {
    var t := a + s + b;
    NetPlain(k, a);
    NetPlain(k, b);
    NetJoin(k, a, s);
    NetJoin(k, a + s, b);
    forall n | 0 <= n <= |s| ensures Net(k, t[..|a| + n]) == Net(k, s[..n]) {
      assert t[..|a| + n] == a + s[..n];
      NetJoin(k, a, s[..n]);
    }
    if NeverBelow(k, s) {
      forall n ensures NonNegative(k, t, n) { PaddedPrefix(k, a, s, b, n); }
    } else {
      var n :| !NonNegative(k, s, n);
      assert !NonNegative(k, t, |a| + n);
    }
  }

  lemma PaddedPrefix(k: Kind, a: string, s: string, b: string, n: int)
    requires Plain(a) && Plain(b) && NeverBelow(k, s)
    ensures NonNegative(k, a + s + b, n)
  {
    var t := a + s + b;
    if 0 <= n <= |a| {
      assert t[..n] == a[..n];
      NetPlain(k, a[..n]);
    } else if |a| < n <= |a| + |s| {
      assert t[..n] == a + s[..n - |a|];
      NetPlain(k, a);
      NetJoin(k, a, s[..n - |a|]);
      assert NonNegative(k, s, n - |a|);
    } else if |a| + |s| < n <= |t| {
      var c := b[..n - |a| - |s|];
      assert t[..n] == a + s + c;
      NetPlain(k, a);
      NetPlain(k, c);
      NetJoin(k, a, s);
      NetJoin(k, a + s, c);
      assert NonNegative(k, s, |s|) && s[..|s|] == s;
    }
  }
}
