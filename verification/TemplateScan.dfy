/** The scans of the template evaluator over a string, and what they find. */
module TemplateScan {
  import opened Folding
  import opened Options
  import opened Text
  import opened Nesting

  /** From position `i` at paren depth `depth`: no closing before the last character. */
  predicate WrapFrom(s: string, i: nat, depth: int)
    decreases |s| - i
  {
    if i + 1 >= |s| then true
    else if s[i] == '(' then WrapFrom(s, i + 1, depth + 1)
    else if s[i] == ')' then depth - 1 != 0 && WrapFrom(s, i + 1, depth - 1)
    else WrapFrom(s, i + 1, depth)
  }

  /** The first parenthesis is the partner of the last: the depth does not come to 0 in between. */
  method ParensWrapWhole(s: string) returns (r: bool)
    ensures r == WrapFrom(s, 0, 0)
    ensures r <==> forall n {:trigger ClosesAt(s, n)} :: !ClosesAt(s, n)
  {
    WrapExact(s);
    var depth := 0;
    var i := 0;
    while i + 1 < |s|
      invariant WrapFrom(s, 0, 0) == WrapFrom(s, i, depth)
    {
      if s[i] == '(' {
        depth := depth + 1;
      } else if s[i] == ')' {
        depth := depth - 1;
        if depth == 0 {
          return false;
        }
      }
      i := i + 1;
    }
    r := true;
  }

  predicate OpChar(c: char) { c == '=' || c == '!' }

  /** An equality operator could start here. */
  predicate OpAt(s: string, i: int) {
    0 <= i && i + 1 < |s| && OpChar(s[i]) && s[i + 1] == '='
  }

  datatype Equality = Equality(index: nat, op: string)

  function OpText(s: string, i: nat): string
    requires OpAt(s, i)
  {
    if i + 2 < |s| && s[i + 2] == '=' then [s[i], '=', '='] else [s[i], '=']
  }

  /** The first top-level equality operator at or after `i`. */
  function EqualityFrom(s: string, i: nat, depth: int): (r: Option<Equality>)
    ensures r.Some? ==> r.value.index < |s| && OpAt(s, r.value.index) && r.value.op == OpText(s, r.value.index)
    decreases |s| - i
  {
    if i >= |s| then None
    else if Opens(s[i]) then EqualityFrom(s, i + 1, depth + 1)
    else if Closes(s[i]) then EqualityFrom(s, i + 1, depth - 1)
    else if depth == 0 && OpAt(s, i) && !(i > 0 && OpChar(s[i - 1])) && !Blank(s[..i], JsSpace) then
      Some(Equality(i, OpText(s, i)))
    else EqualityFrom(s, i + 1, depth)
  }

  /** The first top-level operator. */
  method FindTopLevelEquality(s: string) returns (r: Option<Equality>)
    ensures r == EqualityFrom(s, 0, 0)
    ensures r.None? <==> forall i {:trigger TopOperator(s, i)} :: !TopOperator(s, i)
    ensures r.Some? ==> FirstOperator(s, r.value.index) && r.value.op == OpText(s, r.value.index)
  {
    EqualityExact(s);
    var depth := 0;
    var i := 0;
    while i < |s|
      invariant EqualityFrom(s, 0, 0) == EqualityFrom(s, i, depth)
    {
      if Opens(s[i]) {
        depth := depth + 1;
      } else if Closes(s[i]) {
        depth := depth - 1;
      } else if depth == 0 && OpAt(s, i) {
        if i > 0 && OpChar(s[i - 1]) {
          i := i + 1;
          continue;
        }
        TrimBlank(s[..i], JsSpace);
        if Trim(s[..i], JsSpace) == [] {
          i := i + 1;
          continue;
        }
        return Some(Equality(i, OpText(s, i)));
      }
      i := i + 1;
    }
    r := None;
  }

  /** Where the bracket opened before `j` closes, at bracket depth `depth`. */
  function CloseFrom(s: string, j: nat, depth: nat): (r: Option<nat>)
    ensures r.Some? ==> j <= r.value < |s|
    decreases |s| - j
  {
    if j >= |s| then None
    else if s[j] == '[' then CloseFrom(s, j + 1, depth + 1)
    else if s[j] == ']' then if depth <= 1 then Some(j) else CloseFrom(s, j + 1, depth - 1)
    else CloseFrom(s, j + 1, depth)
  }

  /** The partner of the bracket before `start`. */
  method FindClose(s: string, start: nat) returns (r: Option<nat>)
    ensures r == CloseFrom(s, start, 1)
    ensures r.None? <==> forall n {:trigger Closing(s, start, 1, n)} :: !Closing(s, start, 1, n)
    ensures r.Some? ==> FirstClosing(s, start, 1, r.value)
  {
    CloseExact(s, start, 1);
    var depth: nat := 1;
    var j := start;
    while j < |s| && depth > 0
      invariant depth > 0 && CloseFrom(s, start, 1) == CloseFrom(s, j, depth)
      decreases |s| - j
    {
      if s[j] == '[' {
        depth := depth + 1;
      } else if s[j] == ']' {
        depth := depth - 1;
        if depth == 0 {
          return Some(j);
        }
      }
      j := j + 1;
    }
    r := None;
  }

  // ----- nested text is passed over -----------------------------------------------------

  /** Where the depth never comes to 0 nothing is found. */
  lemma {:induction false} EqualityInside(s: string, i: nat, j: nat, d: int)
    requires i <= j <= |s|
    requires forall n :: i <= n <= j ==> Deep(Mixed, s, i, n, d)
    ensures EqualityFrom(s, i, d) == EqualityFrom(s, j, d + Net(Mixed, s[i..j]))
    decreases j - i
  {
    if i < j {
      var d' := d + Delta(Mixed, s[i]);
      var i' := i + 1;
      forall n | i' <= n <= j ensures Deep(Mixed, s, i', n, d') { DeepStep(Mixed, s, i, n, d); }
      DeepStart(Mixed, s, i, d);
      DeepStart(Mixed, s, i + 1, d');
      NetStep(Mixed, s, i, j);
      EqualityInside(s, i + 1, j, d');
    }
  }

  lemma EqualityNested(s: string, i: nat, j: nat)
    requires i <= j <= |s| && Nested(s[i..j])
    ensures EqualityFrom(s, i, 1) == EqualityFrom(s, j, 1)
  {
    assert Balanced(Mixed, s[i..j]);
    BalancedDeep(Mixed, s, i, j);
    EqualityInside(s, i, j, 1);
  }

  /** The top-level search goes from `i` to `j` without finding anything. */
  ghost predicate Passes(s: string, i: nat, j: nat) {
    forall u {:trigger Unfold(u)} :: Unfold(u) ==> EqualityFrom(s, i, 0) == EqualityFrom(s, j, 0)
  }

  lemma PassesJoin(s: string, i: nat, j: nat, k: nat)
    requires Passes(s, i, j) && Passes(s, j, k)
    ensures Passes(s, i, k)
  {
    assert Unfold(true);
  }

  /** A bracketed part at top level is passed over. */
  lemma PassesEnclosed(s: string, i: nat, j: nat)
    requires i < j < |s| && Opens(s[i]) && Closes(s[j]) && Nested(s[i + 1..j])
    ensures Passes(s, i, j + 1)
  {
    EqualityNested(s, i + 1, j);
  }

  /** So is text in which no operator starts. */
  lemma PassesPlain(s: string, i: nat, j: nat)
    requires i <= j <= |s|
    requires forall k :: i <= k < j ==> !Opens(s[k]) && !Closes(s[k]) && !OpAt(s, k)
    ensures Passes(s, i, j)
  {
    EqualityPlain(s, i, j);
  }

  lemma {:induction false} EqualityPlain(s: string, i: nat, j: nat)
    requires i <= j <= |s|
    requires forall k :: i <= k < j ==> !Opens(s[k]) && !Closes(s[k]) && !OpAt(s, k)
    ensures EqualityFrom(s, i, 0) == EqualityFrom(s, j, 0)
    decreases j - i
  {
    if i < j { EqualityPlain(s, i + 1, j); }
  }

  lemma PassesAll(s: string)
    requires Passes(s, 0, |s|)
    ensures EqualityFrom(s, 0, 0).None?
  {
    assert Unfold(true);
  }

  lemma PassesTo(s: string, i: nat)
    requires Passes(s, 0, i) && OpAt(s, i) && i > 0 && !OpChar(s[i - 1]) && !Blank(s[..i], JsSpace)
    ensures EqualityFrom(s, 0, 0) == Some(Equality(i, OpText(s, i)))
  {
    assert Unfold(true);
  }

  lemma {:induction false} WrapInside(s: string, i: nat, j: nat, d: int)
    requires i <= j < |s|
    requires forall n :: i <= n <= j ==> Deep(Round, s, i, n, d)
    ensures WrapFrom(s, i, d) == WrapFrom(s, j, d + Net(Round, s[i..j]))
    decreases j - i
  {
    if i < j {
      var d' := d + Delta(Round, s[i]);
      var i' := i + 1;
      forall n | i' <= n <= j ensures Deep(Round, s, i', n, d') { DeepStep(Round, s, i, n, d); }
      DeepStart(Round, s, i, d);
      DeepStart(Round, s, i + 1, d');
      NetStep(Round, s, i, j);
      WrapInside(s, i + 1, j, d');
    }
  }

  lemma WrapNested(s: string, i: nat, j: nat)
    requires i <= j < |s| && Nested(s[i..j])
    ensures WrapFrom(s, i, 1) == WrapFrom(s, j, 1)
  {
    assert Balanced(Round, s[i..j]);
    BalancedDeep(Round, s, i, j);
    WrapInside(s, i, j, 1);
  }

  lemma {:induction false} CloseInside(s: string, i: nat, j: nat, d: nat)
    requires i <= j <= |s|
    requires forall n :: i <= n <= j ==> Deep(Square, s, i, n, d)
    ensures Deep(Square, s, i, j, d)
    ensures CloseFrom(s, i, d) == CloseFrom(s, j, d + Net(Square, s[i..j]))
    decreases j - i
  {
    if i < j {
      var d' := d + Delta(Square, s[i]);
      var i' := i + 1;
      forall n | i' <= n <= j ensures Deep(Square, s, i', n, d') { DeepStep(Square, s, i, n, d); }
      DeepStart(Square, s, i, d);
      DeepStart(Square, s, i + 1, d');
      NetStep(Square, s, i, j);
      CloseInside(s, i + 1, j, d');
    }
  }

  lemma CloseNested(s: string, i: nat, j: nat)
    requires i <= j < |s| && Nested(s[i..j]) && s[j] == ']'
    ensures CloseFrom(s, i, 1) == Some(j)
  {
    assert Balanced(Square, s[i..j]);
    BalancedDeep(Square, s, i, j);
    CloseInside(s, i, j, 1);
  }

  // ----- what the scans find ------------------------------------------------------------

  /** After `n` characters, but before the last, a parenthesis brings the depth to 0. */
  ghost predicate ClosesAt(s: string, n: int) {
    0 < n < |s| && s[n - 1] == ')' && Net(Round, s[..n]) == 0
  }

  ghost predicate ClosesFrom(s: string, i: nat, d: int, n: int) {
    i < n < |s| && s[n - 1] == ')' && d + Net(Round, s[i..n]) == 0
  }

  lemma ClosesStep(s: string, i: nat, d: int, n: int)
    requires i < |s|
    ensures i + 1 < n ==> (ClosesFrom(s, i, d, n) <==> ClosesFrom(s, i + 1, d + Delta(Round, s[i]), n))
    ensures n == i + 1 && n < |s| ==> (ClosesFrom(s, i, d, n) <==> s[i] == ')' && d == 1)
  {
    if i < n < |s| { NetStep(Round, s, i, n); }
    if n == i + 1 { assert s[i + 1..n] == []; }
  }

  lemma {:induction false} WrapFromExact(s: string, i: nat, d: int)
    requires i <= |s|
    ensures WrapFrom(s, i, d) <==> forall n {:trigger ClosesFrom(s, i, d, n)} :: !ClosesFrom(s, i, d, n)
    decreases |s| - i
  {
    if i + 1 < |s| {
      var i', d' := i + 1, d + Delta(Round, s[i]);
      WrapFromExact(s, i', d');
      forall n ensures ClosesFrom(s, i, d, n) <==> (n == i' && s[i] == ')' && d == 1) || ClosesFrom(s, i', d', n) {
        ClosesStep(s, i, d, n);
      }
      if s[i] == ')' && d == 1 { assert ClosesFrom(s, i, d, i'); }
      if !WrapFrom(s, i', d') {
        var n :| ClosesFrom(s, i', d', n);
        assert ClosesFrom(s, i, d, n);
      }
    }
  }

  lemma WrapExact(s: string)
    ensures WrapFrom(s, 0, 0) <==> forall n {:trigger ClosesAt(s, n)} :: !ClosesAt(s, n)
  {
    WrapFromExact(s, 0, 0);
    forall n ensures ClosesAt(s, n) <==> ClosesFrom(s, 0, 0, n) {
      if 0 < n < |s| { assert s[0..n] == s[..n]; }
    }
    if !WrapFrom(s, 0, 0) {
      var n :| ClosesFrom(s, 0, 0, n);
      assert ClosesAt(s, n);
    }
  }

  /** An equality operator outside all brackets, with something before it that is no operator. */
  ghost predicate TopOperator(s: string, i: int) {
    && OpAt(s, i) && Net(Mixed, s[..i]) == 0
    && !(i > 0 && OpChar(s[i - 1])) && !Blank(s[..i], JsSpace)
  }

  ghost predicate FirstOperator(s: string, i: int) {
    TopOperator(s, i) && forall j {:trigger TopOperator(s, j)} :: j < i ==> !TopOperator(s, j)
  }

  lemma {:induction false} EqualityFromExact(s: string, i: nat)
    requires i <= |s| && forall j {:trigger TopOperator(s, j)} :: j < i ==> !TopOperator(s, j)
    ensures var r := EqualityFrom(s, i, Net(Mixed, s[..i]));
            && (r.None? <==> forall j {:trigger TopOperator(s, j)} :: !TopOperator(s, j))
            && (r.Some? ==> FirstOperator(s, r.value.index))
    decreases |s| - i
  {
    if i < |s| {
      NetEnd(Mixed, s, i);
      if !TopOperator(s, i) {
        var i' := i + 1;
        EqualityFromExact(s, i');
      }
    } else {
      forall j ensures !TopOperator(s, j) { }
    }
  }

  lemma EqualityExact(s: string)
    ensures var r := EqualityFrom(s, 0, 0);
            && (r.None? <==> forall j {:trigger TopOperator(s, j)} :: !TopOperator(s, j))
            && (r.Some? ==> FirstOperator(s, r.value.index))
  {
    assert s[..0] == [];
    EqualityFromExact(s, 0);
  }

  /** The bracket at `n` brings the depth `d` at `i` to 0. */
  ghost predicate Closing(s: string, i: nat, d: int, n: int) {
    i <= n < |s| && s[n] == ']' && d + Net(Square, s[i..n + 1]) == 0
  }

  ghost predicate FirstClosing(s: string, i: nat, d: int, n: int) {
    Closing(s, i, d, n) && forall m {:trigger Closing(s, i, d, m)} :: m < n ==> !Closing(s, i, d, m)
  }

  lemma ClosingStep(s: string, i: nat, d: int, n: int)
    requires i < |s|
    ensures n > i ==> (Closing(s, i, d, n) <==> Closing(s, i + 1, d + Delta(Square, s[i]), n))
    ensures n == i ==> (Closing(s, i, d, n) <==> s[i] == ']' && d == 1)
  {
    if i <= n < |s| { NetStep(Square, s, i, n + 1); }
    if n == i { assert s[i + 1..n + 1] == []; }
  }

  lemma {:induction false} CloseExact(s: string, i: nat, d: nat)
    requires d >= 1
    ensures CloseFrom(s, i, d).None? <==> forall n {:trigger Closing(s, i, d, n)} :: !Closing(s, i, d, n)
    ensures CloseFrom(s, i, d).Some? ==> FirstClosing(s, i, d, CloseFrom(s, i, d).value)
    decreases |s| - i
  {
    if i < |s| {
      var i', d' := i + 1, d + Delta(Square, s[i]);
      forall n ensures Closing(s, i, d, n) <==> (n == i && s[i] == ']' && d == 1) || Closing(s, i', d', n) {
        ClosingStep(s, i, d, n);
      }
      if d' >= 1 {
        CloseExact(s, i', d');
        if CloseFrom(s, i, d).Some? { assert Closing(s, i', d', CloseFrom(s, i', d').value); }
      } else {
        assert Closing(s, i, d, i);
      }
    }
  }

  /** The bracket that stands at `j` is found exactly if what is before it is balanced. */
  lemma CloseWhole(s: string, i: nat, j: nat)
    requires i <= j < |s| && s[j] == ']'
    ensures CloseFrom(s, i, 1) == Some(j) <==> Balanced(Square, s[i..j])
  {
    var t := s[i..j];
    CloseExact(s, i, 1);
    forall n | i <= n <= j ensures Closing(s, i, 1, n) <==> s[n] == ']' && Net(Square, s[i..n + 1]) == -1 { }
    assert Net(Square, s[i..j + 1]) == Net(Square, t) - 1 by {
      assert s[i..j + 1] == t + [s[j]];
      NetJoin(Square, t, [s[j]]);
      assert [s[j]][1..] == [];
    }
    if Balanced(Square, t) {
      BalancedDeep(Square, s, i, j);
      CloseInside(s, i, j, 1);
    } else if NeverBelow(Square, t) {
      assert !Closing(s, i, 1, j);
    } else {
      var n :| !NonNegative(Square, t, n);
      var m := FirstBelow(Square, t, n);
      assert s[i..i + m] == t[..m];
      assert Closing(s, i, 1, i + m - 1);
    }
  }
}
