/** String literals outside the well-formed ones: exactly when the evaluator reads them as they are
    meant. */
module TemplateLiterals {
  import opened Folding
  import opened Options
  import opened Text
  import opened Nesting
  import opened TemplateScan
  import opened TemplateExpr
  import opened TemplatePrinter

  /** A quoted string means its body exactly when the search finds no operator in it; else the
      evaluator compares the pieces, and answers a boolean. */
  lemma StringLiteralExact<V>(h: Host<V>, vals: V, q: char, b: string)
    requires q == '"' || q == '\''
    requires h.text(b) != h.yes && h.text(b) != h.no
    ensures Meaning(h, vals, Literal(q, b)) == h.text(b) <==> EqualityFrom(Literal(q, b), 0, 0).None?
  {
    var s := Literal(q, b);
    TrimOfTrimmed(s, JsSpace);
    if EqualityFrom(s, 0, 0).None? { StringAtom(h, vals, q, b); }
  }

  /** A name with a quote behind it means nothing, nor does a quote with a letter behind it. */
  lemma StrayQuote<V>(h: Host<V>, vals: V)
    ensures Denotes(h, vals, "b'", h.undefined) && Denotes(h, vals, "'a", h.undefined)
  {
    PlainEvaluated(h, vals, "'a");
    PlainEvaluated(h, vals, "b'");
    NameRead("b", "'");
    assert "b" + "'" == "b'";
  }

  /** `'a==b'` is read as a comparison of `'a` with `b'`. */
  lemma StringWithOperator<V>(h: Host<V>, vals: V)
    ensures Meaning(h, vals, "'a==b'") == h.Bool(h.looseEq(h.undefined, h.undefined))
  {
    var s := "'a==b'";
    PassesPlain(s, 0, 2);
    assert s[..2] == "'a" && s[4..] == "b'";
    PassesTo(s, 2) by { assert s[..2][0] == '\''; }
    StrayQuote(h, vals);
    DenotesEq(h, vals, s, 2, "==", h.undefined, h.undefined);
    assert Unfold(true);
  }

  lemma BracketQuiet(s: string)
    requires s == "a[']']"
    ensures EqualityFrom(s, 0, 0).None? && CloseFrom(s, 2, 1) == Some(3)
  {
    assert s[2..3] == "'";
    NestedPlain(s[2..3]);
    PassesPlain(s, 0, 1);
    PassesEnclosed(s, 1, 3);
    PassesPlain(s, 4, 5);
    assert Unfold(true);
    assert EqualityFrom(s, 6, -1).None?;
    assert EqualityFrom(s, 5, 0).None?;
    CloseNested(s, 2, 3);
  }

  /** `a[']']` is cut at the bracket inside its string. */
  lemma StringWithBracket<V>(h: Host<V>, vals: V)
    ensures Meaning(h, vals, "a[']']") == h.undefined
  {
    var s := "a[']']";
    TrimOfTrimmed(s, JsSpace);
    NameRead("a", "[']']");
    assert "a" + "[']']" == s;
    BracketQuiet(s);
  }

  // ----- in parentheses -----------------------------------------------------------------

  /** Parentheses enclose a text as a whole exactly if no prefix of it closes more than it opens. */
  lemma WrapsExactly(t: string)
    ensures WrapFrom(Wrapped(t), 0, 0) <==> NeverBelow(Round, t)
  {
    var w := Wrapped(t);
    WrapExact(w);
    forall n | 0 < n < |w| ensures Net(Round, w[..n]) == 1 + Net(Round, t[..n - 1]) {
      assert w[..n] == ['('] + t[..n - 1];
      NetJoin(Round, ['('], t[..n - 1]);
      assert ['('][1..] == [];
    }
    if !WrapFrom(w, 0, 0) {
      var n :| ClosesAt(w, n);
      assert !NonNegative(Round, t, n - 1);
    }
    if !NeverBelow(Round, t) {
      var n :| !NonNegative(Round, t, n);
      var m := FirstBelow(Round, t, n);
      assert w[m] == t[m - 1];
      assert ClosesAt(w, m + 1);
    }
  }

  lemma LiteralPad(k: Kind, q: char, b: string, p: Pad)
    requires (q == '"' || q == '\'') && GoodPad(p)
    ensures NeverBelow(k, Padded(Literal(q, b), p)) <==> NeverBelow(k, b)
    ensures Net(k, Padded(Literal(q, b), p)) == Net(k, b)
  {
    PlainBlank(p.before);
    PlainBlank(p.after);
    NeverBelowPadded(k, p.before, Literal(q, b), p.after);
    NeverBelowPadded(k, [q], b, [q]);
  }

  /** What the evaluator makes of a quoted string in parentheses that close too early: nothing, or a
      comparison of pieces. */
  lemma CutMeaning<V>(h: Host<V>, vals: V, w: string)
    requires |w| >= 2 && w[0] == '(' && w[|w| - 1] == ')' && !WrapFrom(w, 0, 0)
    ensures EqualityFrom(w, 0, 0).None? ==> Meaning(h, vals, w) == h.undefined
    ensures EqualityFrom(w, 0, 0).Some? ==> Meaning(h, vals, w) == h.yes || Meaning(h, vals, w) == h.no
  {
    TrimOfTrimmed(w, JsSpace);
    assert MeaningOf(h, vals, w) == Meaning(h, vals, w);
    if EqualityFrom(w, 0, 0).None? {
      assert MeaningOf(h, vals, w) == Atom(h, vals, w);
      AtomParen(h, vals, w);
    }
  }

  lemma AtomParen<V>(h: Host<V>, vals: V, w: string)
    requires w != [] && w[0] == '('
    ensures Atom(h, vals, w) == h.undefined
  {
    assert !Keyword(w) by { if Keyword(w) { KeywordLetters(w); } }
    assert !IsNumber(w) by { if IsNumber(w) { NumberPlain(w); } }
  }

  lemma WholeMeaning<V>(h: Host<V>, vals: V, q: char, b: string, p: Pad)
    requires (q == '"' || q == '\'') && GoodPad(p) && WrapFrom(Wrapped(Padded(Literal(q, b), p)), 0, 0)
    ensures Meaning(h, vals, Wrapped(Padded(Literal(q, b), p))) == Meaning(h, vals, Literal(q, b))
  {
    var t := Padded(Literal(q, b), p);
    var w := Wrapped(t);
    TrimOfTrimmed(w, JsSpace);
    assert w[1..|w| - 1] == t;
    assert Meaning(h, vals, w) == Meaning(h, vals, t);
    TrimPad(p.before, Literal(q, b), p.after, JsSpace);
    TrimOfTrimmed(Literal(q, b), JsSpace);
  }

  /** A quoted string in parentheses means its body exactly if no prefix of the body closes a
      parenthesis too many and the search finds no operator in the string. */
  lemma GroupedLiteralExact<V>(h: Host<V>, vals: V, q: char, b: string, p: Pad)
    requires (q == '"' || q == '\'') && GoodPad(p)
    requires h.text(b) != h.yes && h.text(b) != h.no && h.text(b) != h.undefined
    ensures Meaning(h, vals, Print(Group(Str(q, b), p))) == h.text(b)
       <==> NeverBelow(Round, b) && EqualityFrom(Literal(q, b), 0, 0).None?
  {
    var t := Padded(Literal(q, b), p);
    assert Print(Group(Str(q, b), p)) == Wrapped(t);
    WrapsExactly(t);
    LiteralPad(Round, q, b, p);
    if NeverBelow(Round, b) {
      WholeMeaning(h, vals, q, b, p);
      StringLiteralExact(h, vals, q, b);
    } else {
      CutMeaning(h, vals, Wrapped(t));
    }
  }

  /** `(')')` means nothing, though `')'` by itself means its body. */
  lemma StringWithParenthesis<V>(h: Host<V>, vals: V)
    ensures Meaning(h, vals, "(')')") == h.undefined && Meaning(h, vals, "')'") == h.text(")")
  {
    var w := "(')')";
    assert w == Wrapped("')'") && Literal('\'', ")") == "')'";
    NoOperator(w);
    NoOperator("')'");
    WrapsExactly("')'");
    assert !NonNegative(Round, "')'", 2) by {
      assert "')'"[..2] == "')" && "')"[1..] == ")" && ")"[1..] == [];
      assert Net(Round, ")") == -1;
    }
    CutMeaning(h, vals, w);
    TrimOfTrimmed("')'", JsSpace);
    StringAtom(h, vals, '\'', ")");
  }

  lemma NoOperator(s: string)
    requires forall i :: 0 <= i < |s| ==> !OpAt(s, i)
    ensures EqualityFrom(s, 0, 0).None?
  {
    EqualityExact(s);
    forall i ensures !TopOperator(s, i) { }
  }

  // ----- as a key -----------------------------------------------------------------------

  /** A quoted string as a key is read up to its own end exactly if its brackets are balanced. */
  lemma KeyClosesExactly(pre: string, q: char, b: string, p: Pad)
    requires (q == '"' || q == '\'') && GoodPad(p)
    ensures var s := pre + ("[" + Padded(Literal(q, b), p) + "]");
            CloseFrom(s, |pre| + 1, 1) == Some(|s| - 1) <==> Balanced(Square, b)
  {
    var t := Padded(Literal(q, b), p);
    var s := pre + ("[" + t + "]");
    assert s[|pre| + 1..|s| - 1] == t;
    CloseWhole(s, |pre| + 1, |s| - 1);
    LiteralPad(Square, q, b, p);
  }

  /** The value of a scan from `i` on, where a key follows. */
  lemma KeyRead<V>(h: Host<V>, vals: V, s: string, i: nat, cur: V)
    requires i < |s| && s[i] == '['
    ensures var j := CloseFrom(s, i + 1, 1);
            PathFrom(h, vals, s, i, cur) ==
              if j.None? then h.undefined else PathFrom(h, vals, s, j.value + 1, h.element(cur, Meaning(h, vals, s[i + 1..j.value])))
  {
  }

  /** A host whose values record how they were made, so that no two are equal by chance. */
  datatype Term =
    | Nothing | Nil | Yes | No
    | Number(digits: string) | Text(text: string) | Root
    | Field(of: Term, name: string) | Item(of: Term, key: Term)

  const FREE: Host<Term> := Host(
    Nothing, Nil, Yes, No,
    (s: string) => Number(s), (s: string) => Text(s),
    (t: Term) => t.Yes?, (a: Term, b: Term) => a == b, (a: Term, b: Term) => a == b,
    (t: Term, f: string) => Field(t, f), (t: Term, k: Term) => Item(t, k))

  /** How many accesses a value was made with. */
  function Depth(t: Term): nat {
    match t
    case Field(u, _) => Depth(u) + 1
    case Item(u, _) => Depth(u) + 1
    case _ => 0
  }

  lemma FieldRead<V>(h: Host<V>, vals: V, s: string, i: nat, cur: V)
    requires i < |s| && s[i] == '.'
    ensures var n := NameLength(s[i + 1..]);
            PathFrom(h, vals, s, i, cur) ==
              if n == 0 then h.undefined else PathFrom(h, vals, s, i + 1 + n, h.member(cur, s[i + 1..i + 1 + n]))
  {
  }

  /** From `cur` on the scan gave `r`: nothing, or `cur` itself at the end, or something deeper. */
  predicate Deepens(cur: Term, r: Term, end: bool) {
    r == Nothing || (if end then r == cur else Depth(r) > Depth(cur))
  }

  function FieldStep(vals: Term, e: string, i: nat, cur: Term): Term
    requires i < |e|
  {
    var n := NameLength(e[i + 1..]);
    if n == 0 then Nothing else PathFrom(FREE, vals, e, i + 1 + n, Field(cur, e[i + 1..i + 1 + n]))
  }

  function ItemStep(vals: Term, e: string, i: nat, cur: Term): Term
    requires i < |e|
  {
    var j := CloseFrom(e, i + 1, 1);
    if j.None? then Nothing else PathFrom(FREE, vals, e, j.value + 1, Item(cur, Meaning(FREE, vals, e[i + 1..j.value])))
  }

  lemma FreeStep(vals: Term, e: string, i: nat, cur: Term)
    requires i < |e|
    ensures PathFrom(FREE, vals, e, i, cur)
         == if e[i] == '.' then FieldStep(vals, e, i, cur) else if e[i] == '[' then ItemStep(vals, e, i, cur) else Nothing
  {
    if e[i] == '.' { FieldRead(FREE, vals, e, i, cur); }
    if e[i] == '[' { KeyRead(FREE, vals, e, i, cur); }
  }

  /** Every further step of a scan makes the value deeper, or ends it. */
  lemma {:induction false} PathDeepens(vals: Term, e: string, i: nat, cur: Term)
    requires i <= |e|
    ensures Deepens(cur, PathFrom(FREE, vals, e, i, cur), i == |e|)
    decreases |e| - i, 1
  {
    if i < |e| {
      FreeStep(vals, e, i, cur);
      if e[i] == '.' {
        FieldDeepens(vals, e, i, cur);
      } else if e[i] == '[' {
        ItemDeepens(vals, e, i, cur);
      }
    }
  }

  lemma FieldDeepens(vals: Term, e: string, i: nat, cur: Term)
    requires i < |e|
    ensures Deepens(cur, FieldStep(vals, e, i, cur), false)
    decreases |e| - i, 0
  {
    var n := NameLength(e[i + 1..]);
    if n > 0 { PathDeepens(vals, e, i + 1 + n, Field(cur, e[i + 1..i + 1 + n])); }
  }

  lemma ItemDeepens(vals: Term, e: string, i: nat, cur: Term)
    requires i < |e|
    ensures Deepens(cur, ItemStep(vals, e, i, cur), false)
    decreases |e| - i, 0
  {
    var j := CloseFrom(e, i + 1, 1);
    if j.Some? { PathDeepens(vals, e, j.value + 1, Item(cur, Meaning(FREE, vals, e[i + 1..j.value]))); }
  }

  /** The path with a quoted string as its last key. */
  function Keyed(base: Expr, q: char, b: string, p: Pad): Expr { Index(base, Str(q, b), p) }

  /** What such a path means: a comparison of pieces, or what the scan gives from its key on. */
  lemma KeyedMeaning<V>(h: Host<V>, vals: V, base: Expr, q: char, b: string, p: Pad)
    requires GoodPath(base)
    ensures var s := Print(Keyed(base, q, b, p)); var i := |Print(base)|;
            && i < |s| && s[i] == '['
            && (EqualityFrom(s, 0, 0).Some? ==> Meaning(h, vals, s) == h.yes || Meaning(h, vals, s) == h.no)
            && (EqualityFrom(s, 0, 0).None? ==> Meaning(h, vals, s) == PathFrom(h, vals, s, i, Eval(h, vals, base)))
  {
    var s := Print(Keyed(base, q, b, p));
    KeyedText(base, q, b, p, Print(base), Padded(Literal(q, b), p), s);
    PathScanned(h, vals, base, s);
    TrimOfTrimmed(s, JsSpace);
    assert MeaningOf(h, vals, s) == Meaning(h, vals, s);
    if EqualityFrom(s, 0, 0).None? {
      assert MeaningOf(h, vals, s) == Atom(h, vals, s);
      PathAtom(h, vals, s, |Print(base)|, Eval(h, vals, base));
    }
  }

  lemma KeyedParts(pre: string, t: string)
    requires pre != [] && IdentStart(pre[0])
    ensures var s, i := pre + ("[" + t + "]"), |pre|;
            && pre <= s && Continues(s, i) && i < |s| && s[i] == '['
            && s[i + 1..|s| - 1] == t && s[|s| - 1] == ']'
            && IdentStart(s[0]) && Trimmed(s, JsSpace) && !Keyword(s)
  {
    var s := pre + ("[" + t + "]");
    KeyAt(pre, t, s);
    assert !IdentPart(s[|s| - 1]);
    assert !Keyword(s) by { if Keyword(s) { KeywordLetters(s); } }
  }

  lemma KeyedText(base: Expr, q: char, b: string, p: Pad, pre: string, t: string, s: string)
    requires GoodPath(base) && pre == Print(base) && t == Padded(Literal(q, b), p) && s == Print(Keyed(base, q, b, p))
    ensures var i := |pre|;
            && s == pre + ("[" + t + "]") && pre <= s && Continues(s, i) && i < |s| && s[i] == '['
            && s[i + 1..|s| - 1] == t && s[|s| - 1] == ']'
            && IdentStart(s[0]) && Trimmed(s, JsSpace) && !Keyword(s)
  {
    PrintShapely(base);
    KeyedPrint(base, q, b, p);
    KeyedParts(pre, t);
  }

  lemma KeyedPrint(base: Expr, q: char, b: string, p: Pad)
    ensures Print(Keyed(base, q, b, p)) == Print(base) + ("[" + Padded(Literal(q, b), p) + "]")
  {
    assert Print(Str(q, b)) == Literal(q, b);
  }

  lemma PathAtom<V>(h: Host<V>, vals: V, s: string, i: nat, v: V)
    requires s != [] && IdentStart(s[0]) && !Keyword(s) && Scanned(h, vals, s, i, v)
    ensures Atom(h, vals, s) == PathFrom(h, vals, s, i, v)
  {
    assert Unfold(true);
  }

  /** A key that is closed at the end of the path is read from the text between. */
  lemma LastKey<V>(h: Host<V>, vals: V, s: string, i: nat, t: string, cur: V)
    requires i + 1 < |s| && s[i] == '[' && s[i + 1..|s| - 1] == t && CloseFrom(s, i + 1, 1) == Some(|s| - 1)
    ensures PathFrom(h, vals, s, i, cur) == h.element(cur, Meaning(h, vals, t))
  {
    KeyRead(h, vals, s, i, cur);
  }

  lemma LiteralMeans<V>(h: Host<V>, vals: V, q: char, b: string, p: Pad)
    requires (q == '"' || q == '\'') && GoodPad(p) && EqualityFrom(Literal(q, b), 0, 0).None?
    ensures Meaning(h, vals, Padded(Literal(q, b), p)) == h.text(b)
  {
    PaddedLiteral(h, vals, q, b, p);
    TrimOfTrimmed(Literal(q, b), JsSpace);
    StringAtom(h, vals, q, b);
  }

  /** For every host: with balanced brackets, and no operator found in the string or in the path, the
      key is the string's body. */
  lemma KeyLiteralMeans<V>(h: Host<V>, vals: V, base: Expr, q: char, b: string, p: Pad)
    requires GoodPath(base) && (q == '"' || q == '\'') && GoodPad(p)
    requires Balanced(Square, b) && EqualityFrom(Literal(q, b), 0, 0).None?
    requires EqualityFrom(Print(Keyed(base, q, b, p)), 0, 0).None?
    ensures Meaning(h, vals, Print(Keyed(base, q, b, p))) == h.element(Eval(h, vals, base), h.text(b))
  {
    KeyedPrint(base, q, b, p);
    KeyClosesExactly(Print(base), q, b, p);
    LiteralDenotes(h, vals, q, b, p);
    KeyedValue(h, vals, base, q, b, p, Print(Keyed(base, q, b, p)), Eval(h, vals, base), h.text(b));
    assert Unfold(true);
  }

  lemma LiteralDenotes<V>(h: Host<V>, vals: V, q: char, b: string, p: Pad)
    requires (q == '"' || q == '\'') && GoodPad(p) && EqualityFrom(Literal(q, b), 0, 0).None?
    ensures Denotes(h, vals, Padded(Literal(q, b), p), h.text(b))
  {
    LiteralMeans(h, vals, q, b, p);
  }

  /** The meaning of `s` is what a scan gives from `i` on. */
  ghost predicate ScansOn<V>(h: Host<V>, vals: V, s: string, i: nat, cur: V) {
    i <= |s| && forall u {:trigger Unfold(u)} :: Unfold(u) ==> Meaning(h, vals, s) == PathFrom(h, vals, s, i, cur)
  }

  lemma KeyedScans<V>(h: Host<V>, vals: V, base: Expr, q: char, b: string, p: Pad, s: string)
    requires GoodPath(base) && s == Print(Keyed(base, q, b, p)) && EqualityFrom(s, 0, 0).None?
    ensures ScansOn(h, vals, s, |Print(base)|, Eval(h, vals, base))
  {
    KeyedMeaning(h, vals, base, q, b, p);
  }

  lemma KeyedValue<V>(h: Host<V>, vals: V, base: Expr, q: char, b: string, p: Pad, s: string, cur: V, key: V)
    requires GoodPath(base) && s == Print(Keyed(base, q, b, p)) && cur == Eval(h, vals, base)
    requires EqualityFrom(s, 0, 0).None? && CloseFrom(s, |Print(base)| + 1, 1) == Some(|s| - 1)
    requires Denotes(h, vals, Padded(Literal(q, b), p), key)
    ensures Denotes(h, vals, s, h.element(cur, key))
  {
    KeyedScans(h, vals, base, q, b, p, s);
    KeyedText(base, q, b, p, Print(base), Padded(Literal(q, b), p), s);
    LastKeyDenotes(h, vals, s, |Print(base)|, Padded(Literal(q, b), p), cur, key);
  }

  lemma LastKeyDenotes<V>(h: Host<V>, vals: V, s: string, i: nat, t: string, cur: V, key: V)
    requires i + 1 < |s| && s[i] == '[' && s[i + 1..|s| - 1] == t && CloseFrom(s, i + 1, 1) == Some(|s| - 1)
    requires Denotes(h, vals, t, key) && ScansOn(h, vals, s, i, cur)
    ensures Denotes(h, vals, s, h.element(cur, key))
  {
    LastKey(h, vals, s, i, t, cur);
    assert Unfold(true);
  }

  lemma PaddedLiteral<V>(h: Host<V>, vals: V, q: char, b: string, p: Pad)
    requires (q == '"' || q == '\'') && GoodPad(p)
    ensures Meaning(h, vals, Padded(Literal(q, b), p)) == Meaning(h, vals, Literal(q, b))
  {
    TrimPad(p.before, Literal(q, b), p.after, JsSpace);
    TrimOfTrimmed(Literal(q, b), JsSpace);
  }

  /** A key that is closed early makes the value too deep, or ends the scan. */
  lemma CutKey(vals: Term, s: string, i: nat, cur: Term, key: Term)
    requires i + 1 < |s| && s[i] == '[' && CloseFrom(s, i + 1, 1) != Some(|s| - 1)
    ensures PathFrom(FREE, vals, s, i, cur) != Item(cur, key)
  {
    FreeStep(vals, s, i, cur);
    var j := CloseFrom(s, i + 1, 1);
    if j.Some? { PathDeepens(vals, s, j.value + 1, Item(cur, Meaning(FREE, vals, s[i + 1..j.value]))); }
  }

  lemma KeyValueExact(vals: Term, s: string, i: nat, cur: Term, q: char, b: string, p: Pad)
    requires (q == '"' || q == '\'') && GoodPad(p)
    requires i + 1 < |s| && s[i] == '[' && s[i + 1..|s| - 1] == Padded(Literal(q, b), p)
    ensures PathFrom(FREE, vals, s, i, cur) == Item(cur, Text(b))
       <==> CloseFrom(s, i + 1, 1) == Some(|s| - 1) && EqualityFrom(Literal(q, b), 0, 0).None?
  {
    if CloseFrom(s, i + 1, 1) == Some(|s| - 1) {
      LastKey(FREE, vals, s, i, Padded(Literal(q, b), p), cur);
      PaddedLiteral(FREE, vals, q, b, p);
      StringLiteralExact(FREE, vals, q, b);
    } else {
      CutKey(vals, s, i, cur, Text(b));
    }
  }

  lemma KeyedExact(vals: Term, base: Expr, q: char, b: string, p: Pad, s: string)
    requires GoodPath(base) && (q == '"' || q == '\'') && GoodPad(p) && s == Print(Keyed(base, q, b, p))
    requires EqualityFrom(s, 0, 0).None?
    ensures Meaning(FREE, vals, s) == Item(Eval(FREE, vals, base), Text(b))
       <==> CloseFrom(s, |Print(base)| + 1, 1) == Some(|s| - 1) && EqualityFrom(Literal(q, b), 0, 0).None?
  {
    KeyedMeaning(FREE, vals, base, q, b, p);
    KeyedText(base, q, b, p, Print(base), Padded(Literal(q, b), p), s);
    KeyValueExact(vals, s, |Print(base)|, Eval(FREE, vals, base), q, b, p);
  }

  /** And these conditions are exact: without them the path does not mean that, in the host that
      keeps all values apart. */
  lemma KeyLiteralExact(vals: Term, base: Expr, q: char, b: string, p: Pad)
    requires GoodPath(base) && (q == '"' || q == '\'') && GoodPad(p)
    ensures Meaning(FREE, vals, Print(Keyed(base, q, b, p))) == Item(Eval(FREE, vals, base), Text(b))
       <==> EqualityFrom(Print(Keyed(base, q, b, p)), 0, 0).None? && Balanced(Square, b) && EqualityFrom(Literal(q, b), 0, 0).None?
  {
    var s := Print(Keyed(base, q, b, p));
    if EqualityFrom(s, 0, 0).None? {
      KeyedExact(vals, base, q, b, p, s);
      KeyedPrint(base, q, b, p);
      KeyClosesExactly(Print(base), q, b, p);
    } else {
      KeyedMeaning(FREE, vals, base, q, b, p);
    }
  }
}
