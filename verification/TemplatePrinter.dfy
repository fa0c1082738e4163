/** Abstract template expressions, their meaning and their printed form: evaluating what is
    printed gives the meaning. */
module TemplatePrinter {
  import opened Options
  import opened Folding
  import opened Text
  import opened Nesting
  import opened TemplateScan
  import opened TemplateExpr

  // ----- expressions --------------------------------------------------------------------

  /** White space in front of and behind something. */
  datatype Pad = Pad(before: string, after: string)

  datatype Word = True | False | Null | Undefined

  datatype Op = StrictEq | StrictNe | LooseEq | LooseNe

  datatype Expr =
    | Const(word: Word)
    | Num(minus: bool, whole: string, fraction: Option<string>)
    | Str(quote: char, body: string)
    | Var(name: string)
    | Member(base: Expr, field: string)
    | Index(base: Expr, key: Expr, pad: Pad)
    | Not(arg: Expr, space: string, pad: Pad)
    | Eq(op: Op, left: Expr, leftPad: Pad, gap: Pad, right: Expr, rightPad: Pad)
    | Group(arg: Expr, pad: Pad)

  function WordText(w: Word): string {
    match w
    case True => "true"
    case False => "false"
    case Null => "null"
    case Undefined => "undefined"
  }

  function OpName(o: Op): string {
    match o
    case StrictEq => "==="
    case StrictNe => "!=="
    case LooseEq => "=="
    case LooseNe => "!="
  }

  /** A sign, digits and a fraction. */
  function NumberText(minus: bool, whole: string, fraction: Option<string>): string {
    (if minus then "-" else "") + whole + (if fraction.Some? then "." + fraction.value else "")
  }

  function Padded(s: string, p: Pad): string { p.before + s + p.after }

  function Wrapped(s: string): string { "(" + s + ")" }

  /** Two groups `l` and `r` with an operator between them. */
  function Comparison(l: string, g: Pad, o: Op, r: string): string {
    Wrapped(l) + g.before + OpName(o) + g.after + Wrapped(r)
  }

  /** The printed form: every operand in parentheses. */
  function Print(e: Expr): string {
    match e
    case Const(w) => WordText(w)
    case Num(m, w, f) => NumberText(m, w, f)
    case Str(q, b) => Literal(q, b)
    case Var(n) => n
    case Member(b, f) => Print(b) + ("." + f)
    case Index(b, k, p) => Print(b) + ("[" + Padded(Print(k), p) + "]")
    case Not(a, g, p) => "!" + g + Wrapped(Padded(Print(a), p))
    case Eq(o, l, lp, g, r, rp) => Comparison(Padded(Print(l), lp), g, o, Padded(Print(r), rp))
    case Group(a, p) => Wrapped(Padded(Print(a), p))
  }

  function Eval<V>(h: Host<V>, vals: V, e: Expr): V {
    match e
    case Const(w) => (match w case True => h.yes case False => h.no case Null => h.nul case Undefined => h.undefined)
    case Num(m, w, f) => h.number(NumberText(m, w, f))
    case Str(_, b) => h.text(b)
    case Var(n) => h.member(vals, n)
    case Member(b, f) => h.member(Eval(h, vals, b), f)
    case Index(b, k, _) => h.element(Eval(h, vals, b), Eval(h, vals, k))
    case Not(a, _, _) => if h.truthy(Eval(h, vals, a)) then h.no else h.yes
    case Eq(o, l, _, _, r, _) =>
      var a, b := Eval(h, vals, l), Eval(h, vals, r);
      (match o
       case StrictEq => if h.strictEq(a, b) then h.yes else h.no
       case StrictNe => if h.strictEq(a, b) then h.no else h.yes
       case LooseEq => if h.looseEq(a, b) then h.yes else h.no
       case LooseNe => if h.looseEq(a, b) then h.no else h.yes)
    case Group(a, _) => Eval(h, vals, a)
  }

  predicate Keyword(s: string) {
    s == "true" || s == "false" || s == "null" || s == "undefined"
  }

  predicate IsIdent(s: string) {
    s != [] && IdentStart(s[0]) && forall i :: 0 <= i < |s| ==> IdentPart(s[i])
  }

  predicate IsDigits(s: string) {
    s != [] && forall i :: 0 <= i < |s| ==> Digit(s[i])
  }

  predicate GoodPad(p: Pad) {
    Blank(p.before, JsSpace) && Blank(p.after, JsSpace)
  }

  /** A quoted string. */
  function Literal(q: char, b: string): string { [q] + b + [q] }

  /** Parentheses and brackets in the body are nested, and no operator is found outside them. */
  ghost predicate GoodBody(q: char, b: string) {
    Nested(b) && EqualityFrom(Literal(q, b), 0, 0).None?
  }

  /** A well-formed expression. A keyword may head a longer path, but is no variable. */
  ghost predicate Good(e: Expr)
    decreases e, 1
  {
    match e
    case Const(_) => true
    case Num(_, w, f) => IsDigits(w) && (f.Some? ==> IsDigits(f.value))
    case Str(q, b) => (q == '"' || q == '\'') && GoodBody(q, b)
    case Var(n) => GoodPath(e) && !Keyword(n)
    case Member(_, _) => GoodPath(e)
    case Index(_, _, _) => GoodPath(e)
    case Not(a, g, p) => Good(a) && Blank(g, JsSpace) && GoodPad(p)
    case Eq(_, l, lp, g, r, rp) => Good(l) && Good(r) && GoodPad(lp) && GoodPad(g) && GoodPad(rp)
    case Group(a, p) => Good(a) && GoodPad(p)
  }

  ghost predicate GoodPath(e: Expr)
    decreases e, 0
  {
    match e
    case Var(n) => IsIdent(n)
    case Member(b, f) => GoodPath(b) && (IsIdent(f) || IsDigits(f))
    case Index(b, k, p) => GoodPath(b) && Good(k) && GoodPad(p)
    case _ => false
  }

  // ----- the shape of printed text ------------------------------------------------------

  /** Printed text is not empty, has no white space at its ends, and is nested. */
  ghost predicate Shapely(s: string) {
    s != [] && Trimmed(s, JsSpace) && Nested(s)
  }

  lemma PlainBlank(s: string)
    requires Blank(s, JsSpace)
    ensures Plain(s)
  {
  }

  lemma PaddedNested(s: string, p: Pad)
    requires Nested(s) && GoodPad(p)
    ensures Nested(Padded(s, p))
  {
    PlainBlank(p.before);
    PlainBlank(p.after);
    NestedPlain(p.before);
    NestedPlain(p.after);
    NestedJoin(p.before, s);
    NestedJoin(p.before + s, p.after);
  }

  lemma WrappedShapely(s: string)
    requires Nested(s)
    ensures Shapely(Wrapped(s))
  {
    NestedRound(s);
  }

  lemma PlainShapely(s: string)
    requires s != [] && Plain(s) && !JsSpace(s[0]) && !JsSpace(s[|s| - 1])
    ensures Shapely(s)
  {
    NestedPlain(s);
  }

  lemma JoinShapely(a: string, b: string)
    requires Shapely(a) && Nested(b) && b != [] && !JsSpace(b[|b| - 1])
    ensures Shapely(a + b)
  {
    NestedJoin(a, b);
  }

  lemma IdentPlain(s: string)
    requires IsIdent(s) || IsDigits(s)
    ensures Plain(s) && !JsSpace(s[0]) && !JsSpace(s[|s| - 1])
    ensures forall i :: 0 <= i < |s| ==> !OpChar(s[i])
  {
  }

  lemma {:induction false} RunAll(s: string, part: bool)
    requires RunLength(s, part) == |s|
    ensures forall i :: 0 <= i < |s| ==> IdentPart(s[i]) && (!part ==> Digit(s[i]))
  {
    if s != [] { RunAll(s[1..], part); }
  }

  lemma {:induction false} RunPrefix(s: string, part: bool)
    ensures forall i :: 0 <= i < RunLength(s, part) ==> IdentPart(s[i])
  {
    if s != [] { RunPrefix(s[1..], part); }
  }

  lemma DecimalLetters(t: string)
    requires Decimal(t)
    ensures Digit(t[0]) && IdentPart(t[|t| - 1]) && forall i :: 0 <= i < |t| ==> IdentPart(t[i]) || t[i] == '.'
  {
    var n := DigitsLength(t);
    RunPrefix(t, false);
    if n < |t| {
      RunAll(t[n + 1..], false);
      forall i | n < i < |t| ensures IdentPart(t[i]) { assert t[i] == t[n + 1..][i - n - 1]; }
    }
  }

  lemma NumberPlain(s: string)
    requires IsNumber(s)
    ensures Plain(s) && s != [] && !JsSpace(s[0]) && !JsSpace(s[|s| - 1])
    ensures forall i :: 0 <= i < |s| ==> !OpChar(s[i])
    ensures s[0] == '-' || Digit(s[0])
  {
    var t := if s != [] && s[0] == '-' then s[1..] else s;
    assert Decimal(t);
    DecimalLetters(t);
    assert s[|s| - 1] == t[|t| - 1];
    forall i | 0 <= i < |s| ensures IdentPart(s[i]) || s[i] == '.' || s[i] == '-' {
      if t != s && i > 0 { assert s[i] == t[i - 1]; }
    }
  }

  lemma {:induction false} DigitsRead(a: string, rest: string)
    requires (forall i :: 0 <= i < |a| ==> Digit(a[i])) && (rest == [] || !Digit(rest[0]))
    ensures DigitsLength(a + rest) == |a|
  {
    if a == [] {
      assert a + rest == rest;
    } else {
      assert (a + rest)[1..] == a[1..] + rest;
      DigitsRead(a[1..], rest);
    }
  }

  lemma DecimalWritten(whole: string, fraction: Option<string>)
    requires IsDigits(whole) && (fraction.Some? ==> IsDigits(fraction.value))
    ensures Decimal(NumberText(false, whole, fraction))
  {
    var t := NumberText(false, whole, fraction);
    if fraction.Some? {
      var f := fraction.value;
      assert t == whole + ("." + f);
      DigitsRead(whole, "." + f);
      assert t[|whole| + 1..] == f && f + [] == f;
      DigitsRead(f, []);
    } else {
      assert t == whole + [];
      DigitsRead(whole, []);
    }
  }

  /** An optional minus sign, digits, and optionally a dot and digits make a number. */
  lemma NumberWritten(minus: bool, whole: string, fraction: Option<string>)
    requires IsDigits(whole) && (fraction.Some? ==> IsDigits(fraction.value))
    ensures IsNumber(NumberText(minus, whole, fraction))
  {
    var t, s := NumberText(false, whole, fraction), NumberText(minus, whole, fraction);
    DecimalWritten(whole, fraction);
    if minus {
      SignedText(whole, fraction);
      assert s[1..] == t;
    } else {
      assert t[0] == whole[0];
    }
  }

  lemma {:induction false} RunDigits(s: string)
    ensures forall i :: 0 <= i < DigitsLength(s) ==> Digit(s[i])
  {
    if s != [] { RunDigits(s[1..]); }
  }

  lemma DecimalParts(t: string) returns (whole: string, fraction: Option<string>)
    requires Decimal(t)
    ensures t == NumberText(false, whole, fraction) && IsDigits(whole) && (fraction.Some? ==> IsDigits(fraction.value))
  {
    var n := DigitsLength(t);
    whole := t[..n];
    RunDigits(t);
    if n == |t| {
      fraction := None;
    } else {
      RunAll(t[n + 1..], false);
      fraction := Some(t[n + 1..]);
      assert t == t[..n] + ("." + t[n + 1..]);
    }
  }

  /** And nothing else is a number. */
  lemma NumberParts(s: string) returns (minus: bool, whole: string, fraction: Option<string>)
    requires IsNumber(s)
    ensures s == NumberText(minus, whole, fraction) && IsDigits(whole) && (fraction.Some? ==> IsDigits(fraction.value))
  {
    minus := s != [] && s[0] == '-';
    if minus {
      whole, fraction := DecimalParts(s[1..]);
      SignedText(whole, fraction);
      assert s == "-" + s[1..];
    } else {
      whole, fraction := DecimalParts(s);
    }
  }

  lemma SignedText(whole: string, fraction: Option<string>)
    ensures NumberText(true, whole, fraction) == "-" + NumberText(false, whole, fraction)
  {
  }

  ghost predicate Written(s: string, minus: bool, whole: string, fraction: Option<string>) {
    s == NumberText(minus, whole, fraction) && IsDigits(whole) && (fraction.Some? ==> IsDigits(fraction.value))
  }

  /** What counts as a number, over sign, digits and fraction. */
  lemma NumberExactly(s: string)
    ensures IsNumber(s) <==> exists minus, whole, fraction :: Written(s, minus, whole, fraction)
  {
    if IsNumber(s) {
      var minus, whole, fraction := NumberParts(s);
      assert Written(s, minus, whole, fraction);
    }
    if minus, whole, fraction :| Written(s, minus, whole, fraction) { NumberWritten(minus, whole, fraction); }
  }

  lemma LiteralShapely(q: char, b: string)
    requires (q == '"' || q == '\'') && Nested(b)
    ensures Shapely(Literal(q, b))
  {
    NestedPlain([q]);
    NestedJoin([q], b);
    NestedJoin([q] + b, [q]);
  }

  lemma {:induction false} PrintShapely(e: Expr)
    requires Good(e) || GoodPath(e)
    ensures Shapely(Print(e))
    ensures GoodPath(e) ==> IdentStart(Print(e)[0])
  {
    match e
    case Const(w) => PlainShapely(WordText(w));
    case Num(m, w, f) =>
      NumberWritten(m, w, f);
      NumberPlain(NumberText(m, w, f));
      PlainShapely(NumberText(m, w, f));
    case Str(q, b) => LiteralShapely(q, b);
    case Var(n) => IdentPlain(n); PlainShapely(n);
    case Member(b, f) =>
      PrintShapely(b);
      IdentPlain(f);
      NestedPlain("." + f);
      JoinShapely(Print(b), "." + f);
    case Index(b, k, p) =>
      PrintShapely(b);
      PrintShapely(k);
      PaddedNested(Print(k), p);
      NestedSquare(Padded(Print(k), p));
      JoinShapely(Print(b), "[" + Padded(Print(k), p) + "]");
    case Not(a, g, p) =>
      PrintShapely(a);
      PaddedNested(Print(a), p);
      NotShapely(Padded(Print(a), p), g);
    case Group(a, p) =>
      PrintShapely(a);
      PaddedNested(Print(a), p);
      WrappedShapely(Padded(Print(a), p));
    case Eq(o, l, lp, g, r, rp) =>
      PrintShapely(l);
      PrintShapely(r);
      EqShapely(o, Padded(Print(l), lp), g, Padded(Print(r), rp)) by {
        PaddedNested(Print(l), lp);
        PaddedNested(Print(r), rp);
      }
  }

  lemma EqShapely(o: Op, l: string, g: Pad, r: string)
    requires Nested(l) && Nested(r) && GoodPad(g)
    ensures Shapely(Comparison(l, g, o, r))
  {
    WrappedShapely(l);
    WrappedShapely(r);
    PlainBlank(g.before);
    PlainBlank(g.after);
    NestedPlain(g.before);
    NestedPlain(OpName(o));
    NestedPlain(g.after);
    NestedJoin(Wrapped(l), g.before);
    NestedJoin(Wrapped(l) + g.before, OpName(o));
    NestedJoin(Wrapped(l) + g.before + OpName(o), g.after);
    NestedJoin(Wrapped(l) + g.before + OpName(o) + g.after, Wrapped(r));
  }

  // ----- evaluating printed text --------------------------------------------------------

  /** Evaluating `s` gives `v`. */
  ghost predicate Denotes<V>(h: Host<V>, vals: V, s: string, v: V) {
    forall u {:trigger Unfold(u)} :: Unfold(u) ==> Meaning(h, vals, s) == v
  }

  /** White space around an expression does not matter. */
  lemma DenotesPadded<V>(h: Host<V>, vals: V, s: string, p: Pad, v: V)
    requires Shapely(s) && GoodPad(p) && Denotes(h, vals, s, v)
    ensures Denotes(h, vals, Padded(s, p), v)
  {
    TrimPad(p.before, s, p.after, JsSpace);
    TrimOfTrimmed(s, JsSpace);
    assert Unfold(true);
  }

  lemma WrapsWhole(t: string)
    requires Nested(t)
    ensures WrapFrom(Wrapped(t), 0, 0)
  {
    var e := Wrapped(t);
    assert e[1..|e| - 1] == t;
    WrapNested(e, 1, |e| - 1);
  }

  /** Nor do parentheses around all of it. */
  lemma DenotesWrapped<V>(h: Host<V>, vals: V, t: string, v: V)
    requires Nested(t) && Denotes(h, vals, t, v)
    ensures Denotes(h, vals, Wrapped(t), v)
  {
    var e := Wrapped(t);
    WrapsWhole(t);
    TrimOfTrimmed(e, JsSpace);
    assert e[1..|e| - 1] == t;
    assert Unfold(true);
  }

  lemma DenotesGroup<V>(h: Host<V>, vals: V, s: string, p: Pad, v: V)
    requires Shapely(s) && GoodPad(p) && Denotes(h, vals, s, v)
    ensures Shapely(Wrapped(Padded(s, p))) && Denotes(h, vals, Wrapped(Padded(s, p)), v)
  {
    PaddedNested(s, p);
    WrappedShapely(Padded(s, p));
    DenotesPadded(h, vals, s, p, v);
    DenotesWrapped(h, vals, Padded(s, p), v);
  }

  lemma DenotesNot<V>(h: Host<V>, vals: V, e: string, v: V)
    requires Shapely(e) && e[0] == '!' && Passes(e, 0, |e|) && Denotes(h, vals, e[1..], v)
    ensures Denotes(h, vals, e, h.Bool(!h.truthy(v)))
  {
    PassesAll(e);
    TrimOfTrimmed(e, JsSpace);
    assert Unfold(true);
  }

  /** A group at `i` whose inside is `t` is passed over. */
  lemma PassesGroup(e: string, i: nat, t: string)
    requires Nested(t) && i + |t| + 2 <= |e| && e[i] == '(' && e[i + 1..i + 1 + |t|] == t && e[i + 1 + |t|] == ')'
    ensures Passes(e, i, i + |t| + 2)
  {
    PassesEnclosed(e, i, i + 1 + |t|);
  }

  lemma PassesNot(t: string, g: string)
    requires Nested(t) && Blank(g, JsSpace)
    ensures var e := "!" + g + Wrapped(t); Passes(e, 0, |e|)
  {
    var e := "!" + g + Wrapped(t);
    assert e[|g| + 1] == '(' && e[|g| + 2..|g| + 2 + |t|] == t;
    PassesGroup(e, |g| + 1, t);
    PassesPlain(e, 0, |g| + 1) by {
      assert forall k :: 1 <= k < |g| + 1 ==> e[k] == g[k - 1];
    }
    PassesJoin(e, 0, |g| + 1, |e|);
  }

  lemma NotShapely(t: string, g: string)
    requires Nested(t) && Blank(g, JsSpace)
    ensures Shapely("!" + g + Wrapped(t))
  {
    WrappedShapely(t);
    PlainBlank(g);
    NestedPlain("!" + g);
    NestedJoin("!" + g, Wrapped(t));
  }

  lemma NotEvaluated<V>(h: Host<V>, vals: V, s: string, g: string, p: Pad, v: V)
    requires Shapely(s) && Blank(g, JsSpace) && GoodPad(p) && Denotes(h, vals, s, v)
    ensures Denotes(h, vals, "!" + g + Wrapped(Padded(s, p)), h.Bool(!h.truthy(v)))
  {
    var t := Padded(s, p);
    var e := "!" + g + Wrapped(t);
    PaddedNested(s, p);
    PassesNot(t, g);
    NotShapely(t, g);
    DenotesGroup(h, vals, s, p, v);
    DenotesPadded(h, vals, Wrapped(t), Pad(g, ""), v);
    assert e[1..] == Padded(Wrapped(t), Pad(g, ""));
    DenotesNot(h, vals, e, v);
  }

  function OpIndex(l: string, g: Pad): nat { |l| + 2 + |g.before| }

  /** The first group of a comparison closes before the end. */
  lemma ComparisonNotWrapped(l: string, g: Pad, o: Op, r: string)
    requires Nested(l)
    ensures !WrapFrom(Comparison(l, g, o, r), 0, 0)
  {
    var e := Comparison(l, g, o, r);
    assert e[0] == '(' && e[|l| + 1] == ')';
    assert e[1..|l| + 1] == l;
    WrapNested(e, 1, |l| + 1);
  }

  lemma ComparisonParts(l: string, g: Pad, o: Op, r: string)
    ensures var e := Comparison(l, g, o, r); var i := OpIndex(l, g); var n := |OpName(o)|;
            && i + n < |e|
            && e[..i] == Padded(Wrapped(l), Pad("", g.before))
            && e[i..i + n] == OpName(o)
            && e[i + n..] == Padded(Wrapped(r), Pad(g.after, ""))
  {
    var e := Comparison(l, g, o, r);
    var i := OpIndex(l, g);
    var left, rest := Wrapped(l) + g.before, g.after + Wrapped(r);
    assert |left| == i && e == left + (OpName(o) + rest);
    assert e[..i] == left && e[i..] == OpName(o) + rest;
    assert e[i..i + |OpName(o)|] == e[i..][..|OpName(o)|] && e[i + |OpName(o)|..] == e[i..][|OpName(o)|..];
    assert e[i + |OpName(o)|..] == g.after + Wrapped(r);
    assert e[i..i + |OpName(o)|] == OpName(o);
  }

  lemma PassesOperand(e: string, l: string, b: string)
    requires Nested(l) && Blank(b, JsSpace) && |l| + 2 + |b| <= |e| && e[..|l| + 2 + |b|] == Wrapped(l) + b
    ensures Passes(e, 0, |l| + 2 + |b|)
  {
    var w := Wrapped(l) + b;
    assert forall k :: 0 <= k < |w| ==> e[k] == w[k];
    assert e[1..1 + |l|] == l;
    PassesGroup(e, 0, l);
    PassesPlain(e, |l| + 2, |w|) by {
      assert forall k :: |l| + 2 <= k < |w| ==> w[k] == b[k - |l| - 2];
    }
    PassesJoin(e, 0, |l| + 2, |w|);
  }

  /** The operator between two groups is read at its full length. */
  lemma OperatorRead(e: string, i: nat, o: Op, rest: string)
    requires i < |e| && e[i..] == OpName(o) + rest && rest != [] && rest[0] != '='
    ensures OpAt(e, i) && OpText(e, i) == OpName(o)
  {
    var t := OpName(o) + rest;
    assert e[i] == t[0] && e[i + 1] == t[1] && e[i + 2] == t[2];
  }

  /** What stands before the operator begins with a group, and does not end in an operator. */
  lemma OperandEnds(e: string, l: string, b: string)
    requires Blank(b, JsSpace) && |l| + 2 + |b| <= |e| && e[..|l| + 2 + |b|] == Wrapped(l) + b
    ensures !OpChar(e[|l| + 1 + |b|]) && !Blank(e[..|l| + 2 + |b|], JsSpace)
  {
    var w := Wrapped(l) + b;
    assert w[0] == '(' && !OpChar(w[|w| - 1]);
    assert e[|w| - 1] == w[|w| - 1];
  }

  lemma ComparisonSplit(l: string, g: Pad, o: Op, r: string)
    ensures var e := Comparison(l, g, o, r); var i := OpIndex(l, g);
            i < |e| && e[..i] == Wrapped(l) + g.before && e[i..] == OpName(o) + (g.after + Wrapped(r))
  {
    var w, n, r' := Wrapped(l) + g.before, OpName(o), g.after + Wrapped(r);
    assert Comparison(l, g, o, r) == w + (n + r');
  }

  /** The search finds the operator between the groups. */
  lemma ComparisonFound(l: string, g: Pad, o: Op, r: string)
    requires Nested(l) && GoodPad(g)
    ensures EqualityFrom(Comparison(l, g, o, r), 0, 0) == Some(Equality(OpIndex(l, g), OpName(o)))
  {
    var e := Comparison(l, g, o, r);
    var i := OpIndex(l, g);
    ComparisonSplit(l, g, o, r);
    PassesOperand(e, l, g.before);
    OperatorRead(e, i, o, g.after + Wrapped(r));
    OperandEnds(e, l, g.before);
    PassesTo(e, i);
  }

  lemma MeaningEq<V>(h: Host<V>, vals: V, e: string, i: nat, op: string)
    requires e != [] && Trimmed(e, JsSpace) && (e[0] != '(' || !WrapFrom(e, 0, 0)) && EqualityFrom(e, 0, 0) == Some(Equality(i, op))
    ensures i + |op| <= |e|
    ensures Meaning(h, vals, e) == Compare(h, op, Meaning(h, vals, e[..i]), Meaning(h, vals, e[i + |op|..]))
  {
    TrimOfTrimmed(e, JsSpace);
  }

  lemma DenotesEq<V>(h: Host<V>, vals: V, e: string, i: nat, op: string, a: V, b: V)
    requires e != [] && Trimmed(e, JsSpace) && (e[0] != '(' || !WrapFrom(e, 0, 0)) && EqualityFrom(e, 0, 0) == Some(Equality(i, op))
    requires i + |op| <= |e| && Denotes(h, vals, e[..i], a) && Denotes(h, vals, e[i + |op|..], b)
    ensures Denotes(h, vals, e, Compare(h, op, a, b))
  {
    MeaningEq(h, vals, e, i, op);
    assert Unfold(true);
  }

  lemma EqEvaluated<V>(h: Host<V>, vals: V, o: Op, x: string, lp: Pad, g: Pad, y: string, rp: Pad, a: V, b: V)
    requires Shapely(x) && Shapely(y) && GoodPad(lp) && GoodPad(g) && GoodPad(rp)
    requires Denotes(h, vals, x, a) && Denotes(h, vals, y, b)
    ensures Denotes(h, vals, Comparison(Padded(x, lp), g, o, Padded(y, rp)), Compare(h, OpName(o), a, b))
  {
    var l, r := Padded(x, lp), Padded(y, rp);
    PaddedNested(x, lp);
    PaddedNested(y, rp);
    EqShapely(o, l, g, r);
    ComparisonNotWrapped(l, g, o, r);
    ComparisonFound(l, g, o, r);
    ComparisonParts(l, g, o, r);
    DenotesGroup(h, vals, x, lp, a);
    DenotesGroup(h, vals, y, rp, b);
    DenotesPadded(h, vals, Wrapped(l), Pad("", g.before), a);
    DenotesPadded(h, vals, Wrapped(r), Pad(g.after, ""), b);
    DenotesEq(h, vals, Comparison(l, g, o, r), OpIndex(l, g), OpName(o), a, b);
  }

  // ----- paths --------------------------------------------------------------------------

  lemma {:induction false} RunGreedy(a: string, rest: string, part: bool)
    requires forall i :: 0 <= i < |a| ==> Digit(a[i]) || (part && IdentPart(a[i]))
    requires rest == [] || !IdentPart(rest[0])
    ensures RunLength(a + rest, part) == |a|
  {
    if a == [] {
      assert a + rest == rest;
    } else {
      assert (a + rest)[1..] == a[1..] + rest;
      RunGreedy(a[1..], rest, part);
    }
  }

  /** A name is read up to its end. */
  lemma NameRead(f: string, rest: string)
    requires IsIdent(f) || IsDigits(f)
    requires rest == [] || !IdentPart(rest[0])
    ensures NameLength(f + rest) == |f| && (IsIdent(f) ==> IdentLength(f + rest) == |f|)
  {
    assert (f + rest)[0] == f[0];
    if IsIdent(f) {
      assert (f + rest)[1..] == f[1..] + rest;
      RunGreedy(f[1..], rest, true);
    } else {
      RunGreedy(f, rest, false);
    }
  }

  /** A name that stops at `i` in `s` does not go on there. */
  predicate Continues(s: string, i: nat) {
    i < |s| ==> !IdentPart(s[i])
  }

  lemma NameReadAt(s: string, i: nat, f: string)
    requires (IsIdent(f) || IsDigits(f)) && i + |f| <= |s| && s[i..i + |f|] == f && Continues(s, i + |f|)
    ensures NameLength(s[i..]) == |f| && (IsIdent(f) ==> IdentLength(s[i..]) == |f|)
  {
    assert s[i..] == f + s[i + |f|..];
    NameRead(f, s[i + |f|..]);
  }

  lemma PassesName(s: string, i: nat, f: string)
    requires IsIdent(f) || IsDigits(f)
    requires i + |f| <= |s| && s[i..i + |f|] == f
    ensures Passes(s, i, i + |f|)
  {
    IdentPlain(f);
    forall k | i <= k < i + |f| ensures s[k] == f[k - i] {
      assert s[k] == s[i..i + |f|][k - i];
    }
    PassesPlain(s, i, i + |f|);
  }

  lemma KeyNested(k: Expr, pad: Pad)
    requires Good(k) && GoodPad(pad)
    ensures Nested(Padded(Print(k), pad))
  {
    PrintShapely(k);
    PaddedNested(Print(k), pad);
  }

  lemma FieldAt(b: string, f: string, s: string)
    requires b + ("." + f) <= s
    ensures b <= s && s[|b|] == '.' && s[|b| + 1..|b| + 1 + |f|] == f
  {
    var w := b + ("." + f);
    assert s[..|w|] == w;
    assert w[|b| + 1..] == f;
    assert s[|b| + 1..|b| + 1 + |f|] == w[|b| + 1..];
  }

  lemma KeyAt(b: string, t: string, s: string)
    requires b + ("[" + t + "]") <= s
    ensures b <= s && s[|b|] == '[' && s[|b| + 1..|b| + 1 + |t|] == t && s[|b| + 1 + |t|] == ']'
  {
    var w := b + ("[" + t + "]");
    assert s[..|w|] == w;
    assert w[|b| + 1..|b| + 1 + |t|] == t;
    assert s[|b| + 1..|b| + 1 + |t|] == w[|b| + 1..|b| + 1 + |t|];
  }

  lemma BasePrefix(p: Expr, s: string)
    requires (p.Member? || p.Index?) && Print(p) <= s
    ensures Print(p.base) <= s && Continues(s, |Print(p.base)|)
  {
    if p.Member? {
      FieldAt(Print(p.base), p.field, s);
    } else {
      KeyAt(Print(p.base), Padded(Print(p.key), p.pad), s);
    }
  }

  lemma FieldQuiet(b: string, f: string, s: string)
    requires (IsIdent(f) || IsDigits(f)) && b + ("." + f) <= s && Passes(s, 0, |b|)
    ensures Passes(s, 0, |b| + 1 + |f|)
  {
    FieldAt(b, f, s);
    PassesField(s, |b|, f);
    PassesJoin(s, 0, |b|, |b| + 1 + |f|);
  }

  lemma MemberQuiet(b: Expr, f: string, s: string)
    requires (IsIdent(f) || IsDigits(f)) && Print(Member(b, f)) <= s && Passes(s, 0, |Print(b)|)
    ensures Passes(s, 0, |Print(Member(b, f))|)
  {
    assert Print(Member(b, f)) == Print(b) + ("." + f);
    assert |Print(Member(b, f))| == |Print(b)| + 1 + |f|;
    FieldQuiet(Print(b), f, s);
  }

  lemma KeyQuiet(b: string, t: string, s: string)
    requires Nested(t) && b + ("[" + t + "]") <= s && Passes(s, 0, |b|)
    ensures Passes(s, 0, |b| + 2 + |t|)
  {
    KeyAt(b, t, s);
    PassesEnclosed(s, |b|, |b| + 1 + |t|);
    PassesJoin(s, 0, |b|, |b| + 2 + |t|);
  }

  lemma IndexQuiet(b: Expr, k: Expr, pad: Pad, t: string, s: string)
    requires t == Padded(Print(k), pad) && Nested(t) && Print(Index(b, k, pad)) <= s && Passes(s, 0, |Print(b)|)
    ensures Passes(s, 0, |Print(Index(b, k, pad))|)
  {
    assert Print(Index(b, k, pad)) == Print(b) + ("[" + t + "]");
    assert |Print(Index(b, k, pad))| == |Print(b)| + 2 + |t|;
    KeyQuiet(Print(b), t, s);
  }

  /** No equality operator is found inside a path. */
  lemma {:induction false} PathQuiet(p: Expr, s: string)
    requires GoodPath(p) && Print(p) <= s
    ensures Passes(s, 0, |Print(p)|)
  {
    match p
    case Var(n) =>
      assert s[0..|n|] == n;
      PassesName(s, 0, n);
    case Member(b, f) =>
      BasePrefix(p, s);
      PathQuiet(b, s);
      MemberQuiet(b, f, s);
    case Index(b, k, pad) =>
      BasePrefix(p, s);
      PathQuiet(b, s);
      KeyNested(k, pad);
      IndexQuiet(b, k, pad, Padded(Print(k), pad), s);
  }

  lemma PassesField(s: string, i: nat, f: string)
    requires IsIdent(f) || IsDigits(f)
    requires i + 1 + |f| <= |s| && s[i] == '.' && s[i + 1..i + 1 + |f|] == f
    ensures Passes(s, i, i + 1 + |f|)
  {
    PassesPlain(s, i, i + 1);
    PassesName(s, i + 1, f);
    PassesJoin(s, i, i + 1, i + 1 + |f|);
  }

  /** A scan of `s` from its start is, at position `i`, at value `cur`. */
  ghost predicate Scanned<V>(h: Host<V>, vals: V, s: string, i: nat, cur: V) {
    i <= |s| && forall u {:trigger Unfold(u)} :: Unfold(u) ==>
      PathFrom(h, vals, s, IdentLength(s), h.member(vals, s[..IdentLength(s)])) == PathFrom(h, vals, s, i, cur)
  }

  lemma ScanName<V>(h: Host<V>, vals: V, n: string, s: string)
    requires IsIdent(n) && n <= s && Continues(s, |n|)
    ensures Scanned(h, vals, s, |n|, h.member(vals, n))
  {
    assert s[0..] == s && s[0..|n|] == n;
    NameReadAt(s, 0, n);
  }

  lemma ScanField<V>(h: Host<V>, vals: V, s: string, i: nat, f: string, cur: V)
    requires (IsIdent(f) || IsDigits(f)) && Scanned(h, vals, s, i, cur)
    requires i + 1 + |f| <= |s| && s[i] == '.' && s[i + 1..i + 1 + |f|] == f && Continues(s, i + 1 + |f|)
    ensures Scanned(h, vals, s, i + 1 + |f|, h.member(cur, f))
  {
    NameReadAt(s, i + 1, f);
    assert Unfold(true);
  }

  lemma ScanKey<V>(h: Host<V>, vals: V, s: string, i: nat, t: string, cur: V, key: V)
    requires Nested(t) && Denotes(h, vals, t, key) && Scanned(h, vals, s, i, cur)
    requires i + 1 + |t| < |s| && s[i] == '[' && s[i + 1..i + 1 + |t|] == t && s[i + 1 + |t|] == ']'
    ensures Scanned(h, vals, s, i + 2 + |t|, h.element(cur, key))
  {
    CloseNested(s, i + 1, i + 1 + |t|);
    assert Unfold(true);
    assert PathFrom(h, vals, s, i, cur) == PathFrom(h, vals, s, i + 2 + |t|, h.element(cur, key));
  }

  lemma KeyDenotes<V>(h: Host<V>, vals: V, k: Expr, pad: Pad, v: V)
    requires Good(k) && GoodPad(pad) && Denotes(h, vals, Print(k), v)
    ensures Nested(Padded(Print(k), pad)) && Denotes(h, vals, Padded(Print(k), pad), v)
  {
    PrintShapely(k);
    PaddedNested(Print(k), pad);
    DenotesPadded(h, vals, Print(k), pad, v);
  }

  lemma ScanFielded<V>(h: Host<V>, vals: V, b: string, f: string, s: string, cur: V)
    requires (IsIdent(f) || IsDigits(f)) && b + ("." + f) <= s && Continues(s, |b| + 1 + |f|) && Scanned(h, vals, s, |b|, cur)
    ensures Scanned(h, vals, s, |b| + 1 + |f|, h.member(cur, f))
  {
    FieldAt(b, f, s);
    ScanField(h, vals, s, |b|, f, cur);
  }

  lemma PrintMember<V>(h: Host<V>, vals: V, b: Expr, f: string)
    ensures var p := Member(b, f);
            && Print(p) == Print(b) + ("." + f) && |Print(p)| == |Print(b)| + 1 + |f|
            && Eval(h, vals, p) == h.member(Eval(h, vals, b), f)
  {
  }

  lemma ScanMember<V>(h: Host<V>, vals: V, b: Expr, f: string, s: string)
    requires (IsIdent(f) || IsDigits(f)) && Print(Member(b, f)) <= s && Continues(s, |Print(Member(b, f))|)
    requires Scanned(h, vals, s, |Print(b)|, Eval(h, vals, b))
    ensures Scanned(h, vals, s, |Print(Member(b, f))|, Eval(h, vals, Member(b, f)))
  {
    PrintMember(h, vals, b, f);
    ScanFielded(h, vals, Print(b), f, s, Eval(h, vals, b));
  }

  lemma ScanKeyed<V>(h: Host<V>, vals: V, b: string, t: string, s: string, cur: V, key: V)
    requires Nested(t) && Denotes(h, vals, t, key) && b + ("[" + t + "]") <= s && Scanned(h, vals, s, |b|, cur)
    ensures Scanned(h, vals, s, |b| + 2 + |t|, h.element(cur, key))
  {
    KeyAt(b, t, s);
    ScanKey(h, vals, s, |b|, t, cur, key);
  }

  lemma PrintIndex<V>(h: Host<V>, vals: V, b: Expr, k: Expr, pad: Pad)
    ensures var p, t := Index(b, k, pad), Padded(Print(k), pad);
            && Print(p) == Print(b) + ("[" + t + "]") && |Print(p)| == |Print(b)| + 2 + |t|
            && Eval(h, vals, p) == h.element(Eval(h, vals, b), Eval(h, vals, k))
  {
  }

  lemma ScanIndex<V>(h: Host<V>, vals: V, b: Expr, k: Expr, pad: Pad, t: string, s: string)
    requires t == Padded(Print(k), pad) && Nested(t) && Denotes(h, vals, t, Eval(h, vals, k))
    requires Print(Index(b, k, pad)) <= s && Scanned(h, vals, s, |Print(b)|, Eval(h, vals, b))
    ensures Scanned(h, vals, s, |Print(Index(b, k, pad))|, Eval(h, vals, Index(b, k, pad)))
  {
    PrintIndex(h, vals, b, k, pad);
    ScanKeyed(h, vals, Print(b), t, s, Eval(h, vals, b), Eval(h, vals, k));
  }

  /** The scan of a path stands, at the path's end, at the path's value. */
  lemma {:induction false} PathScanned<V>(h: Host<V>, vals: V, p: Expr, s: string)
    requires GoodPath(p) && Print(p) <= s && Continues(s, |Print(p)|)
    ensures Scanned(h, vals, s, |Print(p)|, Eval(h, vals, p))
    decreases p, 0
  {
    match p
    case Var(n) => ScanName(h, vals, n, s);
    case Member(b, f) =>
      BasePrefix(p, s);
      PathScanned(h, vals, b, s);
      ScanMember(h, vals, b, f, s);
    case Index(b, k, pad) =>
      BasePrefix(p, s);
      PathScanned(h, vals, b, s);
      Evaluated(h, vals, k);
      KeyDenotes(h, vals, k, pad, Eval(h, vals, k));
      ScanIndex(h, vals, b, k, pad, Padded(Print(k), pad), s);
  }

  lemma KeywordLetters(s: string)
    requires Keyword(s)
    ensures forall i :: 0 <= i < |s| ==> IdentPart(s[i])
  {
  }

  /** A path of more than one part is none of the words. */
  lemma PathNoKeyword(p: Expr)
    requires GoodPath(p) && !p.Var?
    ensures !Keyword(Print(p))
  {
    var s, i := Print(p), |Print(p.base)|;
    assert !IdentPart(s[i]);
    if Keyword(s) { KeywordLetters(s); }
  }

  lemma ScannedAtom<V>(h: Host<V>, vals: V, s: string, v: V)
    requires s != [] && IdentStart(s[0]) && !Keyword(s) && Scanned(h, vals, s, |s|, v)
    ensures Atom(h, vals, s) == v
  {
    assert Unfold(true);
  }

  lemma PathEvaluated<V>(h: Host<V>, vals: V, p: Expr, v: V)
    requires GoodPath(p) && !Keyword(Print(p)) && Scanned(h, vals, Print(p), |Print(p)|, v)
    ensures Denotes(h, vals, Print(p), v)
  {
    var s := Print(p);
    PrintShapely(p);
    PathQuiet(p, s);
    ScannedAtom(h, vals, s, v);
    DenotesAtom(h, vals, s);
  }

  // ----- constants ----------------------------------------------------------------------

  lemma DenotesAtom<V>(h: Host<V>, vals: V, s: string)
    requires Shapely(s) && s[0] != '(' && s[0] != '!' && Passes(s, 0, |s|)
    ensures Denotes(h, vals, s, Atom(h, vals, s))
  {
    PassesAll(s);
    TrimOfTrimmed(s, JsSpace);
    assert Unfold(true);
  }

  lemma PlainEvaluated<V>(h: Host<V>, vals: V, s: string)
    requires s != [] && Plain(s) && Trimmed(s, JsSpace) && s[0] != '!' && forall i :: 0 <= i < |s| ==> !OpAt(s, i)
    ensures Denotes(h, vals, s, Atom(h, vals, s))
  {
    PlainShapely(s);
    PassesPlain(s, 0, |s|);
    DenotesAtom(h, vals, s);
  }

  lemma NumberNoKeyword(s: string)
    requires IsNumber(s)
    ensures !Keyword(s)
  {
    NumberPlain(s);
  }

  /** A body without brackets, parentheses and places for an operator is good. */
  lemma PlainBody(q: char, b: string)
    requires (q == '"' || q == '\'') && Plain(b) && forall i :: 0 <= i < |b| ==> !OpAt(b, i)
    ensures GoodBody(q, b)
  {
    var s := Literal(q, b);
    NestedPlain(b);
    forall i | 0 <= i < |s| ensures !OpAt(s, i) && !Opens(s[i]) && !Closes(s[i]) {
      if 0 < i < |s| - 1 {
        assert s[i] == b[i - 1] && !OpAt(b, i - 1);
        assert i + 1 < |s| - 1 ==> s[i + 1] == b[i];
      }
    }
    PassesPlain(s, 0, |s|);
    PassesAll(s);
  }

  lemma PassesWhole(s: string)
    requires EqualityFrom(s, 0, 0).None?
    ensures Passes(s, 0, |s|)
  {
    assert EqualityFrom(s, |s|, 0).None?;
  }

  lemma StringAtom<V>(h: Host<V>, vals: V, q: char, b: string)
    requires q == '"' || q == '\''
    ensures Atom(h, vals, Literal(q, b)) == h.text(b)
  {
    var s := Literal(q, b);
    assert s[0] == q && s[|s| - 1] == q;
    assert s[1..|s| - 1] == b;
    assert !IsNumber(s) by { if IsNumber(s) { NumberPlain(s); } }
  }

  // ----- the main theorem ---------------------------------------------------------------

  lemma WordEvaluated<V>(h: Host<V>, vals: V, w: Word)
    ensures Denotes(h, vals, WordText(w), Eval(h, vals, Const(w)))
  {
    var s := WordText(w);
    KeywordLetters(s);
    PlainEvaluated(h, vals, s);
  }

  lemma NumberEvaluated<V>(h: Host<V>, vals: V, d: string)
    requires IsNumber(d)
    ensures Denotes(h, vals, d, h.number(d))
  {
    NumberPlain(d);
    NumberNoKeyword(d);
    PlainEvaluated(h, vals, d);
  }

  lemma StringEvaluated<V>(h: Host<V>, vals: V, q: char, b: string)
    requires (q == '"' || q == '\'') && GoodBody(q, b)
    ensures Denotes(h, vals, Literal(q, b), h.text(b))
  {
    LiteralShapely(q, b);
    PassesWhole(Literal(q, b));
    StringAtom(h, vals, q, b);
    DenotesAtom(h, vals, Literal(q, b));
  }

  lemma {:induction false} Evaluated<V>(h: Host<V>, vals: V, e: Expr)
    requires Good(e)
    ensures Denotes(h, vals, Print(e), Eval(h, vals, e))
    decreases e, 2
  {
    match e
    case Const(w) => WordEvaluated(h, vals, w);
    case Num(m, w, f) =>
      NumberWritten(m, w, f);
      NumberEvaluated(h, vals, NumberText(m, w, f));
    case Str(q, b) => StringEvaluated(h, vals, q, b);
    case Var(_) => WholePath(h, vals, e);
    case Member(_, _) => WholePath(h, vals, e);
    case Index(_, _, _) => WholePath(h, vals, e);
    case Not(a, g, p) =>
      PrintShapely(a);
      Evaluated(h, vals, a);
      NotEvaluated(h, vals, Print(a), g, p, Eval(h, vals, a));
    case Group(a, p) =>
      PrintShapely(a);
      Evaluated(h, vals, a);
      DenotesGroup(h, vals, Print(a), p, Eval(h, vals, a));
    case Eq(o, l, lp, g, r, rp) =>
      PrintShapely(l);
      PrintShapely(r);
      Evaluated(h, vals, l);
      Evaluated(h, vals, r);
      EqEvaluated(h, vals, o, Print(l), lp, g, Print(r), rp, Eval(h, vals, l), Eval(h, vals, r));
  }

  lemma WholePath<V>(h: Host<V>, vals: V, e: Expr)
    requires GoodPath(e) && Good(e)
    ensures Denotes(h, vals, Print(e), Eval(h, vals, e))
    decreases e, 1
  {
    PathScanned(h, vals, e, Print(e));
    if !e.Var? { PathNoKeyword(e); }
    PathEvaluated(h, vals, e, Eval(h, vals, e));
  }

  /** Evaluating the printed form of an expression, with any white space around it, gives the
      expression's value. */
  lemma PrintedMeaning<V>(h: Host<V>, vals: V, e: Expr, p: Pad)
    requires Good(e) && GoodPad(p)
    ensures Meaning(h, vals, Padded(Print(e), p)) == Eval(h, vals, e)
  {
    PrintShapely(e);
    Evaluated(h, vals, e);
    DenotesPadded(h, vals, Print(e), p, Eval(h, vals, e));
    assert Unfold(true);
  }

  /** In particular every number means what the host makes of its text. */
  lemma NumberMeaning<V>(h: Host<V>, vals: V, minus: bool, whole: string, fraction: Option<string>)
    requires IsDigits(whole) && (fraction.Some? ==> IsDigits(fraction.value))
    ensures Meaning(h, vals, NumberText(minus, whole, fraction)) == h.number(NumberText(minus, whole, fraction))
  {
    var s := NumberText(minus, whole, fraction);
    NumberWritten(minus, whole, fraction);
    NumberEvaluated(h, vals, s);
    assert Unfold(true);
  }

  /** So two expressions that print alike mean the same. */
  lemma PrintUnambiguous<V>(h: Host<V>, vals: V, d: Expr, e: Expr)
    requires Good(d) && Good(e) && Print(d) == Print(e)
    ensures Eval(h, vals, d) == Eval(h, vals, e)
  {
    Evaluated(h, vals, d);
    Evaluated(h, vals, e);
    assert Unfold(true);
  }
}
