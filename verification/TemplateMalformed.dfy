/** What the evaluator makes of text that is no expression. */
module TemplateMalformed {
  import opened Folding
  import opened Text
  import opened TemplateScan
  import opened TemplateExpr
  import opened TemplatePrinter

  /** White space means nothing. */
  lemma BlankMeaning<V>(h: Host<V>, vals: V, src: string)
    requires Blank(src, JsSpace)
    ensures Meaning(h, vals, src) == h.undefined
  {
    TrimBlank(src, JsSpace);
  }

  /** No group, comparison or negation. */
  ghost predicate Elementary(s: string) {
    && s != [] && Trimmed(s, JsSpace) && s[0] != '!' && EqualityFrom(s, 0, 0).None?
    && !(s[0] == '(' && s[|s| - 1] == ')' && WrapFrom(s, 0, 0))
  }

  lemma ElementaryMeaning<V>(h: Host<V>, vals: V, s: string)
    requires Elementary(s)
    ensures Meaning(h, vals, s) == Atom(h, vals, s)
  {
    TrimOfTrimmed(s, JsSpace);
    assert Meaning(h, vals, s) == MeaningOf(h, vals, s);
  }

  predicate Quoted(s: string) {
    |s| >= 2 && (s[0] == '"' || s[0] == '\'') && s[|s| - 1] == s[0]
  }

  /** Text that is no word, number or string and begins with no name means nothing. */
  lemma StrayMeaning<V>(h: Host<V>, vals: V, s: string)
    requires Elementary(s) && !Keyword(s) && !IsNumber(s) && !Quoted(s) && !IdentStart(s[0])
    ensures Meaning(h, vals, s) == h.undefined
  {
    ElementaryMeaning(h, vals, s);
  }

  /** After a dot no name begins. */
  predicate Nameless(s: string, i: nat) {
    i >= |s| || (!IdentStart(s[i]) && !Digit(s[i]))
  }

  /** What stops a path at `i`: a dot without a name, a bracket without a partner, or a character that
      neither goes on with the name nor begins an access. */
  ghost predicate Stops(s: string, i: nat) {
    i < |s| &&
    (if s[i] == '.' then Nameless(s, i + 1)
     else if s[i] == '[' then forall n {:trigger Closing(s, i + 1, 1, n)} :: !Closing(s, i + 1, 1, n)
     else true)
  }

  lemma StopsPath<V>(h: Host<V>, vals: V, s: string, i: nat, cur: V)
    requires Stops(s, i)
    ensures PathFrom(h, vals, s, i, cur) == h.undefined
  {
    if s[i] == '.' {
      assert NameLength(s[i + 1..]) == 0;
    } else if s[i] == '[' {
      CloseExact(s, i + 1, 1);
    }
  }

  /** A path that is stopped means nothing, whatever it began with. */
  lemma StoppedMeaning<V>(h: Host<V>, vals: V, p: Expr, s: string)
    requires GoodPath(p) && Print(p) <= s && Continues(s, |Print(p)|) && Stops(s, |Print(p)|)
    requires Elementary(s) && !Keyword(s)
    ensures Meaning(h, vals, s) == h.undefined
  {
    PrintShapely(p);
    PathScanned(h, vals, p, s);
    StopsPath(h, vals, s, |Print(p)|, Eval(h, vals, p));
    ElementaryMeaning(h, vals, s);
    StoppedAtom(h, vals, s, |Print(p)|, Eval(h, vals, p));
  }

  lemma StoppedAtom<V>(h: Host<V>, vals: V, s: string, i: nat, v: V)
    requires s != [] && IdentStart(s[0]) && !Keyword(s) && Scanned(h, vals, s, i, v)
    ensures Atom(h, vals, s) == PathFrom(h, vals, s, i, v)
  {
    assert Unfold(true);
  }
}
