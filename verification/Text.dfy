/** Stripping white space from the ends of strings. */
module Text {

  function TrimLeft(s: string, space: char -> bool): string {
    if s != [] && space(s[0]) then TrimLeft(s[1..], space) else s
  }

  function TrimRight(s: string, space: char -> bool): string {
    if s != [] && space(s[|s| - 1]) then TrimRight(s[..|s| - 1], space) else s
  }

  function Trim(s: string, space: char -> bool): string {
    TrimRight(TrimLeft(s, space), space)
  }

  predicate Blank(s: string, space: char -> bool) {
    forall i :: 0 <= i < |s| ==> space(s[i])
  }

  predicate Trimmed(s: string, space: char -> bool) {
    s == [] || (!space(s[0]) && !space(s[|s| - 1]))
  }

  lemma {:induction false} TrimLeftStart(s: string, space: char -> bool)
    ensures var t := TrimLeft(s, space); |t| <= |s| && s[|s| - |t|..] == t && (t != [] ==> !space(t[0]))
  {
    if s != [] && space(s[0]) {
      TrimLeftStart(s[1..], space);
      var t := TrimLeft(s[1..], space);
      assert s[|s| - |t|..] == s[1..][|s| - 1 - |t|..];
    }
  }

  lemma {:induction false} TrimRightEnd(s: string, space: char -> bool)
    ensures var t := TrimRight(s, space); |t| <= |s| && s[..|t|] == t && (t != [] ==> !space(t[|t| - 1]))
  {
    if s != [] && space(s[|s| - 1]) {
      TrimRightEnd(s[..|s| - 1], space);
      var t := TrimRight(s[..|s| - 1], space);
      assert s[..|s| - 1][..|t|] == s[..|t|];
    }
  }

  lemma TrimIsTrimmed(s: string, space: char -> bool)
    ensures Trimmed(Trim(s, space), space) && |Trim(s, space)| <= |s|
  {
    var t := TrimLeft(s, space);
    TrimLeftStart(s, space);
    TrimRightEnd(t, space);
    var u := TrimRight(t, space);
    assert u != [] ==> u[0] == t[..|u|][0] == t[0];
  }

  lemma TrimOfTrimmed(s: string, space: char -> bool)
    requires Trimmed(s, space)
    ensures Trim(s, space) == s
  {
  }

  lemma TrimIdempotent(s: string, space: char -> bool)
    ensures Trim(Trim(s, space), space) == Trim(s, space)
  {
    TrimIsTrimmed(s, space);
    TrimOfTrimmed(Trim(s, space), space);
  }

  lemma {:induction false} TrimLeftPad(a: string, s: string, space: char -> bool)
    requires Blank(a, space)
    ensures TrimLeft(a + s, space) == TrimLeft(s, space)
  {
    if a == [] {
      assert a + s == s;
    } else {
      assert (a + s)[1..] == a[1..] + s;
      TrimLeftPad(a[1..], s, space);
    }
  }

  lemma {:induction false} TrimRightPad(s: string, b: string, space: char -> bool)
    requires Blank(b, space)
    ensures TrimRight(s + b, space) == TrimRight(s, space)
  {
    if b == [] {
      assert s + b == s;
    } else {
      assert (s + b)[..|s + b| - 1] == s + b[..|b| - 1];
      TrimRightPad(s, b[..|b| - 1], space);
    }
  }

  /** White space around a trimmed, non-empty string is what a trim removes. */
  lemma TrimPad(a: string, s: string, b: string, space: char -> bool)
    requires Blank(a, space) && Blank(b, space) && s != [] && Trimmed(s, space)
    ensures Trim(a + s + b, space) == s
  {
    assert a + s + b == a + (s + b);
    TrimLeftPad(a, s + b, space);
    assert TrimLeft(s + b, space) == s + b by { assert (s + b)[0] == s[0]; }
    TrimRightPad(s, b, space);
  }

  lemma {:induction false} TrimBlank(s: string, space: char -> bool)
    ensures Trim(s, space) == [] <==> Blank(s, space)
  {
    if Blank(s, space) {
      assert s + [] == s;
      TrimLeftPad(s, [], space);
    } else {
      TrimLeftStart(s, space);
      NotBlankLeft(s, space);
      var t := TrimLeft(s, space);
      TrimRightKeeps(t, space);
    }
  }

  lemma {:induction false} NotBlankLeft(s: string, space: char -> bool)
    requires !Blank(s, space)
    ensures TrimLeft(s, space) != []
  {
    if space(s[0]) {
      var i :| 0 <= i < |s| && !space(s[i]);
      assert s[1..][i - 1] == s[i];
      NotBlankLeft(s[1..], space);
    }
  }

  lemma {:induction false} TrimRightKeeps(t: string, space: char -> bool)
    requires t != [] && !space(t[0])
    ensures TrimRight(t, space) != []
  {
    if space(t[|t| - 1]) {
      TrimRightKeeps(t[..|t| - 1], space);
    }
  }

  /** What Python's `str.strip` removes. */
  predicate PySpace(c: char) {
    || '\t' <= c <= '\r' || '\U{1C}' <= c <= ' ' || c == '\U{85}' || c == '\U{A0}' || c == '\U{1680}'
    || '\U{2000}' <= c <= '\U{200A}' || c == '\U{2028}' || c == '\U{2029}' || c == '\U{202F}' || c == '\U{205F}' || c == '\U{3000}'
  }

  lemma PySpaceExact(c: char)
    ensures PySpace(c) <==>
      c in "\t\n\U{B}\U{C}\r\U{1C}\U{1D}\U{1E}\U{1F} \U{85}\U{A0}\U{1680}\U{2000}\U{2001}\U{2002}\U{2003}\U{2004}\U{2005}\U{2006}\U{2007}\U{2008}\U{2009}\U{200A}\U{2028}\U{2029}\U{202F}\U{205F}\U{3000}"
  {
  }

  /** What JavaScript's `String.prototype.trim` removes. */
  predicate JsSpace(c: char) {
    || '\t' <= c <= '\r' || c == ' ' || c == '\U{A0}' || c == '\U{1680}'
    || '\U{2000}' <= c <= '\U{200A}' || c == '\U{2028}' || c == '\U{2029}' || c == '\U{202F}' || c == '\U{205F}' || c == '\U{3000}' || c == '\U{FEFF}'
  }

  lemma JsSpaceExact(c: char)
    ensures JsSpace(c) <==>
      c in "\t\n\U{B}\U{C}\r \U{A0}\U{1680}\U{2000}\U{2001}\U{2002}\U{2003}\U{2004}\U{2005}\U{2006}\U{2007}\U{2008}\U{2009}\U{200A}\U{2028}\U{2029}\U{202F}\U{205F}\U{3000}\U{FEFF}"
  {
  }
}
