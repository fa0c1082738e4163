/** The template expression evaluator: a recursive interpreter that works by slicing the
    source string. Values belong to the host language and are left abstract. */
module TemplateExpr {
  import opened Text
  import opened TemplateScan

  /** What the evaluator needs from the host language. `member` and `element` give
      `undefined` on null and undefined, as the evaluator's guarded accesses do. */
  datatype Host<!V> = Host(
    undefined: V,
    nul: V,
    yes: V,
    no: V,
    number: string -> V,
    text: string -> V,
    truthy: V -> bool,
    strictEq: (V, V) -> bool,
    looseEq: (V, V) -> bool,
    member: (V, string) -> V,
    element: (V, V) -> V)
  {
    function Bool(b: bool): V { if b then yes else no }
  }

  // ----- lexical classes ----------------------------------------------------------------

  predicate Digit(c: char) { '0' <= c <= '9' }

  predicate IdentStart(c: char) { 'A' <= c <= 'Z' || 'a' <= c <= 'z' || c == '_' || c == '$' }

  predicate IdentPart(c: char) { IdentStart(c) || Digit(c) }

  lemma UpperListed(c: char)
    ensures 'A' <= c <= 'Z' <==> c in "ABCDEFGHIJKLMNOPQRSTUVWXYZ"
  {
    assert 'A' <= c <= 'M' <==> c in "ABCDEFGHIJKLM";
    assert 'N' <= c <= 'Z' <==> c in "NOPQRSTUVWXYZ";
    assert "ABCDEFGHIJKLMNOPQRSTUVWXYZ" == "ABCDEFGHIJKLM" + "NOPQRSTUVWXYZ";
  }

  lemma LowerListed(c: char)
    ensures 'a' <= c <= 'z' <==> c in "abcdefghijklmnopqrstuvwxyz"
  {
    assert 'a' <= c <= 'm' <==> c in "abcdefghijklm";
    assert 'n' <= c <= 'z' <==> c in "nopqrstuvwxyz";
    assert "abcdefghijklmnopqrstuvwxyz" == "abcdefghijklm" + "nopqrstuvwxyz";
  }

  /** The characters of names: letters, underscore and dollar first, then also digits. */
  lemma NameCharacters(c: char)
    ensures IdentStart(c) <==> c in "ABCDEFGHIJKLMNOPQRSTUVWXYZ" || c in "abcdefghijklmnopqrstuvwxyz" || c in "_$"
    ensures IdentPart(c) <==> IdentStart(c) || c in "0123456789"
  {
    UpperListed(c);
    LowerListed(c);
    assert Digit(c) <==> c in "0123456789";
  }

  /** How many characters at the start of `s` satisfy the class. */
  function RunLength(s: string, part: bool): (n: nat)
    ensures n <= |s|
  {
    if s != [] && (Digit(s[0]) || (part && IdentPart(s[0]))) then 1 + RunLength(s[1..], part) else 0
  }

  /** The length of the identifier at the start of `s`, 0 if there is none. */
  function IdentLength(s: string): (n: nat)
    ensures n <= |s|
  {
    if s != [] && IdentStart(s[0]) then 1 + RunLength(s[1..], true) else 0
  }

  function DigitsLength(s: string): (n: nat)
    ensures n <= |s|
  {
    RunLength(s, false)
  }

  /** The name after a dot: an identifier, else digits. */
  function NameLength(s: string): (n: nat)
    ensures n <= |s|
  {
    if IdentLength(s) > 0 then IdentLength(s) else DigitsLength(s)
  }

  /** An unsigned number. */
  predicate Decimal(t: string) {
    var n := DigitsLength(t);
    n > 0 && (n == |t| || (t[n] == '.' && n + 1 < |t| && DigitsLength(t[n + 1..]) == |t| - n - 1))
  }

  /** NUMBER_RE */
  predicate IsNumber(s: string) {
    Decimal(if s != [] && s[0] == '-' then s[1..] else s)
  }

  // ----- evaluation ---------------------------------------------------------------------

  /** The meaning of a source string. Every recursive call is on a strictly shorter one. */
  function Meaning<V>(h: Host<V>, vals: V, src: string): V
    decreases |src|, 2, 0
  {
    TrimIsTrimmed(src, JsSpace);
    MeaningOf(h, vals, Trim(src, JsSpace))
  }

  function Compare<V>(h: Host<V>, op: string, a: V, b: V): V {
    if op == "===" then h.Bool(h.strictEq(a, b))
    else if op == "!==" then h.Bool(!h.strictEq(a, b))
    else if op == "==" then h.Bool(h.looseEq(a, b))
    else h.Bool(!h.looseEq(a, b))
  }

  /** The meaning of a string without white space at its ends. */
  function MeaningOf<V>(h: Host<V>, vals: V, e: string): V
    decreases |e|, 1, 0
  {
    if e == [] then h.undefined
    else if e[0] == '(' && e[|e| - 1] == ')' && WrapFrom(e, 0, 0) then Meaning(h, vals, e[1..|e| - 1])
    else
      var eq := EqualityFrom(e, 0, 0);
      if eq.Some? then
        var i, op := eq.value.index, eq.value.op;
        Compare(h, op, Meaning(h, vals, e[..i]), Meaning(h, vals, e[i + |op|..]))
      else if e[0] == '!' then h.Bool(!h.truthy(Meaning(h, vals, e[1..])))
      else Atom(h, vals, e)
  }

  function Atom<V>(h: Host<V>, vals: V, e: string): V
    requires e != []
    decreases |e|, 0, |e| + 1
  {
    if e == "true" then h.yes
    else if e == "false" then h.no
    else if e == "null" then h.nul
    else if e == "undefined" then h.undefined
    else if IsNumber(e) then h.number(e)
    else if |e| >= 2 && (e[0] == '"' || e[0] == '\'') && e[|e| - 1] == e[0] then h.text(e[1..|e| - 1])
    else
      var n := IdentLength(e);
      if n == 0 then h.undefined else PathFrom(h, vals, e, n, h.member(vals, e[..n]))
  }

  /** The rest of a path from position `i`, standing at value `cur`. */
  function PathFrom<V>(h: Host<V>, vals: V, e: string, i: nat, cur: V): V
    requires i <= |e|
    decreases |e|, 0, |e| - i
  {
    if i == |e| then cur
    else if e[i] == '.' then
      var n := NameLength(e[i + 1..]);
      if n == 0 then h.undefined else PathFrom(h, vals, e, i + 1 + n, h.member(cur, e[i + 1..i + 1 + n]))
    else if e[i] == '[' then
      var j := CloseFrom(e, i + 1, 1);
      if j.None? then h.undefined
      else PathFrom(h, vals, e, j.value + 1, h.element(cur, Meaning(h, vals, e[i + 1..j.value])))
    else h.undefined
  }

  lemma PathAtDot<V>(h: Host<V>, vals: V, e: string, i: nat, cur: V)
    requires i < |e| && e[i] == '.'
    ensures var n := NameLength(e[i + 1..]);
            PathFrom(h, vals, e, i, cur) == if n == 0 then h.undefined else PathFrom(h, vals, e, i + 1 + n, h.member(cur, e[i + 1..i + 1 + n]))
  {
  }

  lemma PathAtBracket<V>(h: Host<V>, vals: V, e: string, i: nat, cur: V)
    requires i < |e| && e[i] == '['
    ensures var j := CloseFrom(e, i + 1, 1);
            PathFrom(h, vals, e, i, cur) ==
              if j.None? then h.undefined else PathFrom(h, vals, e, j.value + 1, h.element(cur, Meaning(h, vals, e[i + 1..j.value])))
  {
  }

  method Resolve<V>(h: Host<V>, vals: V, src: string) returns (r: V)
    ensures r == Meaning(h, vals, src)
    decreases |src|, 1
  {
    TrimIsTrimmed(src, JsSpace);
    var e := Trim(src, JsSpace);
    assert Meaning(h, vals, src) == MeaningOf(h, vals, e);
    if e == [] {
      return h.undefined;
    }
    if e[0] == '(' && e[|e| - 1] == ')' {
      var whole := ParensWrapWhole(e);
      if whole {
        r := Resolve(h, vals, e[1..|e| - 1]);
        return;
      }
    }
    var eq := FindTopLevelEquality(e);
    if eq.Some? {
      var i, op := eq.value.index, eq.value.op;
      var a := Resolve(h, vals, e[..i]);
      var b := Resolve(h, vals, e[i + |op|..]);
      return Compare(h, op, a, b);
    }
    if e[0] == '!' {
      var v := Resolve(h, vals, e[1..]);
      return h.Bool(!h.truthy(v));
    }
    assert MeaningOf(h, vals, e) == Atom(h, vals, e);
    if e == "true" {
      return h.yes;
    } else if e == "false" {
      return h.no;
    } else if e == "null" {
      return h.nul;
    } else if e == "undefined" {
      return h.undefined;
    } else if IsNumber(e) {
      return h.number(e);
    } else if |e| >= 2 && (e[0] == '"' || e[0] == '\'') && e[|e| - 1] == e[0] {
      return h.text(e[1..|e| - 1]);
    }
    var n := IdentLength(e);
    if n == 0 {
      return h.undefined;
    }
    r := ResolvePath(h, vals, e, n);
  }

  method ResolvePath<V>(h: Host<V>, vals: V, e: string, n: nat) returns (cur: V)
    requires n <= |e|
    ensures cur == PathFrom(h, vals, e, n, h.member(vals, e[..n]))
    decreases |e|, 0
  {
    cur := h.member(vals, e[..n]);
    var i := n;
    while i < |e|
      invariant i <= |e|
      invariant PathFrom(h, vals, e, n, h.member(vals, e[..n])) == PathFrom(h, vals, e, i, cur)
      decreases |e| - i
    {
      if e[i] == '.' {
        var m := NameLength(e[i + 1..]);
        PathAtDot(h, vals, e, i, cur);
        if m == 0 {
          return h.undefined;
        }
        cur := h.member(cur, e[i + 1..i + 1 + m]);
        i := i + 1 + m;
      } else if e[i] == '[' {
        var j := FindClose(e, i + 1);
        PathAtBracket(h, vals, e, i, cur);
        if j.None? {
          return h.undefined;
        }
        var key := Resolve(h, vals, e[i + 1..j.value]);
        cur := h.element(cur, key);
        i := j.value + 1;
      } else {
        return h.undefined;
      }
    }
  }
}
