/** The HTML normaliser as a machine driven by the parser's tokens, and what it does to the
    number of lines. */
module HtmlLines {
  import opened Options
  import opened Fences

  /** What the parser finds. `raw` is the text in the file; `data` has its character references
      decoded. Declarations and processing instructions have no handler. */
  datatype Token =
    | StartTag(tag: string, raw: string, href: Option<string>)
    | EmptyTag(raw: string)
    | EndTag(tag: string, raw: string)
    | Data(raw: string, data: string)
    | Comment(data: string)
    | Declaration(raw: string)

  datatype State = State(
    parts: seq<string>,
    dropDepth: nat,
    href: Option<string>,
    caption: Option<seq<string>>,
    codeDepth: nat)

  const START := State([], 0, None, None, 0)

  predicate DropsBody(tag: string) { tag == "script" || tag == "style" }

  function HeadingLevel(tag: string): (n: nat)
    ensures n <= 6
  {
    if |tag| == 2 && tag[0] == 'h' && '1' <= tag[1] <= '6' then (tag[1] as int) - ('0' as int) else 0
  }

  function Repeat(c: char, n: nat): string { seq(n, _ => c) }

  predicate Indenting(c: char) { c == ' ' || c == '\t' }

  /** `s.rstrip(" \t")` */
  function TrimEnd(s: string): string {
    if s != [] && Indenting(s[|s| - 1]) then TrimEnd(s[..|s| - 1]) else s
  }

  /** The parts without the indentation at their end. */
  function Unindented(parts: seq<string>): seq<string> {
    if parts == [] then [] else
      var n := |parts| - 1;
      if TrimEnd(parts[n]) == [] then Unindented(parts[..n])
      else parts[..n] + [TrimEnd(parts[n])]
  }

  function Emit(s: State, text: string): State {
    match s.caption
    case Some(l) => s.(caption := Some(l + [text]))
    case None => s.(parts := s.parts + [text])
  }

  function EmitNewlines(s: State, raw: string): State {
    s.(parts := s.parts + [Repeat('\n', Newlines(raw))])
  }

  function OpenHeading(s: State, level: nat): State {
    s.(parts := Unindented(s.parts) + [Repeat('#', level) + " "])
  }

  function Start(s: State, tag: string, raw: string, href: Option<string>): State {
    var t := EmitNewlines(s, raw);
    if DropsBody(tag) then t.(dropDepth := t.dropDepth + 1)
    else if t.dropDepth > 0 then t
    else if tag == "a" then t.(href := href, caption := Some([]))
    else if tag == "code" then t.(codeDepth := t.codeDepth + 1)
    else if HeadingLevel(tag) > 0 then OpenHeading(t, HeadingLevel(tag))
    else t
  }

  /** What a closed anchor becomes. */
  function Link(caption: string, href: Option<string>): string {
    match href
    case Some(h) => "[" + caption + "](" + h + ")"
    case None => caption
  }

  predicate ClosesAnchor(s: State, tag: string) {
    !DropsBody(tag) && s.dropDepth == 0 && tag == "a" && s.caption.Some?
  }

  function End(s: State, tag: string): State {
    if DropsBody(tag) then s.(dropDepth := if s.dropDepth > 0 then s.dropDepth - 1 else 0)
    else if s.dropDepth > 0 then s
    else if tag == "a" && s.caption.Some? then
      s.(caption := None, href := None, parts := s.parts + [Link(Join(s.caption.value), s.href)])
    else if tag == "code" && s.codeDepth > 0 then s.(codeDepth := s.codeDepth - 1)
    else s
  }

  function Text(s: State, data: string): State {
    if s.dropDepth > 0 then EmitNewlines(s, data)
    else Emit(s, if s.codeDepth > 0 then "`" + data + "`" else data)
  }

  function Step(s: State, t: Token): State {
    match t
    case StartTag(tag, raw, href) => Start(s, tag, raw, href)
    case EmptyTag(raw) => EmitNewlines(s, raw)
    case EndTag(tag, _) => End(s, tag)
    case Data(_, data) => Text(s, data)
    case Comment(data) => EmitNewlines(s, data)
    case Declaration(_) => s
  }

  function Run(s: State, ts: seq<Token>): State
    decreases |ts|
  {
    if ts == [] then s else Run(Step(s, ts[0]), ts[1..])
  }

  /** An anchor that is still open gives its caption. */
  function Result(s: State): string {
    Join(if s.caption.Some? then s.parts + [Join(s.caption.value)] else s.parts)
  }

  /** The normaliser as the source has it, changing its fields. */
  class HtmlToMarkdownish {
    var parts: seq<string>
    var dropDepth: nat
    var anchorHref: Option<string>
    var anchorLabel: Option<seq<string>>
    var codeDepth: nat

    function Value(): State
      reads this
    {
      State(parts, dropDepth, anchorHref, anchorLabel, codeDepth)
    }

    constructor ()
      ensures Value() == START
    {
      parts, dropDepth, anchorHref, anchorLabel, codeDepth := [], 0, None, None, 0;
    }

    method EmitText(text: string)
      modifies this
      ensures Value() == Emit(old(Value()), text)
    {
      if anchorLabel.Some? {
        anchorLabel := Some(anchorLabel.value + [text]);
      } else {
        parts := parts + [text];
      }
    }

    method EmitNewlinesOnly(raw: string)
      modifies this
      ensures Value() == EmitNewlines(old(Value()), raw)
    {
      parts := parts + [Repeat('\n', Newlines(raw))];
    }

    method BeginHeading(level: nat)
      modifies this
      ensures Value() == OpenHeading(old(Value()), level)
    {
      while parts != []
        invariant Value() == old(Value()).(parts := parts) && Unindented(parts) == Unindented(old(parts))
        decreases |parts|
      {
        var n := |parts| - 1;
        var tail := parts[n];
        if tail == [] {
          parts := parts[..n];
          continue;
        }
        var trimmed := TrimEnd(tail);
        if trimmed == tail {
          assert parts == parts[..n] + [tail];
          break;
        }
        if trimmed != [] {
          TrimTwice(tail);
          parts := parts[..n] + [trimmed];
          break;
        }
        parts := parts[..n];
      }
      Settled(parts);
      parts := parts + [Repeat('#', level) + " "];
    }

    method HandleStartTag(tag: string, raw: string, href: Option<string>)
      modifies this
      ensures Value() == Start(old(Value()), tag, raw, href)
    {
      EmitNewlinesOnly(raw);
      if DropsBody(tag) {
        dropDepth := dropDepth + 1;
      } else if dropDepth > 0 {
      } else if tag == "a" {
        anchorHref := href;
        anchorLabel := Some([]);
      } else if tag == "code" {
        codeDepth := codeDepth + 1;
      } else if HeadingLevel(tag) > 0 {
        BeginHeading(HeadingLevel(tag));
      }
    }

    method HandleEndTag(tag: string)
      modifies this
      ensures Value() == End(old(Value()), tag)
    {
      if DropsBody(tag) {
        dropDepth := if dropDepth > 0 then dropDepth - 1 else 0;
      } else if dropDepth > 0 {
      } else if tag == "a" && anchorLabel.Some? {
        var caption := Join(anchorLabel.value);
        var href := anchorHref;
        anchorLabel := None;
        anchorHref := None;
        parts := parts + [Link(caption, href)];
      } else if tag == "code" && codeDepth > 0 {
        codeDepth := codeDepth - 1;
      }
    }

    method HandleData(data: string)
      modifies this
      ensures Value() == Text(old(Value()), data)
    {
      if dropDepth > 0 {
        EmitNewlinesOnly(data);
      } else {
        EmitText(if codeDepth > 0 then "`" + data + "`" else data);
      }
    }

    method Feed(t: Token)
      modifies this
      ensures Value() == Step(old(Value()), t)
    {
      match t
      case StartTag(tag, raw, href) => HandleStartTag(tag, raw, href);
      case EmptyTag(raw) => EmitNewlinesOnly(raw);
      case EndTag(tag, _) => HandleEndTag(tag);
      case Data(_, data) => HandleData(data);
      case Comment(data) => EmitNewlinesOnly(data);
      case Declaration(_) =>
    }
  }

  lemma {:induction false} TrimTwice(s: string)
    ensures TrimEnd(TrimEnd(s)) == TrimEnd(s)
  {
    if s != [] && Indenting(s[|s| - 1]) { TrimTwice(s[..|s| - 1]); }
  }

  lemma Settled(parts: seq<string>)
    requires parts == [] || (parts[|parts| - 1] != [] && TrimEnd(parts[|parts| - 1]) == parts[|parts| - 1])
    ensures Unindented(parts) == parts
  {
    if parts != [] { assert parts == parts[..|parts| - 1] + [parts[|parts| - 1]]; }
  }

  // ----- newlines -----------------------------------------------------------------------

  /** The newlines a token takes from the file. */
  function Consumed(t: Token): nat {
    match t
    case StartTag(_, raw, _) => Newlines(raw)
    case EmptyTag(raw) => Newlines(raw)
    case EndTag(_, raw) => Newlines(raw)
    case Data(raw, _) => Newlines(raw)
    case Comment(data) => Newlines(data)
    case Declaration(raw) => Newlines(raw)
  }

  /** An anchor starts inside an open one. */
  predicate Nests(s: State, t: Token) {
    t.StartTag? && t.tag == "a" && s.dropDepth == 0 && s.caption.Some?
  }

  /** The newlines of an address that is written out when its anchor closes. */
  function Echoed(s: State, tag: string): nat {
    if ClosesAnchor(s, tag) && s.href.Some? then Newlines(s.href.value) else 0
  }

  /** By how much a token's newlines are miscounted: an address is written out in addition to its
      tag, a label is thrown away when another anchor starts inside it, a character reference may
      stand for a newline, and end tags and declarations leave no trace. */
  function Drift(s: State, t: Token): int {
    match t
    case StartTag(_, _, _) => if Nests(s, t) then 0 - Newlines(Join(s.caption.value)) else 0
    case EmptyTag(_) => 0
    case EndTag(tag, raw) => Echoed(s, tag) - Newlines(raw)
    case Data(raw, data) => Newlines(data) - Newlines(raw)
    case Comment(_) => 0
    case Declaration(raw) => 0 - Newlines(raw)
  }

  function ConsumedAll(ts: seq<Token>): nat {
    if ts == [] then 0 else Consumed(ts[0]) + ConsumedAll(ts[1..])
  }

  function DriftAll(s: State, ts: seq<Token>): int
    decreases |ts|
  {
    if ts == [] then 0 else Drift(s, ts[0]) + DriftAll(Step(s, ts[0]), ts[1..])
  }

  /** The newlines held, in the text and in an open caption. */
  function Held(s: State): nat {
    Newlines(Join(s.parts)) + if s.caption.Some? then Newlines(Join(s.caption.value)) else 0
  }

  lemma {:induction false} JoinAppend(ps: seq<string>, p: string)
    ensures Newlines(Join(ps + [p])) == Newlines(Join(ps)) + Newlines(p)
  {
    if ps == [] {
      assert [p][1..] == [];
      assert p + [] == p;
    } else {
      assert (ps + [p])[1..] == ps[1..] + [p];
      JoinAppend(ps[1..], p);
      NewlinesJoin(ps[0], Join(ps[1..] + [p]));
      NewlinesJoin(ps[0], Join(ps[1..]));
    }
  }

  lemma {:induction false} NewlinesRepeat(c: char, n: nat)
    ensures Newlines(Repeat(c, n)) == if c == '\n' then n else 0
  {
    if n > 0 {
      NewlinesRepeat(c, n - 1);
      assert Repeat(c, n)[1..] == Repeat(c, n - 1);
    }
  }

  lemma NewlinesOne(c: char)
    ensures Newlines([c]) == if c == '\n' then 1 else 0
  {
    assert [c][1..] == [];
  }

  lemma {:induction false} TrimNewlines(s: string)
    ensures Newlines(TrimEnd(s)) == Newlines(s)
  {
    if s != [] && Indenting(s[|s| - 1]) {
      var n := |s| - 1;
      TrimNewlines(s[..n]);
      assert s == s[..n] + [s[n]];
      NewlinesJoin(s[..n], [s[n]]);
      NewlinesOne(s[n]);
    }
  }

  lemma {:induction false} UnindentNewlines(parts: seq<string>)
    ensures Newlines(Join(Unindented(parts))) == Newlines(Join(parts))
  {
    if parts != [] {
      var n := |parts| - 1;
      TrimNewlines(parts[n]);
      assert parts == parts[..n] + [parts[n]];
      JoinAppend(parts[..n], parts[n]);
      if TrimEnd(parts[n]) == [] {
        UnindentNewlines(parts[..n]);
      } else {
        JoinAppend(parts[..n], TrimEnd(parts[n]));
      }
    }
  }

  lemma NewlinesHeld(s: State, raw: string)
    ensures Held(EmitNewlines(s, raw)) == Held(s) + Newlines(raw)
  {
    JoinAppend(s.parts, Repeat('\n', Newlines(raw)));
    NewlinesRepeat('\n', Newlines(raw));
  }

  lemma HeadingHeld(s: State, level: nat)
    ensures Held(OpenHeading(s, level)) == Held(s)
  {
    UnindentNewlines(s.parts);
    JoinAppend(Unindented(s.parts), Repeat('#', level) + " ");
    NewlinesJoin(Repeat('#', level), " ");
    NewlinesRepeat('#', level);
    NewlinesOne(' ');
  }

  lemma LinkNewlines(caption: string, href: Option<string>)
    ensures Newlines(Link(caption, href)) == Newlines(caption) + if href.Some? then Newlines(href.value) else 0
  {
    if href.Some? {
      var h := href.value;
      NewlinesOne('[');
      NewlinesOne(')');
      NewlinesJoin("]", "(");
      NewlinesOne(']');
      NewlinesOne('(');
      assert "](" == "]" + "(";
      NewlinesJoin("[" + caption + "](" + h, ")");
      NewlinesJoin("[" + caption + "](", h);
      NewlinesJoin("[" + caption, "](");
      NewlinesJoin("[", caption);
    }
  }

  lemma TextHeld(s: State, data: string)
    ensures Held(Text(s, data)) == Held(s) + Newlines(data)
  {
    if s.dropDepth > 0 {
      NewlinesHeld(s, data);
    } else {
      var text := if s.codeDepth > 0 then "`" + data + "`" else data;
      assert Newlines(text) == Newlines(data) by {
        NewlinesJoin("`" + data, "`");
        NewlinesJoin("`", data);
        NewlinesOne('`');
      }
      JoinAppend(s.parts, text);
      if s.caption.Some? { JoinAppend(s.caption.value, text); }
    }
  }

  lemma StartHeld(s: State, t: Token)
    requires t.StartTag?
    ensures Held(Step(s, t)) == Held(s) + Consumed(t) + Drift(s, t)
  {
    NewlinesHeld(s, t.raw);
    HeadingHeld(EmitNewlines(s, t.raw), HeadingLevel(t.tag));
  }

  lemma EndHeld(s: State, tag: string)
    ensures Held(End(s, tag)) == Held(s) + Echoed(s, tag)
  {
    if ClosesAnchor(s, tag) {
      var caption := Join(s.caption.value);
      JoinAppend(s.parts, Link(caption, s.href));
      LinkNewlines(caption, s.href);
    }
  }

  lemma StepHeld(s: State, t: Token)
    ensures Held(Step(s, t)) == Held(s) + Consumed(t) + Drift(s, t)
  {
    match t
    case StartTag(_, _, _) => StartHeld(s, t);
    case EmptyTag(raw) => NewlinesHeld(s, raw);
    case EndTag(tag, _) => EndHeld(s, tag);
    case Data(_, data) => TextHeld(s, data);
    case Comment(data) => NewlinesHeld(s, data);
    case Declaration(_) =>
  }

  lemma {:induction false} RunHeld(s: State, ts: seq<Token>)
    ensures Held(Run(s, ts)) == Held(s) + ConsumedAll(ts) + DriftAll(s, ts)
    decreases |ts|
  {
    if ts != [] {
      StepHeld(s, ts[0]);
      RunHeld(Step(s, ts[0]), ts[1..]);
    }
  }

  lemma ResultNewlines(s: State)
    ensures Newlines(Result(s)) == Held(s)
  {
    if s.caption.Some? { JoinAppend(s.parts, Join(s.caption.value)); }
  }

  /** For every sequence of tokens: the output has the newlines of the tokens' text exactly if the
      drifts cancel out. */
  lemma LinesAccounted(ts: seq<Token>)
    ensures Newlines(Result(Run(START, ts))) == ConsumedAll(ts) + DriftAll(START, ts)
    ensures Newlines(Result(Run(START, ts))) == ConsumedAll(ts) <==> DriftAll(START, ts) == 0
  {
    RunHeld(START, ts);
    ResultNewlines(Run(START, ts));
  }

  /** Addresses, end tags and declarations on one line, and no reference to a newline. */
  predicate Plain(t: Token) {
    match t
    case StartTag(_, _, href) => href.Some? ==> Newlines(href.value) == 0
    case EndTag(_, raw) => Newlines(raw) == 0
    case Data(raw, data) => Newlines(data) == Newlines(raw)
    case Declaration(raw) => Newlines(raw) == 0
    case _ => true
  }

  predicate Unnested(s: State, ts: seq<Token>)
    decreases |ts|
  {
    ts == [] || (!Nests(s, ts[0]) && Unnested(Step(s, ts[0]), ts[1..]))
  }

  lemma {:induction false} NoDrift(s: State, ts: seq<Token>)
    requires Unnested(s, ts) && forall i :: 0 <= i < |ts| ==> Plain(ts[i])
    requires s.href.Some? ==> Newlines(s.href.value) == 0
    ensures DriftAll(s, ts) == 0
    decreases |ts|
  {
    if ts != [] {
      assert Plain(ts[0]);
      NoDrift(Step(s, ts[0]), ts[1..]);
    }
  }

  /** Without nested anchors and among plain tokens, the text written so far has the newlines read so
      far whenever no anchor is open, and at the end. */
  lemma LinesKept(ts: seq<Token>)
    requires Unnested(START, ts) && forall i :: 0 <= i < |ts| ==> Plain(ts[i])
    ensures Run(START, ts).caption.None? ==> Newlines(Join(Run(START, ts).parts)) == ConsumedAll(ts)
    ensures Newlines(Result(Run(START, ts))) == ConsumedAll(ts)
  {
    RunHeld(START, ts);
    NoDrift(START, ts);
    ResultNewlines(Run(START, ts));
  }

  // ----- tokens that drift --------------------------------------------------------------

  lemma DriftOfTwo(s: State, a: Token, b: Token)
    ensures DriftAll(s, [a, b]) == Drift(s, a) + Drift(Step(s, a), b)
  {
    assert [a, b][1..] == [b] && [b][1..] == [];
    assert DriftAll(Step(s, a), [b]) == Drift(Step(s, a), b) + DriftAll(Step(Step(s, a), b), []);
  }

  /** An address with a newline is counted twice: in its tag and in the link. */
  lemma AddressCountedTwice(raw: string, h: string, close: string)
    ensures DriftAll(START, [StartTag("a", raw, Some(h)), EndTag("a", close)]) == Newlines(h) - Newlines(close)
  {
    DriftOfTwo(START, StartTag("a", raw, Some(h)), EndTag("a", close));
  }

  /** An anchor inside an open one loses the newlines of the outer label. */
  lemma NestedAnchorLoses(raw: string, text: string)
    ensures DriftAll(Step(START, StartTag("a", raw, None)), [Data(text, text), StartTag("a", raw, None)]) == 0 - Newlines(text)
  {
    var s := Step(START, StartTag("a", raw, None));
    DriftOfTwo(s, Data(text, text), StartTag("a", raw, None));
    var t := Step(s, Data(text, text));
    assert s.caption.value == [] && t.caption.value == [] + [text];
    JoinAppend([], text);
  }

  /** A character reference for a newline adds a line, a declaration over lines takes them away. */
  lemma ReferencesAndDeclarations(ref: string, text: string, raw: string)
    ensures DriftAll(START, [Data(ref, text), Declaration(raw)]) == Newlines(text) - Newlines(ref) - Newlines(raw)
  {
    DriftOfTwo(START, Data(ref, text), Declaration(raw));
  }
}
