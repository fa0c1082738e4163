/** Blanking fenced code in a Markdown text, line by line. */
module Fences {

  // ----- lines --------------------------------------------------------------------------

  /** Where Python's `splitlines` breaks a text. */
  predicate Break(c: char) {
    || '\n' <= c <= '\r' || '\U{1C}' <= c <= '\U{1E}' || c == '\U{85}' || c == '\U{2028}' || c == '\U{2029}'
  }

  /** The length of the first line with its break; a carriage return takes a line feed with it. */
  function FirstLine(s: string): (n: nat)
    requires s != []
    ensures 0 < n <= |s|
  {
    if s[0] == '\r' && |s| > 1 && s[1] == '\n' then 2
    else if Break(s[0]) || |s| == 1 then 1
    else 1 + FirstLine(s[1..])
  }

  /** `text.splitlines(keepends=True)` */
  function Lines(s: string): seq<string> {
    if s == [] then [] else
      var n := FirstLine(s);
      [s[..n]] + Lines(s[n..])
  }

  function Join(pieces: seq<string>): string {
    if pieces == [] then [] else pieces[0] + Join(pieces[1..])
  }

  lemma {:induction false} LinesJoin(s: string)
    ensures Join(Lines(s)) == s
  {
    if s != [] {
      var n := FirstLine(s);
      LinesJoin(s[n..]);
      assert Lines(s)[1..] == Lines(s[n..]);
      assert s == s[..n] + s[n..];
    }
  }

  // ----- fences -------------------------------------------------------------------------

  /** How many of the first `max` characters are spaces or tabs, from the start. */
  function Indent(s: string, max: nat): (n: nat)
    ensures n <= |s| && n <= max
  {
    if max > 0 && s != [] && (s[0] == ' ' || s[0] == '\t') then 1 + Indent(s[1..], max - 1) else 0
  }

  function Run(s: string, c: char): (n: nat)
    ensures n <= |s|
  {
    if s != [] && s[0] == c then 1 + Run(s[1..], c) else 0
  }

  datatype Marker = NoMarker | Marker(tick: char, length: nat)

  /** FENCE_RE: at most three blanks, then at least three backticks or three tildes. */
  function MarkerOf(line: string): Marker {
    var t := line[Indent(line, 3)..];
    if t == [] || !(t[0] == '`' || t[0] == '~') || Run(t, t[0]) < 3 then NoMarker
    else Marker(t[0], Run(t, t[0]))
  }

  datatype Fence = Outside | Inside(tick: char, length: nat)

  /** The fence after a line. */
  function After(f: Fence, line: string): Fence {
    var m := MarkerOf(line);
    match f
    case Outside => if m.Marker? then Inside(m.tick, m.length) else Outside
    case Inside(c, n) => if m.Marker? && m.tick == c && m.length >= n then Outside else f
  }

  predicate Hidden(f: Fence, line: string) {
    f.Inside? || MarkerOf(line).Marker?
  }

  predicate EndsWith(line: string, c: char) {
    line != [] && line[|line| - 1] == c
  }

  function Blanked(line: string): string {
    if EndsWith(line, '\n') || EndsWith(line, '\r') then "\n" else ""
  }

  function Piece(f: Fence, line: string): string {
    if Hidden(f, line) then Blanked(line) else line
  }

  function Pieces(f: Fence, lines: seq<string>): (r: seq<string>)
    ensures |r| == |lines|
    decreases |lines|
  {
    if lines == [] then [] else [Piece(f, lines[0])] + Pieces(After(f, lines[0]), lines[1..])
  }

  function Strip(text: string): string { Join(Pieces(Outside, Lines(text))) }

  lemma PiecesStep(output: seq<string>, f: Fence, lines: seq<string>, n: nat)
    requires n < |lines|
    ensures output + Pieces(f, lines[n..])
         == (output + [Piece(f, lines[n])]) + Pieces(After(f, lines[n]), lines[n + 1..])
  {
    assert lines[n..][1..] == lines[n + 1..];
  }

  method WithoutFencedCode(text: string) returns (r: string)
    ensures r == Strip(text)
  {
    var lines := Lines(text);
    var output: seq<string> := [];
    var fence := Outside;
    var n := 0;
    while n < |lines|
      invariant n <= |lines|
      invariant output + Pieces(fence, lines[n..]) == Pieces(Outside, lines)
    {
      var line := lines[n];
      var m := MarkerOf(line);
      PiecesStep(output, fence, lines, n);
      if fence.Outside? {
        if m.Marker? {
          fence := Inside(m.tick, m.length);
          output := output + [Blanked(line)];
        } else {
          output := output + [line];
        }
      } else {
        if m.Marker? && m.tick == fence.tick && m.length >= fence.length {
          fence := Outside;
        }
        output := output + [Blanked(line)];
      }
      n := n + 1;
    }
    assert output + [] == output;
    r := Join(output);
  }

  // ----- line numbers -------------------------------------------------------------------

  function Newlines(s: string): nat {
    if s == [] then 0 else (if s[0] == '\n' then 1 else 0) + Newlines(s[1..])
  }

  lemma {:induction false} NewlinesJoin(a: string, b: string)
    ensures Newlines(a + b) == Newlines(a) + Newlines(b)
  {
    if a == [] {
      assert a + b == b;
    } else {
      assert (a + b)[1..] == a[1..] + b;
      NewlinesJoin(a[1..], b);
    }
  }

  /** A line: not empty, and with a break at its end at most. */
  predicate IsLine(s: string) {
    s != [] && FirstLine(s) == |s|
  }

  /** A line has a newline exactly if it ends with one. */
  lemma {:induction false} LineNewlines(s: string)
    requires IsLine(s)
    ensures Newlines(s) == if EndsWith(s, '\n') then 1 else 0
  {
    if s[0] == '\r' && |s| > 1 && s[1] == '\n' {
      var t := s[1..];
      assert t[1..] == [] && t[0] == '\n';
      assert Newlines(t) == 1;
    } else if Break(s[0]) || |s| == 1 {
      assert s[1..] == [];
    } else {
      LineNewlines(s[1..]);
    }
  }

  lemma {:induction false} FirstIsLine(s: string)
    requires s != []
    ensures IsLine(s[..FirstLine(s)])
  {
    var n := FirstLine(s);
    if n > 1 && !(s[0] == '\r' && s[1] == '\n') {
      FirstIsLine(s[1..]);
      assert s[..n][1..] == s[1..][..n - 1];
    }
  }

  lemma {:induction false} LinesAreLines(s: string)
    ensures forall i :: 0 <= i < |Lines(s)| ==> IsLine(Lines(s)[i])
  {
    if s != [] {
      var n := FirstLine(s);
      FirstIsLine(s);
      LinesAreLines(s[n..]);
    }
  }

  /** A hidden line loses no newline, and gains one exactly if it ends with a bare carriage return. */
  predicate Slips(f: Fence, line: string) {
    Hidden(f, line) && EndsWith(line, '\r')
  }

  lemma PieceNewlines(f: Fence, line: string)
    requires IsLine(line)
    ensures Newlines(Piece(f, line)) == Newlines(line) + if Slips(f, line) then 1 else 0
  {
    LineNewlines(line);
    assert "\n"[1..] == [];
  }

  /** The lines whose number of newlines changes. */
  function Slipped(f: Fence, lines: seq<string>): nat
    decreases |lines|
  {
    if lines == [] then 0 else (if Slips(f, lines[0]) then 1 else 0) + Slipped(After(f, lines[0]), lines[1..])
  }

  /** Up to any line, the output has one newline more for each line that slipped. */
  lemma {:induction false} PrefixNewlines(f: Fence, lines: seq<string>, k: nat)
    requires k <= |lines| && forall i :: 0 <= i < |lines| ==> IsLine(lines[i])
    ensures Newlines(Join(Pieces(f, lines)[..k])) == Newlines(Join(lines[..k])) + Slipped(f, lines[..k])
    decreases |lines|
  {
    if k > 0 {
      var g, rest := After(f, lines[0]), lines[1..];
      PrefixNewlines(g, rest, k - 1);
      PieceNewlines(f, lines[0]);
      var out := Pieces(f, lines)[..k];
      assert out[0] == Piece(f, lines[0]) && out[1..] == Pieces(g, rest)[..k - 1];
      NewlinesJoin(out[0], Join(out[1..]));
      assert lines[..k][1..] == rest[..k - 1];
      NewlinesJoin(lines[0], Join(rest[..k - 1]));
    }
  }

  lemma {:induction false} NoReturnNoSlip(f: Fence, lines: seq<string>)
    requires forall i :: 0 <= i < |lines| ==> !EndsWith(lines[i], '\r')
    ensures Slipped(f, lines) == 0
    decreases |lines|
  {
    if lines != [] { NoReturnNoSlip(After(f, lines[0]), lines[1..]); }
  }

  ghost predicate LineKept(text: string, k: int) {
    0 <= k <= |Lines(text)| ==> Newlines(Join(Pieces(Outside, Lines(text))[..k])) == Newlines(Join(Lines(text)[..k]))
  }

  /** Every line starts where it started, for all lines, exactly if no hidden line ends with a bare
      carriage return. */
  lemma LineNumbersKept(text: string)
    ensures (forall k {:trigger LineKept(text, k)} :: LineKept(text, k)) <==> Slipped(Outside, Lines(text)) == 0
  {
    var lines := Lines(text);
    LinesAreLines(text);
    forall k | 0 <= k <= |lines| ensures LineKept(text, k) <==> Slipped(Outside, lines[..k]) == 0 {
      PrefixNewlines(Outside, lines, k);
    }
    assert lines[..|lines|] == lines;
    if Slipped(Outside, lines) == 0 {
      forall k ensures LineKept(text, k) {
        if 0 <= k <= |lines| { SlippedPrefix(Outside, lines, k); }
      }
    } else {
      assert !LineKept(text, |lines|);
    }
  }

  /** A fence that ends with a bare carriage return moves what follows it. */
  lemma ReturnSlips()
    ensures Slipped(Outside, Lines("```\r")) == 1 && !LineKept("```\r", 1)
  {
    var text := "```\r";
    assert text[1..] == "``\r" && "``\r"[1..] == "`\r" && "`\r"[1..] == "\r";
    assert FirstLine("\r") == 1 && FirstLine("`\r") == 2 && FirstLine("``\r") == 3 && FirstLine(text) == 4;
    assert text[..4] == text && text[4..] == [];
    assert Lines(text) == [text];
    assert Run("\r", '`') == 0 && Run("`\r", '`') == 1 && Run("``\r", '`') == 2 && Run(text, '`') == 3;
    assert text[0..] == text;
    assert MarkerOf(text) == Marker('`', 3);
    var none: seq<string> := [];
    assert [text][1..] == none;
    assert Slipped(Outside, [text]) == 1 + Slipped(After(Outside, text), []);
    LinesAreLines(text);
    PrefixNewlines(Outside, [text], 1);
    assert [text][..1] == [text];
  }

  lemma {:induction false} SlippedPrefix(f: Fence, lines: seq<string>, k: nat)
    requires k <= |lines|
    ensures Slipped(f, lines[..k]) <= Slipped(f, lines)
    decreases |lines|
  {
    if k > 0 {
      assert lines[..k][1..] == lines[1..][..k - 1];
      SlippedPrefix(After(f, lines[0]), lines[1..], k - 1);
    }
  }

  lemma {:induction false} LinesWithin(s: string, i: nat)
    requires i < |Lines(s)|
    ensures forall j :: 0 <= j < |Lines(s)[i]| ==> Lines(s)[i][j] in s
  {
    var n := FirstLine(s);
    if i > 0 { LinesWithin(s[n..], i - 1); }
  }

  /** In particular for a text whose newlines are normalised. */
  lemma NormalisedLinesKept(text: string, k: nat)
    requires '\r' !in text && k <= |Lines(text)|
    ensures Newlines(Join(Pieces(Outside, Lines(text))[..k])) == Newlines(Join(Lines(text)[..k]))
  {
    var lines := Lines(text);
    forall i | 0 <= i < |lines| ensures !EndsWith(lines[i], '\r') { LinesWithin(text, i); }
    NoReturnNoSlip(Outside, lines);
    LineNumbersKept(text);
    assert LineKept(text, k);
  }

  /** So a character of a line that is not hidden is on the line it was on. */
  lemma CharacterKeepsLine(text: string, k: nat, j: nat)
    requires '\r' !in text && k < |Lines(text)| && j <= |Lines(text)[k]|
    requires Pieces(Outside, Lines(text))[k] == Lines(text)[k]
    ensures Newlines(Join(Pieces(Outside, Lines(text))[..k]) + Pieces(Outside, Lines(text))[k][..j])
         == Newlines(Join(Lines(text)[..k]) + Lines(text)[k][..j])
  {
    NormalisedLinesKept(text, k);
    NewlinesJoin(Join(Pieces(Outside, Lines(text))[..k]), Lines(text)[k][..j]);
    NewlinesJoin(Join(Lines(text)[..k]), Lines(text)[k][..j]);
  }

  // ----- idempotence --------------------------------------------------------------------

  /** No line of the text is a fence marker. */
  predicate Quiet(s: string) {
    forall i :: 0 <= i < |Lines(s)| ==> MarkerOf(Lines(s)[i]).NoMarker?
  }

  lemma {:induction false} QuietPieces(lines: seq<string>)
    requires forall i :: 0 <= i < |lines| ==> MarkerOf(lines[i]).NoMarker?
    ensures Pieces(Outside, lines) == lines
  {
    if lines != [] { QuietPieces(lines[1..]); }
  }

  lemma QuietStrip(s: string)
    requires Quiet(s)
    ensures Strip(s) == s
  {
    QuietPieces(Lines(s));
    LinesJoin(s);
  }

  /** A line that ends with a break stays the first line, or takes one line feed more. */
  lemma {:induction false} FirstOfJoin(p: string, rest: string)
    requires IsLine(p) && Break(p[|p| - 1])
    ensures FirstLine(p + rest) == |p| + if EndsWith(p, '\r') && rest != [] && rest[0] == '\n' then 1 else 0
  {
    var s := p + rest;
    if p[0] == '\r' && |p| > 1 && p[1] == '\n' {
    } else if |p| > 1 && !Break(p[0]) {
      assert s[1..] == p[1..] + rest;
      FirstOfJoin(p[1..], rest);
    }
  }

  lemma QuietCons(s: string)
    requires s != [] && MarkerOf(s[..FirstLine(s)]).NoMarker? && Quiet(s[FirstLine(s)..])
    ensures Quiet(s)
  {
  }

  lemma QuietTail(s: string)
    requires s != [] && Quiet(s)
    ensures Quiet(s[FirstLine(s)..])
  {
    var n := FirstLine(s);
    forall i | 0 <= i < |Lines(s[n..])| ensures MarkerOf(Lines(s[n..])[i]).NoMarker? {
      assert Lines(s)[i + 1] == Lines(s[n..])[i];
    }
  }

  lemma {:induction false} RunPrefix(p: string, q: string, c: char)
    requires p != [] && p[|p| - 1] != c
    ensures Run(p + q, c) == Run(p, c)
  {
    if p[0] == c {
      assert (p + q)[1..] == p[1..] + q;
      RunPrefix(p[1..], q, c);
    }
  }

  lemma {:induction false} IndentPrefix(p: string, q: string, max: nat)
    requires p != [] && p[|p| - 1] != ' ' && p[|p| - 1] != '\t'
    ensures Indent(p + q, max) == Indent(p, max) < |p|
  {
    if max > 0 && (p[0] == ' ' || p[0] == '\t') {
      assert (p + q)[1..] == p[1..] + q;
      IndentPrefix(p[1..], q, max - 1);
    }
  }

  /** What follows the break does not matter for the marker. */
  lemma MarkerPrefix(p: string, q: string)
    requires p != [] && Break(p[|p| - 1])
    ensures MarkerOf(p + q) == MarkerOf(p)
  {
    IndentPrefix(p, q, 3);
    var i := Indent(p, 3);
    var t := p[i..];
    assert (p + q)[i..] == t + q;
    RunPrefix(t, q, '`');
    RunPrefix(t, q, '~');
  }

  lemma QuietPrepend(p: string, rest: string)
    requires IsLine(p) && Break(p[|p| - 1]) && MarkerOf(p).NoMarker? && Quiet(rest)
    ensures Quiet(p + rest)
  {
    var s := p + rest;
    FirstOfJoin(p, rest);
    if EndsWith(p, '\r') && rest != [] && rest[0] == '\n' {
      MarkerPrefix(p, "\n");
      assert s[..|p| + 1] == p + "\n";
      QuietTail(rest);
      assert s[|p| + 1..] == rest[1..];
    } else {
      assert s[..|p|] == p && s[|p|..] == rest;
    }
    QuietCons(s);
  }

  /** Every line but the last ends with a break. */
  predicate Broken(lines: seq<string>) {
    forall i :: 0 <= i < |lines| ==> IsLine(lines[i]) && (i + 1 < |lines| ==> Break(lines[i][|lines[i]| - 1]))
  }

  lemma {:induction false} FirstBreaks(s: string)
    requires s != [] && FirstLine(s) < |s|
    ensures Break(s[FirstLine(s) - 1])
  {
    if !(s[0] == '\r' && |s| > 1 && s[1] == '\n') && !Break(s[0]) { FirstBreaks(s[1..]); }
  }

  lemma {:induction false} LinesBroken(s: string)
    ensures Broken(Lines(s))
  {
    if s != [] {
      var n := FirstLine(s);
      FirstIsLine(s);
      LinesBroken(s[n..]);
      if n < |s| {
        FirstBreaks(s);
      } else {
        assert s[n..] == [];
      }
    }
  }

  lemma QuietNothing()
    ensures Quiet("") && Quiet("\n") && IsLine("\n") && MarkerOf("\n").NoMarker?
  {
    assert "\n"[1..] == [];
    assert "\n"[..1] == "\n";
    assert Lines("\n") == ["\n"];
  }

  lemma QuietOne(p: string)
    requires IsLine(p) && MarkerOf(p).NoMarker?
    ensures Quiet(p)
  {
    assert p[..|p|] == p && p[|p|..] == [];
    assert Lines(p) == [p];
  }

  lemma {:induction false} PiecesQuiet(f: Fence, lines: seq<string>)
    requires Broken(lines)
    ensures Quiet(Join(Pieces(f, lines)))
    decreases |lines|
  {
    QuietNothing();
    if lines != [] {
      var line, g := lines[0], After(f, lines[0]);
      var rest := Join(Pieces(g, lines[1..]));
      PiecesQuiet(g, lines[1..]);
      assert Pieces(f, lines)[1..] == Pieces(g, lines[1..]);
      var p := Piece(f, line);
      assert Join(Pieces(f, lines)) == p + rest;
      if p == [] {
        assert p + rest == rest;
      } else if |lines| == 1 {
        assert p + rest == p;
        if !Hidden(f, line) { QuietOne(p); }
      } else {
        QuietPrepend(p, rest);
      }
    }
  }

  /** Blanking fences twice is blanking them once, on every text. */
  lemma StripIdempotent(text: string)
    ensures Strip(Strip(text)) == Strip(text)
  {
    LinesBroken(text);
    PiecesQuiet(Outside, Lines(text));
    QuietStrip(Strip(text));
  }
}
