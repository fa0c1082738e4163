/** Removing inline code from a Markdown text, and the whole normaliser: fenced code blanked, inline
    code removed. */
module InlineCode {
  import opened Folding
  import opened Options
  import opened Fences

  // ----- the expression -----------------------------------------------------------------

  predicate LineEnd(c: char) { c == '\r' || c == '\n' }

  predicate AllTicks(s: string) { forall i :: 0 <= i < |s| ==> s[i] == '`' }

  predicate OneLine(s: string) { forall i :: 0 <= i < |s| ==> !LineEnd(s[i]) }

  /** INLINE_CODE_RE matches at the start: `k` backticks, `m` characters of one line, `k` backticks. */
  predicate IsMatch(s: string, k: nat, m: nat) {
    k >= 1 && 2 * k + m <= |s| && AllTicks(s[..k]) && OneLine(s[k..k + m]) && AllTicks(s[k + m..2 * k + m])
  }

  datatype Match = Match(ticks: nat, body: nat)

  /** The shortest body before `k` closing backticks, from `m` characters on. */
  function Body(s: string, k: nat, m: nat): Option<nat>
    decreases |s| - m
  {
    if 2 * k + m > |s| then None
    else if AllTicks(s[k + m..2 * k + m]) then Some(m)
    else if k + m < |s| && LineEnd(s[k + m]) then None
    else Body(s, k, m + 1)
  }

  /** As many opening backticks as there are, else fewer. */
  function MatchUpTo(s: string, k: nat): Option<Match> {
    if k == 0 then None
    else match Body(s, k, 0)
      case Some(m) => Some(Match(k, m))
      case None => MatchUpTo(s, k - 1)
  }

  function MatchOf(s: string): Option<Match> { MatchUpTo(s, Run(s, '`')) }

  lemma {:induction false} RunTicks(s: string)
    ensures AllTicks(s[..Run(s, '`')]) && (Run(s, '`') < |s| ==> s[Run(s, '`')] != '`')
  {
    if s != [] && s[0] == '`' {
      RunTicks(s[1..]);
      var n := Run(s[1..], '`');
      assert s[..n + 1] == ['`'] + s[1..][..n];
    }
  }

  lemma {:induction false} BodyExact(s: string, k: nat, m: nat, n: nat)
    requires k >= 1 && k + m <= |s| && OneLine(s[k..k + m])
    requires m <= n && 2 * k + n <= |s| && OneLine(s[k..k + n]) && AllTicks(s[k + n..2 * k + n])
    ensures Body(s, k, m).Some? && m <= Body(s, k, m).value <= n
    decreases n - m
  {
    if m < n && !AllTicks(s[k + m..2 * k + m]) {
      assert s[k + m] == s[k..k + n][m];
      assert s[k..k + m + 1] == s[k..k + n][..m + 1];
      BodyExact(s, k, m + 1, n);
    }
  }

  lemma {:induction false} BodyFits(s: string, k: nat, m: nat)
    requires k >= 1 && AllTicks(s[..if k <= |s| then k else |s|]) && k + m <= |s| && OneLine(s[k..k + m])
    ensures Body(s, k, m).Some? ==> IsMatch(s, k, Body(s, k, m).value)
    decreases |s| - m
  {
    if 2 * k + m <= |s| && !AllTicks(s[k + m..2 * k + m]) && !LineEnd(s[k + m]) {
      assert s[k..k + m + 1] == s[k..k + m] + [s[k + m]];
      BodyFits(s, k, m + 1);
    }
  }

  lemma {:induction false} TicksWithin(s: string, k: nat)
    requires k <= |s| && AllTicks(s[..k])
    ensures k <= Run(s, '`')
  {
    if k > 0 {
      assert s[..k][0] == '`';
      assert s[1..][..k - 1] == s[..k][1..];
      TicksWithin(s[1..], k - 1);
    }
  }

  lemma {:induction false} MatchUpToExact(s: string, k: nat, j: nat, n: nat)
    requires k <= |s| && AllTicks(s[..k])
    ensures MatchUpTo(s, k).Some? ==> IsMatch(s, MatchUpTo(s, k).value.ticks, MatchUpTo(s, k).value.body)
    ensures j <= k && IsMatch(s, j, n) ==>
      MatchUpTo(s, k).Some? && var r := MatchUpTo(s, k).value; r.ticks >= j && (r.ticks == j ==> r.body <= n)
  {
    if k > 0 {
      BodyFits(s, k, 0);
      assert s[..k - 1] == s[..k][..k - 1];
      MatchUpToExact(s, k - 1, j, n);
      if j == k && IsMatch(s, j, n) { BodyExact(s, k, 0, n); }
    }
  }

  /** The match found is one with the most backticks, and among those the shortest; if none is found
      there is none. */
  lemma MatchExact(s: string, j: nat, n: nat)
    ensures MatchOf(s).Some? ==> IsMatch(s, MatchOf(s).value.ticks, MatchOf(s).value.body)
    ensures IsMatch(s, j, n) ==>
      MatchOf(s).Some? && var r := MatchOf(s).value; r.ticks >= j && (r.ticks == j ==> r.body <= n)
  {
    RunTicks(s);
    if IsMatch(s, j, n) { TicksWithin(s, j); }
    MatchUpToExact(s, Run(s, '`'), j, n);
  }

  function Span(m: Match): nat { 2 * m.ticks + m.body }

  /** What a match removes is not empty and has no line end. */
  lemma SpanOnOneLine(s: string)
    requires MatchOf(s).Some?
    ensures 0 < Span(MatchOf(s).value) <= |s| && OneLine(s[..Span(MatchOf(s).value)])
  {
    var r := MatchOf(s).value;
    MatchExact(s, 0, 0);
    var k, m := r.ticks, r.body;
    forall i | 0 <= i < 2 * k + m ensures !LineEnd(s[i]) {
      if i < k {
        assert s[i] == s[..k][i];
      } else if i < k + m {
        assert s[i] == s[k..k + m][i - k];
      } else {
        assert s[i] == s[k + m..2 * k + m][i - k - m];
      }
    }
  }

  /** `INLINE_CODE_RE.sub("", s)` */
  function Remove(s: string): string
    decreases |s|
  {
    if s == [] then []
    else
      match MatchOf(s)
      case Some(m) => SpanOnOneLine(s); Remove(s[Span(m)..])
      case None => [s[0]] + Remove(s[1..])
  }

  // ----- what is removed ----------------------------------------------------------------

  /** A part of the text: one character that is kept, or a code span that is cut. */
  datatype Part = Keep(text: string) | Cut(text: string, ticks: nat, body: nat)

  function Whole(parts: seq<Part>): string {
    if parts == [] then [] else parts[0].text + Whole(parts[1..])
  }

  function KeptText(parts: seq<Part>): string {
    if parts == [] then [] else (if parts[0].Keep? then parts[0].text else []) + KeptText(parts[1..])
  }

  /** No match with more backticks, and none with as many that is shorter. */
  ghost predicate Best(s: string, k: nat, m: nat) {
    IsMatch(s, k, m) && forall j: nat, n: nat :: IsMatch(s, j, n) ==> j < k || (j == k && m <= n)
  }

  /** A character is kept where no match starts; a span is cut where it is the best match. */
  ghost predicate PartFits(p: Part, s: string) {
    && p.text <= s
    && match p
       case Keep(c) => |c| == 1 && forall j: nat, n: nat :: !IsMatch(s, j, n)
       case Cut(c, k, m) => |c| == 2 * k + m && Best(s, k, m)
  }

  /** The text is read from the left, part by part. */
  ghost predicate Parted(parts: seq<Part>, s: string)
    decreases |parts|
  {
    if parts == [] then s == []
    else PartFits(parts[0], s) && Parted(parts[1..], s[|parts[0].text|..])
  }

  lemma MatchIsBest(s: string)
    ensures MatchOf(s).Some? ==> Best(s, MatchOf(s).value.ticks, MatchOf(s).value.body)
    ensures MatchOf(s).None? ==> forall j: nat, n: nat :: !IsMatch(s, j, n)
  {
    forall j: nat, n: nat ensures IsMatch(s, j, n) ==>
      MatchOf(s).Some? && var r := MatchOf(s).value; r.ticks >= j && (r.ticks == j ==> r.body <= n) {
      MatchExact(s, j, n);
    }
    MatchExact(s, 0, 0);
  }

  lemma BestIsMatch(s: string, k: nat, m: nat)
    requires Best(s, k, m)
    ensures MatchOf(s) == Some(Match(k, m))
  {
    MatchIsBest(s);
  }

  lemma NoMatch(s: string)
    requires forall j: nat, n: nat :: !IsMatch(s, j, n)
    ensures MatchOf(s).None?
  {
    MatchIsBest(s);
  }

  /** Every text has its parts, */
  lemma {:induction false} PartsExist(s: string) returns (parts: seq<Part>)
    ensures Parted(parts, s)
    decreases |s|
  {
    if s == [] {
      parts := [];
    } else {
      MatchIsBest(s);
      var p: Part;
      if MatchOf(s).Some? {
        SpanOnOneLine(s);
        var r := MatchOf(s).value;
        p := Cut(s[..Span(r)], r.ticks, r.body);
      } else {
        p := Keep(s[..1]);
      }
      var rest := PartsExist(s[|p.text|..]);
      parts := [p] + rest;
      assert parts[1..] == rest;
    }
  }

  /** and what is left of it is what they keep. */
  lemma {:induction false} RemoveExact(s: string, parts: seq<Part>)
    requires Parted(parts, s)
    ensures Whole(parts) == s && Remove(s) == KeptText(parts)
    decreases |parts|
  {
    if parts != [] {
      var p, rest := parts[0], s[|parts[0].text|..];
      RemoveExact(rest, parts[1..]);
      assert s == p.text + rest;
      if p.Cut? {
        BestIsMatch(s, p.ticks, p.body);
      } else {
        NoMatch(s);
        assert p.text == [s[0]];
      }
    }
  }

  // ----- keeping lines ------------------------------------------------------------------

  /** The same number of newlines before `k` in `t` and before `n` in `s`. */
  ghost predicate SameLine(t: string, k: nat, s: string, n: nat)
    requires k <= |t| && n <= |s|
  {
    forall u {:trigger Unfold(u)} :: Unfold(u) ==> Newlines(t[..k]) == Newlines(s[..n])
  }

  /** The character at `k` of `t` is that at `pos[k]` of `s`, on the same line. */
  ghost predicate KeptAt(t: string, s: string, pos: seq<nat>, k: int) {
    0 <= k < |t| && k < |pos| ==> pos[k] < |s| && t[k] == s[pos[k]] && SameLine(t, k, s, pos[k])
  }

  ghost predicate Before(pos: seq<nat>, i: int, j: int) {
    0 <= i < j < |pos| ==> pos[i] < pos[j]
  }

  /** `t` is `s` with characters taken out, and what is left is on the line it was on. */
  ghost predicate KeepsLines(t: string, s: string, pos: seq<nat>) {
    && |pos| == |t|
    && (forall k {:trigger KeptAt(t, s, pos, k)} :: KeptAt(t, s, pos, k))
    && (forall i, j {:trigger Before(pos, i, j)} :: Before(pos, i, j))
  }

  function Shifted(pos: seq<nat>, d: nat): seq<nat> {
    seq(|pos|, k requires 0 <= k < |pos| => pos[k] + d)
  }

  lemma SameLineLeft(t: string, s: string, u: string, v: string, k: nat, n: nat)
    requires k <= |t| && n <= |s| && SameLine(t, k, s, n)
    ensures SameLine(t + u, k, s + v, n)
  {
    assert Unfold(true);
    assert (t + u)[..k] == t[..k] && (s + v)[..n] == s[..n];
  }

  lemma SameLineRight(t: string, s: string, u: string, v: string, k: nat, n: nat)
    requires Newlines(t) == Newlines(s) && k <= |u| && n <= |v| && SameLine(u, k, v, n)
    ensures SameLine(t + u, |t| + k, s + v, |s| + n)
  {
    assert Unfold(true);
    PrefixRight(t, u, k);
    PrefixRight(s, v, n);
  }

  lemma PrefixRight(t: string, u: string, k: nat)
    requires k <= |u|
    ensures Newlines((t + u)[..|t| + k]) == Newlines(t) + Newlines(u[..k])
  {
    assert (t + u)[..|t| + k] == t + u[..k];
    NewlinesJoin(t, u[..k]);
  }

  lemma KeptRight(t: string, s: string, u: string, v: string, r: seq<nat>, k: nat, n: nat)
    requires Newlines(t) == Newlines(s) && k < |u| && n < |v| && u[k] == v[n] && SameLine(u, k, v, n)
    requires |t| + k < |r| && r[|t| + k] == |s| + n
    ensures KeptAt(t + u, s + v, r, |t| + k)
  {
    SameLineRight(t, s, u, v, k, n);
  }

  lemma KeptLeft(t: string, s: string, p: seq<nat>, u: string, v: string, q: seq<nat>, k: nat)
    requires |p| == |t| && KeptAt(t, s, p, k) && k < |t|
    ensures KeptAt(t + u, s + v, p + q, k)
  {
    SameLineLeft(t, s, u, v, k, p[k]);
  }

  lemma KeepsJoin(t: string, s: string, p: seq<nat>, u: string, v: string, q: seq<nat>)
    requires KeepsLines(t, s, p) && KeepsLines(u, v, q) && Newlines(t) == Newlines(s)
    ensures KeepsLines(t + u, s + v, p + Shifted(q, |s|)) && Newlines(t + u) - Newlines(s + v) == Newlines(u) - Newlines(v)
  {
    var r := p + Shifted(q, |s|);
    forall k ensures KeptAt(t + u, s + v, r, k) {
      if 0 <= k < |t| {
        assert KeptAt(t, s, p, k);
        KeptLeft(t, s, p, u, v, Shifted(q, |s|), k);
      } else if |t| <= k < |t + u| {
        assert KeptAt(u, v, q, k - |t|);
        KeptRight(t, s, u, v, r, k - |t|, q[k - |t|]);
      }
    }
    forall i, j ensures Before(r, i, j) {
      if 0 <= i < j < |r| {
        assert Before(p, i, j) && Before(q, i - |p|, j - |p|);
        assert KeptAt(t, s, p, i);
      }
    }
    NewlinesJoin(t, u);
    NewlinesJoin(s, v);
  }

  lemma SameLineThrough(t: string, i: nat, u: string, j: nat, s: string, k: nat)
    requires i <= |t| && j <= |u| && k <= |s| && SameLine(t, i, u, j) && SameLine(u, j, s, k)
    ensures SameLine(t, i, s, k)
  {
    assert Unfold(true);
  }

  lemma KeepsThrough(t: string, u: string, p: seq<nat>, s: string, q: seq<nat>) returns (r: seq<nat>)
    requires KeepsLines(t, u, p) && KeepsLines(u, s, q)
    ensures KeepsLines(t, s, r)
  {
    forall k | 0 <= k < |p| ensures p[k] < |q| { assert KeptAt(t, u, p, k); }
    r := seq(|p|, k requires 0 <= k < |p| => q[p[k]]);
    forall k ensures KeptAt(t, s, r, k) {
      if 0 <= k < |t| {
        assert KeptAt(t, u, p, k) && KeptAt(u, s, q, p[k]);
        SameLineThrough(t, k, u, p[k], s, q[p[k]]);
      }
    }
    forall i, j ensures Before(r, i, j) {
      if 0 <= i < j < |r| { assert Before(p, i, j) && Before(q, p[i], p[j]); }
    }
  }

  lemma KeepsAll(s: string) returns (pos: seq<nat>)
    ensures KeepsLines(s, s, pos)
  {
    pos := seq(|s|, k requires 0 <= k < |s| => k);
    forall k ensures KeptAt(s, s, pos, k) { }
    forall i, j ensures Before(pos, i, j) { }
  }

  lemma KeepsNone(s: string)
    ensures KeepsLines([], s, [])
  {
  }

  lemma {:induction false} OneLineNewlines(s: string)
    requires OneLine(s)
    ensures Newlines(s) == 0
  {
    if s != [] { OneLineNewlines(s[1..]); }
  }

  /** Removing inline code leaves everything else on its line. */
  lemma {:induction false} RemoveKeeps(s: string) returns (pos: seq<nat>)
    ensures KeepsLines(Remove(s), s, pos) && Newlines(Remove(s)) == Newlines(s)
    decreases |s|
  {
    if s == [] {
      pos := [];
    } else if MatchOf(s).Some? {
      SpanOnOneLine(s);
      var n := Span(MatchOf(s).value);
      var rest := RemoveKeeps(s[n..]);
      KeepsNone(s[..n]);
      OneLineNewlines(s[..n]);
      KeepsJoin([], s[..n], [], Remove(s[n..]), s[n..], rest);
      assert [] + Remove(s[n..]) == Remove(s) && s[..n] + s[n..] == s;
      pos := [] + Shifted(rest, n);
    } else {
      var first := KeepsAll([s[0]]);
      var rest := RemoveKeeps(s[1..]);
      KeepsJoin([s[0]], [s[0]], first, Remove(s[1..]), s[1..], rest);
      assert [s[0]] + s[1..] == s;
      pos := first + Shifted(rest, 1);
    }
  }

  // ----- the whole normaliser -----------------------------------------------------------

  function Normalised(text: string): string { Remove(Strip(text)) }

  method WithoutCode(text: string) returns (r: string)
    ensures r == Normalised(text)
  {
    var stripped := WithoutFencedCode(text);
    r := Remove(stripped);
  }

  /** A line that does not end with a bare carriage return keeps what is left of it in place. */
  lemma PieceKeeps(f: Fence, line: string) returns (pos: seq<nat>)
    requires IsLine(line) && !Slips(f, line)
    ensures KeepsLines(Piece(f, line), line, pos) && Newlines(Piece(f, line)) == Newlines(line)
  {
    PieceNewlines(f, line);
    if !Hidden(f, line) {
      pos := KeepsAll(line);
    } else if EndsWith(line, '\n') {
      var n := |line| - 1;
      assert line == line[..n] + "\n";
      KeepsNone(line[..n]);
      LineNewlines(line);
      NewlinesJoin(line[..n], "\n");
      assert Newlines("\n") == 1 by { assert "\n"[1..] == []; }
      var last := KeepsAll("\n");
      KeepsJoin([], line[..n], [], "\n", "\n", last);
      assert [] + "\n" == "\n";
      pos := [] + Shifted(last, n);
    } else {
      KeepsNone(line);
      pos := [];
    }
  }

  lemma {:induction false} StripKeeps(f: Fence, lines: seq<string>) returns (pos: seq<nat>)
    requires (forall i :: 0 <= i < |lines| ==> IsLine(lines[i])) && Slipped(f, lines) == 0
    ensures KeepsLines(Join(Pieces(f, lines)), Join(lines), pos)
    decreases |lines|
  {
    if lines == [] {
      pos := [];
    } else {
      var g := After(f, lines[0]);
      var first := PieceKeeps(f, lines[0]);
      var rest := StripKeeps(g, lines[1..]);
      var t, u := Piece(f, lines[0]), Join(Pieces(g, lines[1..]));
      KeepsJoin(t, lines[0], first, u, Join(lines[1..]), rest);
      assert Pieces(f, lines)[1..] == Pieces(g, lines[1..]);
      pos := first + Shifted(rest, |lines[0]|);
    }
  }

  /** Every character that survives the whole normaliser is on the line it was on, unless a hidden line
      ends with a bare carriage return. */
  lemma SurvivorsKeepLines(text: string) returns (pos: seq<nat>)
    requires Slipped(Outside, Lines(text)) == 0
    ensures KeepsLines(Normalised(text), text, pos)
  {
    LinesAreLines(text);
    LinesJoin(text);
    var p := StripKeeps(Outside, Lines(text));
    var q := RemoveKeeps(Strip(text));
    pos := KeepsThrough(Normalised(text), Strip(text), q, text, p);
  }

  /** The number of lines is kept exactly if no hidden line ends with a bare carriage return. */
  lemma NormalisedNewlines(text: string)
    ensures Newlines(Normalised(text)) == Newlines(text) + Slipped(Outside, Lines(text))
  {
    var lines := Lines(text);
    LinesAreLines(text);
    LinesJoin(text);
    PrefixNewlines(Outside, lines, |lines|);
    assert lines[..|lines|] == lines && Pieces(Outside, lines)[..|lines|] == Pieces(Outside, lines);
    var pos := RemoveKeeps(Strip(text));
  }

  /** The line the link check reports for a match at `k`. */
  function ReportedLine(text: string, k: nat): nat
    requires k <= |Normalised(text)|
  {
    Newlines(Normalised(text)[..k]) + 1
  }

  /** In a text with normalised newlines the reported line is that of the match's first character in
      the file. */
  lemma ReportedLineExact(text: string, k: nat) returns (i: nat)
    requires '\r' !in text && k < |Normalised(text)|
    ensures i < |text| && text[i] == Normalised(text)[k] && ReportedLine(text, k) == Newlines(text[..i]) + 1
  {
    var lines := Lines(text);
    forall j | 0 <= j < |lines| ensures !EndsWith(lines[j], '\r') { LinesWithin(text, j); }
    NoReturnNoSlip(Outside, lines);
    var pos := SurvivorsKeepLines(text);
    assert KeptAt(Normalised(text), text, pos, k);
    i := pos[k];
    assert Unfold(true);
  }
}
