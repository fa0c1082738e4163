/** What a fence line is, and which lines the fences hide, said by blocks of lines. */
module FenceBlocks {
  import opened Fences

  // ----- fence lines --------------------------------------------------------------------

  predicate Blank(c: char) { c == ' ' || c == '\t' }

  lemma {:induction false} IndentMeans(s: string, max: nat)
    ensures var n := Indent(s, max);
            && (forall j :: 0 <= j < n ==> Blank(s[j]))
            && (n == max || n == |s| || !Blank(s[n]))
  {
    if max > 0 && s != [] && Blank(s[0]) {
      IndentMeans(s[1..], max - 1);
      forall j | 0 <= j < Indent(s, max) ensures Blank(s[j]) {
        if j > 0 { assert s[j] == s[1..][j - 1]; }
      }
    }
  }

  lemma {:induction false} RunMeans(s: string, c: char)
    ensures var n := Run(s, c);
            && (forall j :: 0 <= j < n ==> s[j] == c)
            && (n == |s| || s[n] != c)
  {
    if s != [] && s[0] == c {
      RunMeans(s[1..], c);
      forall j | 0 <= j < Run(s, c) ensures s[j] == c {
        if j > 0 { assert s[j] == s[1..][j - 1]; }
      }
    }
  }

  /** After `i` blanks come exactly `n` times `c`. */
  ghost predicate MarkedAt(line: string, i: nat, c: char, n: nat) {
    && i + n <= |line|
    && (forall j :: 0 <= j < i ==> Blank(line[j]))
    && (forall j :: i <= j < i + n ==> line[j] == c)
    && (i + n < |line| ==> line[i + n] != c)
  }

  lemma MarkedHere(line: string)
    requires MarkerOf(line).Marker?
    ensures var m := MarkerOf(line);
            (m.tick == '`' || m.tick == '~') && m.length >= 3 && Indent(line, 3) <= 3 && MarkedAt(line, Indent(line, 3), m.tick, m.length)
  {
    IndentMeans(line, 3);
    var i := Indent(line, 3);
    var t := line[i..];
    RunMeans(t, t[0]);
    forall j | i <= j < i + Run(t, t[0]) ensures line[j] == t[0] { assert line[j] == t[j - i]; }
  }

  /** A line is a fence of `n` times `c` exactly if at most three blanks come before them, and they
      are at least three backticks or tildes. */
  lemma MarkerExact(line: string, c: char, n: nat)
    ensures MarkerOf(line) == Marker(c, n) <==>
      (c == '`' || c == '~') && n >= 3 && exists i: nat :: i <= 3 && MarkedAt(line, i, c, n)
  {
    if MarkerOf(line) == Marker(c, n) { MarkedHere(line); }
    if (c == '`' || c == '~') && n >= 3 && exists i: nat :: i <= 3 && MarkedAt(line, i, c, n) {
      var i: nat :| i <= 3 && MarkedAt(line, i, c, n);
      IndentMeans(line, 3);
      assert line[i] == c && !Blank(line[i]);
      assert Indent(line, 3) == i;
      var t := line[i..];
      RunMeans(t, c);
      assert forall j :: 0 <= j < n ==> t[j] == line[i + j];
      assert Run(t, c) == n;
    }
  }

  // ----- the fence before a line --------------------------------------------------------

  function FenceAt(lines: seq<string>, k: nat): Fence
    requires k <= |lines|
  {
    if k == 0 then Outside else After(FenceAt(lines, k - 1), lines[k - 1])
  }

  lemma {:induction false} PiecesFrom(lines: seq<string>, k: nat)
    requires k <= |lines|
    ensures Pieces(Outside, lines)[k..] == Pieces(FenceAt(lines, k), lines[k..])
  {
    if k > 0 {
      PiecesFrom(lines, k - 1);
      var f := FenceAt(lines, k - 1);
      assert lines[k - 1..][1..] == lines[k..];
      assert Pieces(Outside, lines)[k - 1..][1..] == Pieces(Outside, lines)[k..];
      assert Pieces(f, lines[k - 1..])[1..] == Pieces(After(f, lines[k - 1]), lines[k..]);
    } else {
      assert lines[0..] == lines && Pieces(Outside, lines)[0..] == Pieces(Outside, lines);
    }
  }

  lemma PieceAt(lines: seq<string>, k: nat)
    requires k < |lines|
    ensures Pieces(Outside, lines)[k] == Piece(FenceAt(lines, k), lines[k])
  {
    PiecesFrom(lines, k);
    assert Pieces(Outside, lines)[k] == Pieces(Outside, lines)[k..][0];
  }

  // ----- blocks -------------------------------------------------------------------------

  /** The lines from `start` up to `end`. */
  datatype Block = Block(start: nat, end: nat)

  predicate IsFence(lines: seq<string>, k: nat) {
    k < |lines| && MarkerOf(lines[k]).Marker?
  }

  /** Line `k` closes what line `a` opens: the same character, and at least as many. */
  predicate Closes(lines: seq<string>, a: nat, k: nat) {
    && IsFence(lines, a) && IsFence(lines, k)
    && MarkerOf(lines[k]).tick == MarkerOf(lines[a]).tick && MarkerOf(lines[k]).length >= MarkerOf(lines[a]).length
  }

  ghost predicate NoFence(lines: seq<string>, from: nat, to: nat) {
    forall k: nat {:trigger IsFence(lines, k)} :: from <= k < to ==> !IsFence(lines, k)
  }

  ghost predicate NotClosed(lines: seq<string>, a: nat, to: nat) {
    forall k: nat {:trigger Closes(lines, a, k)} :: a < k < to ==> !Closes(lines, a, k)
  }

  /** From a fence line to the first line that closes it, or to the end. */
  ghost predicate IsBlock(lines: seq<string>, b: Block) {
    && b.start < b.end <= |lines| && IsFence(lines, b.start)
    && NotClosed(lines, b.start, b.end - 1)
    && ((b.start < b.end - 1 && Closes(lines, b.start, b.end - 1)) || (b.end == |lines| && NotClosed(lines, b.start, b.end)))
  }

  /** The blocks from line `p` on, with no fence line between them. */
  ghost predicate Partitioned(lines: seq<string>, p: nat, blocks: seq<Block>)
    decreases |blocks|
  {
    if blocks == [] then NoFence(lines, p, |lines|)
    else
      var b := blocks[0];
      p <= b.start && NoFence(lines, p, b.start) && IsBlock(lines, b) && Partitioned(lines, b.end, blocks[1..])
  }

  ghost predicate Covered(blocks: seq<Block>, k: nat) {
    exists i :: 0 <= i < |blocks| && blocks[i].start <= k < blocks[i].end
  }

  lemma {:induction false} OutsideStays(lines: seq<string>, p: nat, k: nat)
    requires p <= k <= |lines| && FenceAt(lines, p) == Outside && NoFence(lines, p, k)
    ensures FenceAt(lines, k) == Outside
    decreases k - p
  {
    if p < k {
      assert !IsFence(lines, p);
      assert FenceAt(lines, p + 1) == Outside;
      OutsideStays(lines, p + 1, k);
    }
  }

  ghost predicate InsideOf(lines: seq<string>, a: nat, k: nat) {
    k <= |lines| && IsFence(lines, a) && FenceAt(lines, k) == Inside(MarkerOf(lines[a]).tick, MarkerOf(lines[a]).length)
  }

  lemma {:induction false} InsideStays(lines: seq<string>, a: nat, k: nat)
    requires a < k <= |lines| && FenceAt(lines, a) == Outside && IsFence(lines, a) && NotClosed(lines, a, k)
    ensures InsideOf(lines, a, k)
    decreases k
  {
    if k == a + 1 {
      assert FenceAt(lines, k) == After(Outside, lines[a]);
    } else {
      InsideStays(lines, a, k - 1);
      assert !Closes(lines, a, k - 1);
    }
  }

  /** A block hides its lines. */
  lemma BlockHides(lines: seq<string>, b: Block, k: nat)
    requires IsBlock(lines, b) && FenceAt(lines, b.start) == Outside && b.start <= k < b.end
    ensures Hidden(FenceAt(lines, k), lines[k])
  {
    if k > b.start { InsideStays(lines, b.start, k); }
  }

  lemma ClosedAt(lines: seq<string>, a: nat, k: nat)
    requires k < |lines| && InsideOf(lines, a, k) && Closes(lines, a, k)
    ensures FenceAt(lines, k + 1) == Outside
  {
    assert FenceAt(lines, k + 1) == After(FenceAt(lines, k), lines[k]);
  }

  /** After a block that does not reach the end, no fence is open. */
  lemma BlockEnds(lines: seq<string>, b: Block)
    requires IsBlock(lines, b) && FenceAt(lines, b.start) == Outside && b.end < |lines|
    ensures FenceAt(lines, b.end) == Outside
  {
    var k := b.end - 1;
    InsideStays(lines, b.start, k);
    ClosedAt(lines, b.start, k);
  }

  lemma {:induction false} BlocksHide(lines: seq<string>, p: nat, blocks: seq<Block>, k: nat)
    requires p <= k < |lines| && FenceAt(lines, p) == Outside && Partitioned(lines, p, blocks)
    ensures Hidden(FenceAt(lines, k), lines[k]) <==> Covered(blocks, k)
    decreases |blocks|
  {
    if blocks == [] {
      OutsideStays(lines, p, k);
      assert !IsFence(lines, k);
    } else {
      var b, rest := blocks[0], blocks[1..];
      CoveredSplit(blocks, k);
      OutsideStays(lines, p, b.start);
      if k < b.start {
        OutsideStays(lines, p, k);
        assert !IsFence(lines, k);
        LaterBlocks(lines, b.end, rest);
      } else if k < b.end {
        BlockHides(lines, b, k);
      } else {
        BlockEnds(lines, b);
        BlocksHide(lines, b.end, rest, k);
      }
    }
  }

  lemma CoveredSplit(blocks: seq<Block>, k: nat)
    requires blocks != []
    ensures Covered(blocks, k) <==> blocks[0].start <= k < blocks[0].end || Covered(blocks[1..], k)
  {
    if i :| 0 <= i < |blocks| && blocks[i].start <= k < blocks[i].end {
      if i > 0 { assert blocks[1..][i - 1] == blocks[i]; }
    }
    if i :| 0 <= i < |blocks[1..]| && blocks[1..][i].start <= k < blocks[1..][i].end {
      assert blocks[i + 1] == blocks[1..][i];
    }
  }

  lemma {:induction false} LaterBlocks(lines: seq<string>, p: nat, blocks: seq<Block>)
    requires Partitioned(lines, p, blocks)
    ensures forall i :: 0 <= i < |blocks| ==> p <= blocks[i].start
    decreases |blocks|
  {
    if blocks != [] {
      LaterBlocks(lines, blocks[0].end, blocks[1..]);
      forall i | 0 <= i < |blocks| ensures p <= blocks[i].start {
        if i > 0 { assert blocks[1..][i - 1] == blocks[i]; }
      }
    }
  }

  /** Every text has its blocks: */
  lemma {:induction false} BlocksExist(lines: seq<string>, p: nat) returns (blocks: seq<Block>)
    requires p <= |lines|
    ensures Partitioned(lines, p, blocks)
    decreases |lines| - p
  {
    if NoFence(lines, p, |lines|) {
      blocks := [];
    } else {
      var a := FirstFence(lines, p);
      var end := BlockEnd(lines, a, a + 1);
      var rest := BlocksExist(lines, end);
      blocks := [Block(a, end)] + rest;
      assert blocks[1..] == rest;
    }
  }

  lemma {:induction false} FirstFence(lines: seq<string>, p: nat) returns (a: nat)
    requires !NoFence(lines, p, |lines|)
    ensures p <= a && NoFence(lines, p, a) && IsFence(lines, a)
    decreases |lines| - p
  {
    if IsFence(lines, p) {
      a := p;
    } else {
      a := FirstFence(lines, p + 1);
    }
  }

  lemma {:induction false} BlockEnd(lines: seq<string>, a: nat, k: nat) returns (end: nat)
    requires a < k <= |lines| && IsFence(lines, a) && NotClosed(lines, a, k)
    ensures IsBlock(lines, Block(a, end))
    decreases |lines| - k
  {
    if k == |lines| {
      end := k;
    } else if Closes(lines, a, k) {
      end := k + 1;
    } else {
      end := BlockEnd(lines, a, k + 1);
    }
  }

  /** and what is kept is what they do not cover; of a covered line only its end is left. */
  lemma StripByBlocks(text: string, blocks: seq<Block>, k: nat)
    requires k < |Lines(text)| && Partitioned(Lines(text), 0, blocks)
    ensures var line := Lines(text)[k];
            Pieces(Outside, Lines(text))[k] ==
              if !Covered(blocks, k) then line
              else if line != "" && (line[|line| - 1] == '\n' || line[|line| - 1] == '\r') then "\n"
              else ""
  {
    PieceAt(Lines(text), k);
    BlocksHide(Lines(text), 0, blocks, k);
    LinesAreLines(text);
  }
}
