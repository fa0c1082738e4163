/** What the HTML normaliser writes, said over the tree of the document. */
module HtmlMeaning {
  import opened Options
  import Fences
  import opened HtmlLines

  /** An element with its start and end tag as they stand in the file, a text, a tag that stands
      alone, or something without content. */
  datatype Node =
    | Element(tag: string, start: string, href: Option<string>, children: seq<Node>, end: string)
    | Words(raw: string, data: string)
    | Lone(tag: string, start: string, href: Option<string>)
    | Empty(start: string)
    | Remark(data: string)
    | Directive(raw: string)

  /** A tag the normaliser does nothing about. */
  predicate Unmarked(tag: string) {
    tag !in ["script", "style", "a", "code", "h1", "h2", "h3", "h4", "h5", "h6"]
  }

  predicate Good(n: Node) {
    match n
    case Element(_, _, _, children, _) => forall i :: 0 <= i < |children| ==> Good(children[i])
    case Lone(tag, _, _) => Unmarked(tag)
    case _ => true
  }

  function Tokens(n: Node): seq<Token> {
    match n
    case Element(tag, start, href, children, end) => [StartTag(tag, start, href)] + TokensOf(children) + [EndTag(tag, end)]
    case Words(raw, data) => [Data(raw, data)]
    case Lone(tag, start, href) => [StartTag(tag, start, href)]
    case Empty(start) => [EmptyTag(start)]
    case Remark(data) => [Comment(data)]
    case Directive(raw) => [Declaration(raw)]
  }

  function TokensOf(ns: seq<Node>): seq<Token> {
    if ns == [] then [] else Tokens(ns[0]) + TokensOf(ns[1..])
  }

  // ----- the rendering ------------------------------------------------------------------

  /** As many newlines as the text has. */
  function LineEnds(raw: string): string { Repeat('\n', Fences.Newlines(raw)) }

  /** Of the body of a script or a style only newlines are left. */
  function Skipped(n: Node): string {
    match n
    case Element(_, start, _, children, _) => LineEnds(start) + SkippedAll(children)
    case Words(_, data) => LineEnds(data)
    case Lone(_, start, _) => LineEnds(start)
    case Empty(start) => LineEnds(start)
    case Remark(data) => LineEnds(data)
    case Directive(_) => ""
  }

  function SkippedAll(ns: seq<Node>): string {
    if ns == [] then "" else Skipped(ns[0]) + SkippedAll(ns[1..])
  }

  /** What is written: the text, and the label of the anchor that is open, if one is. */
  datatype Page = Page(text: string, caption: Option<string>)

  function Write(p: Page, s: string): Page {
    if p.caption.Some? then p.(caption := Some(p.caption.value + s)) else p.(text := p.text + s)
  }

  /** The page after a node: a heading starts its line with as many marks as its level, an anchor
      becomes a link unless an anchor inside it closed it, a text within code gets backticks. */
  function Render(n: Node, code: bool, p: Page): Page {
    match n
    case Element(tag, start, href, children, _) =>
      var q := p.(text := p.text + LineEnds(start));
      if tag == "script" || tag == "style" then q.(text := q.text + SkippedAll(children))
      else if tag == "a" then
        var r := RenderAll(children, code, q.(caption := Some("")));
        if r.caption.None? then r
        else Page(r.text + (if href.Some? then "[" + r.caption.value + "](" + href.value + ")" else r.caption.value), None)
      else if tag == "code" then RenderAll(children, true, q)
      else if tag in ["h1", "h2", "h3", "h4", "h5", "h6"] then
        RenderAll(children, code, q.(text := TrimEnd(q.text) + Repeat('#', (tag[1] as int) - ('0' as int)) + " "))
      else RenderAll(children, code, q)
    case Words(_, data) => Write(p, if code then "`" + data + "`" else data)
    case Lone(_, start, _) => p.(text := p.text + LineEnds(start))
    case Empty(start) => p.(text := p.text + LineEnds(start))
    case Remark(data) => p.(text := p.text + LineEnds(data))
    case Directive(_) => p
  }

  function RenderAll(ns: seq<Node>, code: bool, p: Page): Page {
    if ns == [] then p else RenderAll(ns[1..], code, Render(ns[0], code, p))
  }

  // ----- trimming -----------------------------------------------------------------------

  /** What `TrimEnd` cuts off is blank, and what it leaves does not end with a blank. */
  lemma {:induction false} TrimMeans(s: string)
    ensures var t := TrimEnd(s);
            && t <= s && (forall i :: |t| <= i < |s| ==> Indenting(s[i]))
            && (t != [] ==> !Indenting(t[|t| - 1]))
  {
    if s != [] && Indenting(s[|s| - 1]) { TrimMeans(s[..|s| - 1]); }
  }

  lemma {:induction false} TrimAppend(a: string, b: string)
    ensures TrimEnd(a + b) == if TrimEnd(b) == [] then TrimEnd(a) else a + TrimEnd(b)
    decreases |b|
  {
    if b == [] {
      assert a + b == a;
    } else {
      var n := |b| - 1;
      assert (a + b)[..|a + b| - 1] == a + b[..n];
      if Indenting(b[n]) { TrimAppend(a, b[..n]); }
    }
  }

  lemma {:induction false} JoinLast(ps: seq<string>, p: string)
    ensures Fences.Join(ps + [p]) == Fences.Join(ps) + p
  {
    if ps == [] {
      assert [p][1..] == [];
      assert ps + [p] == [p] && Fences.Join([p]) == p + [];
    } else {
      assert (ps + [p])[1..] == ps[1..] + [p];
      JoinLast(ps[1..], p);
    }
  }

  lemma {:induction false} UnindentedJoin(parts: seq<string>)
    ensures Fences.Join(Unindented(parts)) == TrimEnd(Fences.Join(parts))
  {
    if parts != [] {
      var n := |parts| - 1;
      assert parts == parts[..n] + [parts[n]];
      JoinLast(parts[..n], parts[n]);
      TrimAppend(Fences.Join(parts[..n]), parts[n]);
      if TrimEnd(parts[n]) == [] {
        UnindentedJoin(parts[..n]);
      } else {
        JoinLast(parts[..n], TrimEnd(parts[n]));
      }
    }
  }

  // ----- running a tree -----------------------------------------------------------------

  lemma {:induction false} RunAppend(s: State, a: seq<Token>, b: seq<Token>)
    ensures Run(s, a + b) == Run(Run(s, a), b)
    decreases |a|
  {
    if a == [] {
      assert a + b == b;
    } else {
      assert (a + b)[1..] == a[1..] + b;
      RunAppend(Step(s, a[0]), a[1..], b);
    }
  }

  lemma RunOne(s: State, t: Token)
    ensures Run(s, [t]) == Step(s, t)
  {
    assert [t][1..] == [];
  }

  lemma RunElement(s: State, a: Token, body: seq<Token>, b: Token)
    ensures Run(s, [a] + body + [b]) == Step(Run(Step(s, a), body), b)
  {
    RunAppend(s, [a] + body, [b]);
    RunAppend(s, [a], body);
    RunOne(s, a);
    RunOne(Run(Step(s, a), body), b);
  }

  function Shown(s: State): Page {
    Page(Fences.Join(s.parts), if s.caption.Some? then Some(Fences.Join(s.caption.value)) else None)
  }

  lemma NewlinesShown(s: State, raw: string)
    ensures Shown(EmitNewlines(s, raw)) == Shown(s).(text := Shown(s).text + LineEnds(raw))
  {
    JoinLast(s.parts, Repeat('\n', Fences.Newlines(raw)));
  }

  /** Within a script or a style. */
  ghost predicate Skips(s: State, d: State, more: string) {
    d == s.(parts := d.parts) && Fences.Join(d.parts) == Fences.Join(s.parts) + more
  }

  lemma SkipsTrans(s: State, d: State, e: State, a: string, b: string)
    requires Skips(s, d, a) && Skips(d, e, b)
    ensures Skips(s, e, a + b)
  {
    assert Fences.Join(s.parts) + a + b == Fences.Join(s.parts) + (a + b);
  }

  lemma SkipsLines(s: State, raw: string)
    ensures Skips(s, EmitNewlines(s, raw), LineEnds(raw))
  {
    JoinLast(s.parts, Repeat('\n', Fences.Newlines(raw)));
  }

  lemma {:induction false} SkipNode(s: State, n: Node)
    requires s.dropDepth > 0 && Good(n)
    ensures Skips(s, Run(s, Tokens(n)), Skipped(n))
    decreases n, 0
  {
    match n
    case Element(tag, start, href, children, end) =>
      var a, b := StartTag(tag, start, href), EndTag(tag, end);
      RunElement(s, a, TokensOf(children), b);
      SkipsLines(s, start);
      var t := Step(s, a);
      SkipNodes(t, children);
      SkipElement(s, t, Run(t, TokensOf(children)), a, b, SkippedAll(children));
    case Words(raw, data) =>
      RunOne(s, Data(raw, data));
      SkipsLines(s, data);
    case Lone(tag, start, href) =>
      RunOne(s, StartTag(tag, start, href));
      UnmarkedTag(tag);
      SkipsLines(s, start);
    case Empty(start) =>
      RunOne(s, EmptyTag(start));
      SkipsLines(s, start);
    case Remark(data) =>
      RunOne(s, Comment(data));
      SkipsLines(s, data);
    case Directive(raw) =>
      RunOne(s, Declaration(raw));
  }

  lemma SkipElement(s: State, t: State, u: State, a: Token, b: Token, body: string)
    requires s.dropDepth > 0 && a.StartTag? && b.EndTag? && a.tag == b.tag && t == Step(s, a) && Skips(t, u, body)
    ensures Skips(s, Step(u, b), LineEnds(a.raw) + body)
  {
    SkipsLines(s, a.raw);
    assert Fences.Join(s.parts) + LineEnds(a.raw) + body == Fences.Join(s.parts) + (LineEnds(a.raw) + body);
  }

  lemma {:induction false} SkipNodes(s: State, ns: seq<Node>)
    requires s.dropDepth > 0 && forall i :: 0 <= i < |ns| ==> Good(ns[i])
    ensures Skips(s, Run(s, TokensOf(ns)), SkippedAll(ns))
    decreases ns, 1
  {
    if ns != [] {
      var d := Run(s, Tokens(ns[0]));
      SkipNode(s, ns[0]);
      SkipNodes(d, ns[1..]);
      RunAppend(s, Tokens(ns[0]), TokensOf(ns[1..]));
      SkipsTrans(s, d, Run(d, TokensOf(ns[1..])), Skipped(ns[0]), SkippedAll(ns[1..]));
    }
  }

  /** From `s` to `d` the page `p` came to be; an anchor still open is the one that was. */
  ghost predicate Renders(s: State, d: State, p: Page) {
    && d.dropDepth == 0 && d.codeDepth == s.codeDepth && Shown(d) == p
    && (d.caption.Some? ==> s.caption.Some? && d.href == s.href)
  }

  lemma UnmarkedTag(tag: string)
    ensures Unmarked(tag) <==> !DropsBody(tag) && tag != "a" && tag != "code" && HeadingLevel(tag) == 0
    ensures HeadingLevel(tag) > 0 <==> tag in ["h1", "h2", "h3", "h4", "h5", "h6"]
  {
    if HeadingLevel(tag) > 0 {
      assert tag == ['h', tag[1]];
      assert tag[1] in ['1', '2', '3', '4', '5', '6'];
    }
  }

  lemma WordsRendered(s: State, raw: string, data: string)
    requires s.dropDepth == 0
    ensures Renders(s, Step(s, Data(raw, data)), Render(Words(raw, data), s.codeDepth > 0, Shown(s)))
  {
    var text := if s.codeDepth > 0 then "`" + data + "`" else data;
    JoinLast(s.parts, text);
    if s.caption.Some? { JoinLast(s.caption.value, text); }
  }

  /** The page after the start tag. */
  function Begun(p: Page, tag: string, start: string): Page {
    var q := p.(text := p.text + LineEnds(start));
    if tag == "a" then q.(caption := Some(""))
    else if tag in ["h1", "h2", "h3", "h4", "h5", "h6"] then
      q.(text := TrimEnd(q.text) + Repeat('#', (tag[1] as int) - ('0' as int)) + " ")
    else q
  }

  lemma HeadingShown(s: State, level: nat)
    ensures Shown(OpenHeading(s, level)) == Shown(s).(text := TrimEnd(Shown(s).text) + Repeat('#', level) + " ")
  {
    UnindentedJoin(s.parts);
    JoinLast(Unindented(s.parts), Repeat('#', level) + " ");
    assert TrimEnd(Fences.Join(s.parts)) + (Repeat('#', level) + " ") == TrimEnd(Fences.Join(s.parts)) + Repeat('#', level) + " ";
  }

  lemma StartShown(s: State, a: Token)
    requires s.dropDepth == 0 && a.StartTag? && !DropsBody(a.tag)
    ensures var t := Step(s, a);
            && Shown(t) == Begun(Shown(s), a.tag, a.raw) && t.dropDepth == 0
            && t.codeDepth == s.codeDepth + (if a.tag == "code" then 1 else 0)
            && (if a.tag == "a" then t.href == a.href else t.href == s.href && (t.caption.Some? <==> s.caption.Some?))
  {
    NewlinesShown(s, a.raw);
    UnmarkedTag(a.tag);
    HeadingShown(EmitNewlines(s, a.raw), HeadingLevel(a.tag));
  }

  lemma AnchorCloses(u: State, href: Option<string>, b: Token)
    requires u.dropDepth == 0 && b.EndTag? && b.tag == "a" && (u.caption.Some? ==> u.href == href)
    ensures var r, d := Shown(u), Step(u, b);
            && d.caption.None? && d.dropDepth == 0 && d.codeDepth == u.codeDepth
            && Shown(d) == if r.caption.None? then r
                 else Page(r.text + (if href.Some? then "[" + r.caption.value + "](" + href.value + ")" else r.caption.value), None)
  {
    if u.caption.Some? { JoinLast(u.parts, Link(Fences.Join(u.caption.value), u.href)); }
  }

  lemma OtherEnds(u: State, b: Token)
    requires u.dropDepth == 0 && b.EndTag? && b.tag != "a" && !DropsBody(b.tag) && (b.tag == "code" ==> u.codeDepth > 0)
    ensures Step(u, b) == u.(codeDepth := u.codeDepth - if b.tag == "code" then 1 else 0)
  {
  }

  lemma SkippedRendered(s: State, n: Node)
    requires s.dropDepth == 0 && Good(n) && n.Element? && DropsBody(n.tag)
    ensures Renders(s, Run(s, Tokens(n)), Render(n, s.codeDepth > 0, Shown(s)))
  {
    var a, b := StartTag(n.tag, n.start, n.href), EndTag(n.tag, n.end);
    RunElement(s, a, TokensOf(n.children), b);
    NewlinesShown(s, n.start);
    SkipNodes(Step(s, a), n.children);
  }

  /** Running over the tokens of a tree writes its rendering, wherever the tree stands. */
  lemma {:induction false} NodeRendered(s: State, n: Node)
    requires s.dropDepth == 0 && Good(n)
    ensures Renders(s, Run(s, Tokens(n)), Render(n, s.codeDepth > 0, Shown(s)))
    decreases n, 0
  {
    match n
    case Element(tag, start, href, children, end) =>
      if DropsBody(tag) {
        SkippedRendered(s, n);
      } else {
        var a, b := StartTag(tag, start, href), EndTag(tag, end);
        RunElement(s, a, TokensOf(children), b);
        var t := Step(s, a);
        StartShown(s, a);
        NodesRendered(t, children);
        var u := Run(t, TokensOf(children));
        if tag == "a" { AnchorCloses(u, href, b); } else { OtherEnds(u, b); }
      }
    case Words(raw, data) =>
      RunOne(s, Data(raw, data));
      WordsRendered(s, raw, data);
    case Lone(tag, start, href) =>
      RunOne(s, StartTag(tag, start, href));
      UnmarkedTag(tag);
      NewlinesShown(s, start);
    case Empty(start) =>
      RunOne(s, EmptyTag(start));
      NewlinesShown(s, start);
    case Remark(data) =>
      RunOne(s, Comment(data));
      NewlinesShown(s, data);
    case Directive(raw) =>
      RunOne(s, Declaration(raw));
  }

  lemma {:induction false} NodesRendered(s: State, ns: seq<Node>)
    requires s.dropDepth == 0 && forall i :: 0 <= i < |ns| ==> Good(ns[i])
    ensures Renders(s, Run(s, TokensOf(ns)), RenderAll(ns, s.codeDepth > 0, Shown(s)))
    decreases ns, 1
  {
    if ns != [] {
      var d := Run(s, Tokens(ns[0]));
      NodeRendered(s, ns[0]);
      NodesRendered(d, ns[1..]);
      RunAppend(s, Tokens(ns[0]), TokensOf(ns[1..]));
    }
  }

  /** A document is written as its rendering. */
  lemma DocumentRendered(doc: seq<Node>)
    requires forall i :: 0 <= i < |doc| ==> Good(doc[i])
    ensures Result(Run(START, TokensOf(doc))) == RenderAll(doc, false, Page("", None)).text
  {
    NodesRendered(START, doc);
  }
}
