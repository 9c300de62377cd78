/** Building a DOM forest from XML events: a stack machine with a parallel stack of counters. */
module XhtmlDom {
  import opened Basics
  import opened Strings

  /** Events as the XML reader delivers them, text already unescaped. `Other` stands for comments,
      declarations and everything else the parser ignores. */
  datatype XmlEvent =
    | Start(tag: string, attrs: seq<(string, string)>)
    | Empty(tag: string, attrs: seq<(string, string)>)
    | Text(text: string)
    | End(tag: string)
    | Other

  datatype NodeType =
    | Heading(level: nat) | Paragraph | TextNode | Image | Link | List(ordered: bool) | ListItem | Emphasis
    | Strong | Code | BlockQuote | Table | TableRow | TableCell | LineBreak | Span

  datatype DomNode = DomNode(nodeType: NodeType, anchor: string, text: Option<string>,
                             attrs: seq<(string, string)>, children: seq<DomNode>)

  // ---------- Tags and text ----------

  /** The part of a tag behind its last colon. */
  function LocalName(tag: string): string {
    if tag == "" || tag[|tag| - 1] == ':' then ""
    else LocalName(tag[..|tag| - 1]) + [tag[|tag| - 1]]
  }

  /** A local name is the end of its tag from some position on, behind a colon if not at the start, and holds no
      colon. */
  lemma {:induction false} LocalNameIs(tag: string) returns (i: nat)
    ensures i <= |tag| && LocalName(tag) == tag[i..] && ':' !in tag[i..] && (i > 0 ==> tag[i - 1] == ':')
  {
    i := |tag|;
    if tag != "" && tag[|tag| - 1] != ':' {
      var init, last := tag[..|tag| - 1], tag[|tag| - 1];
      i := LocalNameIs(init);
      assert tag[i..] == init[i..] + [last];
    }
  }

  /** Lower case, as far as ASCII letters come out of it: those of A to Z, and that of the Kelvin sign. */
  function Lower(s: string): string {
    seq(|s|, i requires 0 <= i < |s| =>
      if 'A' <= s[i] <= 'Z' then (s[i] as int + 32) as char else if s[i] as int == 0x212A then 'k' else s[i])
  }

  function NodeTypeOf(tag: string): (t: NodeType)
    ensures t != TextNode
  {
    match Lower(tag)
    case "h1" => Heading(1)
    case "h2" => Heading(2)
    case "h3" => Heading(3)
    case "h4" => Heading(4)
    case "h5" => Heading(5)
    case "h6" => Heading(6)
    case "p" => Paragraph
    case "img" => Image
    case "image" => Image
    case "a" => Link
    case "ul" => List(false)
    case "ol" => List(true)
    case "li" => ListItem
    case "em" => Emphasis
    case "i" => Emphasis
    case "strong" => Strong
    case "b" => Strong
    case "code" => Code
    case "pre" => Code
    case "blockquote" => BlockQuote
    case "table" => Table
    case "tr" => TableRow
    case "td" => TableCell
    case "th" => TableCell
    case "br" => LineBreak
    case _ => Span
  }

  /** Headings are the two-character tags of an h in either case and a digit from 1 to 6, which is the level. */
  lemma HeadingTags(tag: string)
    ensures NodeTypeOf(tag).Heading? <==> |tag| == 2 && tag[0] in {'h', 'H'} && '1' <= tag[1] <= '6'
    ensures NodeTypeOf(tag).Heading? ==> NodeTypeOf(tag).level == tag[1] as int - '0' as int
  {
    var n := Lower(tag);
    assert |n| == |tag| && (|tag| == 2 ==> n == [n[0], n[1]]);
  }

  /** Which tags, in lower case, stand for which of the other types. Everything else is a span. */
  lemma SingleTags(tag: string)
    ensures var n, t := Lower(tag), NodeTypeOf(tag);
            && (t == Paragraph <==> n == "p") && (t == Link <==> n == "a") && (t == LineBreak <==> n == "br")
            && (t == List(false) <==> n == "ul") && (t == List(true) <==> n == "ol") && (t == ListItem <==> n == "li")
            && (t == BlockQuote <==> n == "blockquote") && (t == Table <==> n == "table") && (t == TableRow <==> n == "tr")
  {
  }

  lemma TagsInPairs(tag: string)
    ensures var n, t := Lower(tag), NodeTypeOf(tag);
            && (t == Image <==> n == "img" || n == "image") && (t == Emphasis <==> n == "em" || n == "i")
            && (t == Strong <==> n == "strong" || n == "b") && (t == Code <==> n == "code" || n == "pre")
            && (t == TableCell <==> n == "td" || n == "th")
  {
  }

  // ---------- Anchors ----------

  /** Numeric steps written as a path. */
  function Render(steps: seq<nat>): string {
    if steps == [] then "" else Render(steps[..|steps| - 1]) + "/" + Decimal(steps[|steps| - 1])
  }

  function Doubled(counters: seq<nat>): (r: seq<nat>)
    ensures |r| == |counters| && forall i :: 0 <= i < |r| ==> r[i] == 2 * counters[i]
  {
    seq(|counters|, i requires 0 <= i < |counters| => 2 * counters[i])
  }

  /** `build_cfi`: the counters below the root, doubled; "/2" when there are none. */
  function BuildCfi(counters: seq<nat>): string {
    if |counters| <= 1 then "/2" else Render(Doubled(counters[1..]))
  }

  // ---------- The parser ----------

  datatype Parser = Parser(root: seq<DomNode>, stack: seq<DomNode>, counters: seq<nat>, inBody: bool)

  const BEGIN := Parser([], [], [0], false)

  function Bump(counters: seq<nat>): seq<nat> {
    if counters == [] then [] else counters[..|counters| - 1] + [counters[|counters| - 1] + 1]
  }

  function AddChild(parent: DomNode, node: DomNode): DomNode {
    parent.(children := parent.children + [node])
  }

  /** Hangs a finished node under the innermost open one, or at the top. */
  function Attach(p: Parser, node: DomNode): Parser {
    if p.stack == [] then p.(root := p.root + [node])
    else p.(stack := p.stack[..|p.stack| - 1] + [AddChild(p.stack[|p.stack| - 1], node)])
  }

  function Close(p: Parser): Parser {
    var q := p.(counters := if p.counters == [] then [] else p.counters[..|p.counters| - 1]);
    if p.stack == [] then q
    else Attach(q.(stack := p.stack[..|p.stack| - 1]), p.stack[|p.stack| - 1])
  }

  /** One event. */
  function Feed(p: Parser, e: XmlEvent): Parser {
    match e
    case Start(tag, attrs) =>
      if LocalName(tag) == "body" then p.(inBody := true)
      else if !p.inBody then p
      else
        var counters := Bump(p.counters);
        p.(stack := p.stack + [DomNode(NodeTypeOf(LocalName(tag)), BuildCfi(counters), None, attrs, [])], counters := counters + [0])
    case Text(text) =>
      if !p.inBody || Blank(text) then p
      else
        var counters := Bump(p.counters);
        Attach(p.(counters := counters), DomNode(TextNode, BuildCfi(counters), Some(text), [], []))
    case Empty(tag, attrs) =>
      if !p.inBody then p
      else
        var counters := Bump(p.counters);
        Attach(p.(counters := counters), DomNode(NodeTypeOf(LocalName(tag)), BuildCfi(counters), None, attrs, []))
    case End(tag) =>
      if LocalName(tag) == "body" then p.(inBody := false)
      else if !p.inBody then p
      else Close(p)
    case Other => p
  }

  function FeedAll(es: seq<XmlEvent>): Parser
    decreases |es|
  {
    if es == [] then BEGIN else Feed(FeedAll(es[..|es| - 1]), es[|es| - 1])
  }

  /** Pushes a finished node onto the children of the innermost open one, or onto the top level. */
  method Place(root: seq<DomNode>, stack: seq<DomNode>, node: DomNode) returns (root': seq<DomNode>, stack': seq<DomNode>)
    ensures stack == [] ==> root' == root + [node] && stack' == []
    ensures stack != [] ==> root' == root && stack' == stack[..|stack| - 1] + [AddChild(stack[|stack| - 1], node)]
  {
    root', stack' := root, stack;
    if |stack| > 0 {
      stack' := stack[..|stack| - 1] + [AddChild(stack[|stack| - 1], node)];
    } else {
      root' := root + [node];
    }
  }

  /** The body of the reading loop. */
  method ReadEvent(root: seq<DomNode>, stack: seq<DomNode>, counters: seq<nat>, inBody: bool, e: XmlEvent)
    returns (root': seq<DomNode>, stack': seq<DomNode>, counters': seq<nat>, inBody': bool)
    ensures Parser(root', stack', counters', inBody') == Feed(Parser(root, stack, counters, inBody), e)
  {
    root', stack', counters', inBody' := root, stack, counters, inBody;
    match e
    case Start(tag, attrs) =>
      var name := LocalName(tag);
      if name == "body" {
        inBody' := true;
      } else if inBody {
        counters' := Bump(counters);
        stack' := stack + [DomNode(NodeTypeOf(name), BuildCfi(counters'), None, attrs, [])];
        counters' := counters' + [0];
      }
    case Text(text) =>
      if inBody && !Blank(text) {
        counters' := Bump(counters);
        root', stack' := Place(root, stack, DomNode(TextNode, BuildCfi(counters'), Some(text), [], []));
      }
    case Empty(tag, attrs) =>
      if inBody {
        counters' := Bump(counters);
        root', stack' := Place(root, stack, DomNode(NodeTypeOf(LocalName(tag)), BuildCfi(counters'), None, attrs, []));
      }
    case End(tag) =>
      if LocalName(tag) == "body" {
        inBody' := false;
      } else if inBody {
        if |counters| > 0 { counters' := counters[..|counters| - 1]; }
        if |stack| > 0 { root', stack' := Place(root, stack[..|stack| - 1], stack[|stack| - 1]); }
      }
    case Other =>
  }

  /** `parse_xhtml_to_dom`. `intact` is false when the reader fails after the given events. */
  method ParseXhtmlToDom(es: seq<XmlEvent>, intact: bool) returns (r: Option<seq<DomNode>>)
    ensures r == if intact then Some(FeedAll(es).root) else None
  {
    var root: seq<DomNode>, stack: seq<DomNode>, counters: seq<nat>, inBody := [], [], [0], false;
    for n := 0 to |es|
      invariant Parser(root, stack, counters, inBody) == FeedAll(es[..n])
    {
      assert es[..n + 1][..n] == es[..n];
      root, stack, counters, inBody := ReadEvent(root, stack, counters, inBody, es[n]);
    }
    assert es[..|es|] == es;
    return if intact then Some(root) else None;
  }

  // ---------- Writing a forest back ----------

  datatype Mark = Open(nodeType: NodeType, attrs: seq<(string, string)>) | Chars(text: string) | Shut

  function WriteNode(n: DomNode): seq<Mark>
    decreases n, 1
  {
    if n.nodeType == TextNode && n.text.Some? then [Chars(n.text.value)]
    else [Open(n.nodeType, n.attrs)] + WriteForest(n.children) + [Shut]
  }

  function WriteForest(ns: seq<DomNode>): seq<Mark>
    decreases ns, 0
  {
    if ns == [] then [] else WriteForest(ns[..|ns| - 1]) + WriteNode(ns[|ns| - 1])
  }

  predicate BodyTag(e: XmlEvent) {
    (e.Start? || e.End?) && LocalName(e.tag) == "body"
  }

  /** Whether the events read so far leave the reader inside the body. */
  function Inside(es: seq<XmlEvent>): bool
    decreases |es|
  {
    if es == [] then false
    else if BodyTag(es[|es| - 1]) then es[|es| - 1].Start?
    else Inside(es[..|es| - 1])
  }

  /** What an event inside the body has to leave behind. */
  function MarksOf(e: XmlEvent): seq<Mark> {
    match e
    case Start(tag, attrs) => [Open(NodeTypeOf(LocalName(tag)), attrs)]
    case Empty(tag, attrs) => [Open(NodeTypeOf(LocalName(tag)), attrs), Shut]
    case Text(text) => if Blank(text) then [] else [Chars(text)]
    case End(_) => [Shut]
    case Other => []
  }

  /** The body of an event stream: tags mapped to node types, empty tags expanded, blank text dropped,
      and nothing of what lies outside the body. */
  function BodyMarks(es: seq<XmlEvent>): seq<Mark>
    decreases |es|
  {
    if es == [] then []
    else
      var init, last := es[..|es| - 1], es[|es| - 1];
      BodyMarks(init) + if BodyTag(last) || !Inside(init) then [] else MarksOf(last)
  }

  /** Elements open inside the body after the events. */
  function Depth(es: seq<XmlEvent>): int
    decreases |es|
  {
    if es == [] then 0
    else
      var init, last := es[..|es| - 1], es[|es| - 1];
      Depth(init) + if BodyTag(last) || !Inside(init) then 0 else if last.Start? then 1 else if last.End? then -1 else 0
  }

  /** No end tag inside the body comes without its start tag. */
  ghost predicate Nested(es: seq<XmlEvent>)
    decreases |es|
  {
    es != [] ==> Nested(es[..|es| - 1]) && Depth(es) >= 0
  }

  /** The forest so far, with the open elements still open. */
  function WriteOpen(stack: seq<DomNode>): seq<Mark> {
    if stack == [] then []
    else
      var last := stack[|stack| - 1];
      WriteOpen(stack[..|stack| - 1]) + [Open(last.nodeType, last.attrs)] + WriteForest(last.children)
  }

  function WriteParser(p: Parser): seq<Mark> {
    WriteForest(p.root) + WriteOpen(p.stack)
  }

  lemma WriteForestAppend(ns: seq<DomNode>, n: DomNode)
    ensures WriteForest(ns + [n]) == WriteForest(ns) + WriteNode(n)
  {
    assert (ns + [n])[..|ns| + 1 - 1] == ns;
  }

  lemma WriteOpenPush(stack: seq<DomNode>, n: DomNode)
    ensures WriteOpen(stack + [n]) == WriteOpen(stack) + [Open(n.nodeType, n.attrs)] + WriteForest(n.children)
  {
    assert (stack + [n])[..|stack| + 1 - 1] == stack;
  }

  /** Attaching a node appends its writing. */
  lemma WriteAttach(p: Parser, n: DomNode)
    ensures WriteParser(Attach(p, n)) == WriteParser(p) + WriteNode(n)
  {
    if p.stack == [] {
      WriteForestAppend(p.root, n);
      assert WriteOpen([]) == [];
    } else {
      var init, last := p.stack[..|p.stack| - 1], p.stack[|p.stack| - 1];
      WriteForestAppend(last.children, n);
      WriteOpenPush(init, AddChild(last, n));
      FourParts(WriteForest(p.root), WriteOpen(init), Open(last.nodeType, last.attrs), WriteForest(last.children), WriteNode(n));
    }
  }

  lemma FourParts(a: seq<Mark>, b: seq<Mark>, x: Mark, c: seq<Mark>, d: seq<Mark>)
    ensures a + (b + [x] + (c + d)) == (a + (b + [x] + c)) + d
  {
  }

  /** A parser between two events: one counter more than open nodes, and open nodes are elements. */
  ghost predicate Steady(p: Parser) {
    |p.counters| == |p.stack| + 1 && forall n :: n in p.stack ==> n.nodeType != TextNode
  }

  /** Inside the body a start tag opens a node of its type with all its attributes; an empty tag opens and
      closes one; text becomes a node as it is, unless it is white space throughout; an end tag closes the
      innermost open node. */
  lemma StartWrites(p: Parser, tag: string, attrs: seq<(string, string)>)
    requires Steady(p) && p.inBody && LocalName(tag) != "body"
    ensures WriteParser(Feed(p, Start(tag, attrs))) == WriteParser(p) + [Open(NodeTypeOf(LocalName(tag)), attrs)]
  {
    var n := DomNode(NodeTypeOf(LocalName(tag)), BuildCfi(Bump(p.counters)), None, attrs, []);
    WriteOpenPush(p.stack, n);
    assert WriteForest(n.children) == [];
  }

  lemma EmptyWrites(p: Parser, tag: string, attrs: seq<(string, string)>)
    requires Steady(p) && p.inBody
    ensures WriteParser(Feed(p, Empty(tag, attrs))) == WriteParser(p) + [Open(NodeTypeOf(LocalName(tag)), attrs), Shut]
  {
    var n := DomNode(NodeTypeOf(LocalName(tag)), BuildCfi(Bump(p.counters)), None, attrs, []);
    WriteAttach(p.(counters := Bump(p.counters)), n);
    assert WriteForest(n.children) == [];
  }

  lemma TextWrites(p: Parser, text: string)
    requires Steady(p) && p.inBody
    ensures WriteParser(Feed(p, Text(text))) == WriteParser(p) + if forall c :: c in text ==> IsWhite(c) then [] else [Chars(text)]
  {
    WriteAttach(p.(counters := Bump(p.counters)), DomNode(TextNode, BuildCfi(Bump(p.counters)), Some(text), [], []));
  }

  lemma EndWrites(p: Parser, tag: string)
    requires Steady(p) && p.inBody && LocalName(tag) != "body" && p.stack != []
    ensures WriteParser(Feed(p, End(tag))) == WriteParser(p) + [Shut]
  {
    var init, node := p.stack[..|p.stack| - 1], p.stack[|p.stack| - 1];
    assert node in p.stack;
    var q := p.(counters := p.counters[..|p.counters| - 1], stack := init);
    WriteAttach(q, node);
    assert Feed(p, End(tag)) == Attach(q, node);
    ThreeParts(WriteForest(p.root), WriteOpen(init), Open(node.nodeType, node.attrs), WriteForest(node.children), Shut);
  }

  lemma ThreeParts(a: seq<Mark>, b: seq<Mark>, x: Mark, c: seq<Mark>, y: Mark)
    ensures (a + b) + ([x] + c + [y]) == (a + (b + [x] + c)) + [y]
  {
  }

  /** Inside the body every event writes what it has to. */
  lemma InsideWrites(p: Parser, e: XmlEvent)
    requires Steady(p) && p.inBody && !BodyTag(e) && (e.End? ==> p.stack != [])
    ensures WriteParser(Feed(p, e)) == WriteParser(p) + MarksOf(e)
  {
    match e
    case Start(tag, attrs) => StartWrites(p, tag, attrs);
    case Text(text) => TextWrites(p, text);
    case Empty(tag, attrs) => EmptyWrites(p, tag, attrs);
    case End(tag) => EndWrites(p, tag);
    case Other =>
  }

  lemma SteadyStep(p: Parser, e: XmlEvent)
    requires Steady(p) && (e.End? ==> p.stack != [])
    ensures Steady(Feed(p, e))
    ensures p.inBody && !BodyTag(e) ==> |Feed(p, e).stack| == |p.stack| + if e.Start? then 1 else if e.End? then -1 else 0
    ensures Feed(p, e).inBody == if BodyTag(e) then e.Start? else p.inBody
    ensures !p.inBody || BodyTag(e) ==> Feed(p, e).stack == p.stack && Feed(p, e).root == p.root
  {
  }

  /** After any properly nested prefix, what has been built, written back, is what has been read; the
      counter stack is one longer than the node stack. */
  lemma {:induction false} BuiltIsRead(es: seq<XmlEvent>)
    requires Nested(es)
    ensures var p := FeedAll(es);
            && p.inBody == Inside(es)
            && |p.stack| == Depth(es) && Steady(p)
            && WriteParser(p) == BodyMarks(es)
    decreases |es|
  {
    if es != [] {
      var init, e := es[..|es| - 1], es[|es| - 1];
      BuiltIsRead(init);
      var p := FeedAll(init);
      if Inside(init) && !BodyTag(e) {
        SteadyStep(p, e);
        InsideWrites(p, e);
      } else {
        assert Feed(p, e).stack == p.stack && Feed(p, e).root == p.root && Feed(p, e).counters == p.counters;
      }
    }
  }

  /** Round trip: for every properly nested stream whose elements are all closed, the parser's forest,
      written back, is the body of the stream. */
  lemma RoundTrip(es: seq<XmlEvent>)
    requires Nested(es) && Depth(es) == 0
    ensures WriteForest(FeedAll(es).root) == BodyMarks(es)
    ensures FeedAll(es).stack == [] && |FeedAll(es).counters| == 1
  {
    BuiltIsRead(es);
  }
}
