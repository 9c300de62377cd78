/** The written form of a forest determines it, so the round trip and the anchors together say exactly
    what the parser builds. */
module DomUnique {
  import opened Basics
  import opened Strings
  import opened XhtmlDom
  import opened CfiAnchors

  /** Text nodes are leaves with a text, all others are elements without. */
  ghost predicate Plain(ns: seq<DomNode>) {
    forall j :: 0 <= j < |ns| ==>
      && (if ns[j].nodeType == TextNode then ns[j].text.Some? && ns[j].attrs == [] && ns[j].children == [] else ns[j].text.None?)
      && Plain(ns[j].children)
  }

  ghost predicate Alike(a: seq<DomNode>, b: seq<DomNode>) {
    && |a| == |b|
    && forall j :: 0 <= j < |a| ==>
         && a[j].nodeType == b[j].nodeType && a[j].text == b[j].text && a[j].attrs == b[j].attrs
         && Alike(a[j].children, b[j].children)
  }

  // ---------- Balance ----------

  function Weight(m: Mark): int {
    match m
    case Open(_, _) => 1
    case Shut => -1
    case Chars(_) => 0
  }

  function Balance(ms: seq<Mark>): int {
    if ms == [] then 0 else Weight(ms[0]) + Balance(ms[1..])
  }

  lemma {:induction false} BalanceConcat(a: seq<Mark>, b: seq<Mark>)
    ensures Balance(a + b) == Balance(a) + Balance(b)
    decreases |a|
  {
    if a == [] {
      assert a + b == b;
    } else {
      assert (a + b)[1..] == a[1..] + b;
      BalanceConcat(a[1..], b);
    }
  }

  /** Opened and shut in equal numbers, and never more opened than shut in a tail. */
  ghost predicate Closed(ms: seq<Mark>) {
    Balance(ms) == 0 && forall i :: 0 <= i <= |ms| ==> Balance(ms[i..]) <= 0
  }

  lemma ClosedConcat(a: seq<Mark>, b: seq<Mark>)
    requires Closed(a) && Closed(b)
    ensures Closed(a + b)
  {
    BalanceConcat(a, b);
    forall i | 0 <= i <= |a + b| ensures Balance((a + b)[i..]) <= 0 {
      if i <= |a| {
        assert (a + b)[i..] == a[i..] + b;
        BalanceConcat(a[i..], b);
      } else {
        assert (a + b)[i..] == b[i - |a|..];
      }
    }
  }

  lemma ClosedElement(m: Mark, c: seq<Mark>)
    requires m.Open? && Closed(c)
    ensures Closed([m] + c + [Shut])
  {
    var ms := [m] + c + [Shut];
    assert Balance([Shut]) == -1 by { assert [Shut][1..] == []; }
    forall i | 0 <= i <= |ms| ensures Balance(ms[i..]) <= 0 && (i == 0 ==> Balance(ms[i..]) == 0) {
      if i == 0 {
        assert ms[0..] == ms && ms[1..] == c + [Shut];
        BalanceConcat(c, [Shut]);
      } else if i <= |c| + 1 {
        assert ms[i..] == c[i - 1..] + [Shut];
        BalanceConcat(c[i - 1..], [Shut]);
      } else {
        assert ms[i..] == [];
      }
    }
    assert ms[0..] == ms;
  }

  lemma {:induction false} WritingIsClosed(ns: seq<DomNode>)
    ensures Closed(WriteForest(ns))
    decreases ns
  {
    if ns != [] {
      var init, n := ns[..|ns| - 1], ns[|ns| - 1];
      WritingIsClosed(init);
      if n.nodeType == TextNode && n.text.Some? {
        var ms := [Chars(n.text.value)];
        assert ms[1..] == [] && ms[0..] == ms;
        assert Closed(ms);
      } else {
        WritingIsClosed(n.children);
        ClosedElement(Open(n.nodeType, n.attrs), WriteForest(n.children));
      }
      ClosedConcat(WriteForest(init), WriteNode(n));
    }
  }

  /** The opening mark that belongs to a closed tail is where it is. */
  lemma SameCut(a: seq<Mark>, x: Mark, c: seq<Mark>, b: seq<Mark>, y: Mark, d: seq<Mark>)
    requires a + [x] + c == b + [y] + d && x.Open? && y.Open? && Closed(c) && Closed(d)
    ensures a == b && x == y && c == d
  {
    var s, t := a + [x] + c, b + [y] + d;
    assert c == s[|a| + 1..] && d == t[|b| + 1..];
    if |a| > |b| {
      TailIsHigh(s, a, x, c, d, |a| - |b| - 1);
    } else if |b| > |a| {
      TailIsHigh(t, b, y, d, c, |b| - |a| - 1);
    }
    assert a == s[..|a|] && b == t[..|b|] && x == s[|a|] && y == t[|b|];
  }

  /** A tail that begins with an opening mark, closed behind it, is open by one. */
  lemma TailIsHigh(s: seq<Mark>, a: seq<Mark>, x: Mark, c: seq<Mark>, d: seq<Mark>, i: nat)
    requires s == a + [x] + c && x.Open? && Closed(c)
    requires i <= |a| && d == s[|a| - i..]
    ensures i <= |d| && Balance(d[i..]) == 1
  {
    assert d[i..] == [x] + c;
    assert ([x] + c)[1..] == c;
  }

  // ---------- The written form determines the forest ----------

  lemma {:induction false} WritingDetermines(a: seq<DomNode>, b: seq<DomNode>)
    requires Plain(a) && Plain(b) && WriteForest(a) == WriteForest(b)
    ensures Alike(a, b)
    decreases a
  {
    if a != [] && b != [] {
      var m, n := a[|a| - 1], b[|b| - 1];
      LastNodesAgree(a, b);
      PlainParts(a);
      PlainParts(b);
      if m.nodeType != TextNode { WritingDetermines(m.children, n.children); }
      WritingDetermines(a[..|a| - 1], b[..|b| - 1]);
    }
  }

  lemma PlainParts(a: seq<DomNode>)
    requires a != [] && Plain(a)
    ensures Plain(a[..|a| - 1]) && Plain(a[|a| - 1].children)
  {
  }

  /** Forests that are written alike end in nodes that are written alike. */
  lemma LastNodesAgree(a: seq<DomNode>, b: seq<DomNode>)
    requires a != [] && b != [] && Plain(a) && Plain(b) && WriteForest(a) == WriteForest(b)
    ensures WriteForest(a[..|a| - 1]) == WriteForest(b[..|b| - 1])
    ensures var m, n := a[|a| - 1], b[|b| - 1];
            && m.nodeType == n.nodeType && m.text == n.text && m.attrs == n.attrs
            && (if m.nodeType == TextNode then m.children == n.children == [] else WriteForest(m.children) == WriteForest(n.children))
  {
    var m, n := a[|a| - 1], b[|b| - 1];
    LastMark(a);
    LastMark(b);
    WritingIsClosed(m.children);
    WritingIsClosed(n.children);
    LastMarksAgree(WriteForest(a), WriteForest(a[..|a| - 1]), m, WriteForest(m.children),
                   WriteForest(b[..|b| - 1]), n, WriteForest(n.children));
  }

  /** The form of a writing that ends in a given node. */
  ghost predicate EndsIn(ms: seq<Mark>, before: seq<Mark>, n: DomNode, inner: seq<Mark>) {
    if n.nodeType == TextNode then n.text.Some? && ms == before + [Chars(n.text.value)]
    else ms != [] && ms[|ms| - 1] == Shut && ms[..|ms| - 1] == before + [Open(n.nodeType, n.attrs)] + inner
  }

  lemma LastMarksAgree(ms: seq<Mark>, before: seq<Mark>, m: DomNode, inner: seq<Mark>,
                       after: seq<Mark>, n: DomNode, other: seq<Mark>)
    requires EndsIn(ms, before, m, inner) && EndsIn(ms, after, n, other) && Closed(inner) && Closed(other)
    ensures before == after && m.nodeType == n.nodeType
    ensures if m.nodeType == TextNode then m.text == n.text else m.attrs == n.attrs && inner == other
  {
    assert m.nodeType == TextNode ==> ms[|ms| - 1].Chars?;
    assert n.nodeType == TextNode ==> ms[|ms| - 1].Chars?;
    if m.nodeType == TextNode {
      assert before == ms[..|ms| - 1] && after == ms[..|ms| - 1];
    } else {
      SameCut(before, Open(m.nodeType, m.attrs), inner, after, Open(n.nodeType, n.attrs), other);
    }
  }

  lemma LastMark(a: seq<DomNode>)
    requires a != [] && Plain(a)
    ensures EndsIn(WriteForest(a), WriteForest(a[..|a| - 1]), a[|a| - 1], WriteForest(a[|a| - 1].children))
  {
    var init, n := a[..|a| - 1], a[|a| - 1];
    if n.nodeType != TextNode {
      var front := WriteForest(init) + [Open(n.nodeType, n.attrs)] + WriteForest(n.children);
      assert WriteForest(a) == front + [Shut];
    }
  }

  lemma {:induction false} AnchorsDetermine(a: seq<DomNode>, b: seq<DomNode>, steps: seq<nat>)
    requires Alike(a, b) && Anchored(a, steps) && Anchored(b, steps)
    ensures a == b
    decreases a
  {
    forall j | 0 <= j < |a| ensures a[j] == b[j] {
      AnchorsDetermine(a[j].children, b[j].children, steps + [2 * (j + 1)]);
    }
  }

  // ---------- What the parser builds ----------

  ghost predicate PlainParser(p: Parser) {
    Plain(p.root) && forall j :: 0 <= j < |p.stack| ==>
      p.stack[j].nodeType != TextNode && p.stack[j].text.None? && Plain(p.stack[j].children)
  }

  lemma AttachStaysPlain(p: Parser, n: DomNode)
    requires PlainParser(p) && Plain([n])
    ensures PlainParser(Attach(p, n))
  {
    assert n == [n][0];
    if p.stack == [] {
      assert Plain(p.root + [n]);
    } else {
      var last := p.stack[|p.stack| - 1];
      assert Plain(last.children + [n]);
    }
  }

  lemma FeedStaysPlain(p: Parser, e: XmlEvent)
    requires PlainParser(p)
    ensures PlainParser(Feed(p, e))
  {
    if p.inBody && !BodyTag(e) {
      var q := p.(counters := Bump(p.counters));
      match e
      case Start(_, _) =>
      case Empty(tag, attrs) =>
        AttachStaysPlain(q, DomNode(NodeTypeOf(LocalName(tag)), BuildCfi(q.counters), None, attrs, []));
      case Text(text) =>
        if !Blank(text) { AttachStaysPlain(q, DomNode(TextNode, BuildCfi(q.counters), Some(text), [], [])); }
      case End(_) =>
        if p.stack != [] {
          var n := p.stack[|p.stack| - 1];
          AttachStaysPlain(p.(counters := if p.counters == [] then [] else p.counters[..|p.counters| - 1], stack := p.stack[..|p.stack| - 1]), n);
        }
      case Other =>
    }
  }

  lemma {:induction false} AlwaysPlain(es: seq<XmlEvent>)
    ensures PlainParser(FeedAll(es))
    decreases |es|
  {
    if es != [] {
      AlwaysPlain(es[..|es| - 1]);
      FeedStaysPlain(FeedAll(es[..|es| - 1]), es[|es| - 1]);
    }
  }

  /** For a properly nested stream with all elements closed, the parser's forest is the only one that
      writes back as the body of the stream and carries the anchors of its places. */
  lemma OnlyForest(es: seq<XmlEvent>, forest: seq<DomNode>)
    requires Nested(es) && Depth(es) == 0
    requires Plain(forest) && TopAnchored(forest)
    ensures WriteForest(forest) == BodyMarks(es) <==> forest == FeedAll(es).root
  {
    RoundTrip(es);
    AlwaysPlain(es);
    AnchorsOfForest(es);
    var root := FeedAll(es).root;
    if WriteForest(forest) == BodyMarks(es) {
      WritingDetermines(forest, root);
      forall j | 0 <= j < |root| ensures forest[j] == root[j] {
        AnchorsDetermine(forest[j].children, root[j].children, []);
      }
    }
  }
}
