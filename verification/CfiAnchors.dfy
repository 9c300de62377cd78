/** The anchors the parser gives its nodes: where they come from, and which of them are distinct. */
module CfiAnchors {
  import opened Basics
  import opened Strings
  import opened XhtmlDom

  // ---------- Rendered paths ----------

  predicate Digits(s: string) {
    forall i :: 0 <= i < |s| ==> s[i] != '/'
  }

  lemma {:induction false} DecimalIsDigits(n: nat)
    ensures Digits(Decimal(n)) && Decimal(n) != ""
  {
    if n >= 10 { DecimalIsDigits(n / 10); }
  }

  lemma {:induction false} DecimalInjective(n: nat, m: nat)
    requires Decimal(n) == Decimal(m)
    ensures n == m
  {
    var a, b := Decimal(n), Decimal(m);
    assert a[|a| - 1] == b[|b| - 1];
    if n >= 10 { DecimalIsDigits(n / 10); }
    if m >= 10 { DecimalIsDigits(m / 10); }
    if n >= 10 && m >= 10 {
      assert a[..|a| - 1] == Decimal(n / 10) && b[..|b| - 1] == Decimal(m / 10);
      DecimalInjective(n / 10, m / 10);
    }
  }

  lemma LastSlash(a: string, d: string, b: string, e: string)
    requires a + "/" + d == b + "/" + e && Digits(d) && Digits(e)
    ensures a == b && d == e
  {
    var s, t := a + "/" + d, b + "/" + e;
    assert s[|a|] == '/' && t[|b|] == '/';
    assert forall i :: |a| < i < |s| ==> s[i] == d[i - |a| - 1];
    assert forall i :: |b| < i < |t| ==> t[i] == e[i - |b| - 1];
    assert |a| == |b|;
    assert a == s[..|a|] && b == t[..|b|];
    assert d == s[|a| + 1..] && e == t[|b| + 1..];
  }

  /** Different paths are written differently. */
  lemma {:induction false} RenderInjective(p: seq<nat>, q: seq<nat>)
    requires Render(p) == Render(q)
    ensures p == q
    decreases |p|
  {
    if p != [] && q != [] {
      var m, n := p[|p| - 1], q[|q| - 1];
      DecimalIsDigits(m);
      DecimalIsDigits(n);
      LastSlash(Render(p[..|p| - 1]), Decimal(m), Render(q[..|q| - 1]), Decimal(n));
      DecimalInjective(m, n);
      RenderInjective(p[..|p| - 1], q[..|q| - 1]);
      assert p == p[..|p| - 1] + [m] && q == q[..|q| - 1] + [n];
    }
  }

  // ---------- Where anchors come from ----------

  /** The siblings below an element at `steps` get the even steps 2, 4, 6, ... in document order, and
      so on below them. */
  ghost predicate Anchored(nodes: seq<DomNode>, steps: seq<nat>) {
    forall j :: 0 <= j < |nodes| ==>
      nodes[j].anchor == Render(steps + [2 * (j + 1)]) && Anchored(nodes[j].children, steps + [2 * (j + 1)])
  }

  /** Every top-level node gets "/2", and the numbering starts anew below each of them. */
  ghost predicate TopAnchored(nodes: seq<DomNode>) {
    forall j :: 0 <= j < |nodes| ==> nodes[j].anchor == "/2" && Anchored(nodes[j].children, [])
  }

  /** The children of the `k`-th open element, level 0 being the top. */
  function Level(p: Parser, k: nat): seq<DomNode>
    requires k <= |p.stack|
  {
    if k == 0 then p.root else p.stack[k - 1].children
  }

  /** Each counter has counted the nodes of its level: the finished ones, and the one that is open
      there; `pending` more are counted at the innermost level. */
  ghost predicate Counted(p: Parser, pending: nat) {
    && |p.counters| == |p.stack| + 1
    && forall k :: 0 <= k <= |p.stack| ==> p.counters[k] == |Level(p, k)| + if k < |p.stack| then 1 else pending
  }

  /** Every node built so far carries the anchor of its place. */
  ghost predicate Placed(p: Parser) {
    && TopAnchored(p.root)
    && forall k :: 1 <= k <= |p.stack| < |p.counters| ==>
         p.stack[k - 1].anchor == BuildCfi(p.counters[..k]) && Anchored(p.stack[k - 1].children, Doubled(p.counters[1..k]))
  }

  lemma BuildCfiOf(counters: seq<nat>)
    requires |counters| >= 2
    ensures BuildCfi(counters) == Render(Doubled(counters[1..|counters| - 1]) + [2 * counters[|counters| - 1]])
    ensures Doubled(counters[1..]) == Doubled(counters[1..|counters| - 1]) + [2 * counters[|counters| - 1]]
  {
    assert Doubled(counters[1..]) == Doubled(counters[1..|counters| - 1]) + [2 * counters[|counters| - 1]];
  }

  lemma BumpCounts(p: Parser)
    requires Counted(p, 0) && Placed(p)
    ensures Counted(p.(counters := Bump(p.counters)), 1) && Placed(p.(counters := Bump(p.counters)))
  {
    BumpPlaced(p);
    var q := p.(counters := Bump(p.counters));
    forall k | 0 <= k <= |p.stack| ensures Level(q, k) == Level(p, k) {}
  }

  lemma BumpPlaced(p: Parser)
    requires |p.counters| == |p.stack| + 1 && Placed(p)
    ensures Placed(p.(counters := Bump(p.counters)))
  {
    var q := p.(counters := Bump(p.counters));
    forall k | 1 <= k <= |p.stack|
      ensures q.stack[k - 1].anchor == BuildCfi(q.counters[..k]) && Anchored(q.stack[k - 1].children, Doubled(q.counters[1..k]))
    {
      assert q.counters[..k] == p.counters[..k];
      assert q.counters[1..k] == p.counters[1..k];
      assert p.stack[k - 1].anchor == BuildCfi(p.counters[..k]);
    }
  }

  lemma AnchoredAppend(nodes: seq<DomNode>, n: DomNode, steps: seq<nat>)
    requires Anchored(nodes, steps)
    requires n.anchor == Render(steps + [2 * (|nodes| + 1)]) && Anchored(n.children, steps + [2 * (|nodes| + 1)])
    ensures Anchored(nodes + [n], steps)
  {
  }

  lemma AttachAtTop(p: Parser, n: DomNode)
    requires p.stack == [] && Counted(p, 1) && Placed(p)
    requires n.anchor == BuildCfi(p.counters) && Anchored(n.children, Doubled(p.counters[1..]))
    ensures Counted(Attach(p, n), 0) && Placed(Attach(p, n))
  {
    assert Doubled(p.counters[1..]) == [];
    assert p.counters[0] == |Level(p, 0)| + 1;
  }

  lemma AttachBelow(p: Parser, n: DomNode)
    requires p.stack != [] && Counted(p, 1) && Placed(p)
    requires n.anchor == BuildCfi(p.counters) && Anchored(n.children, Doubled(p.counters[1..]))
    ensures Counted(Attach(p, n), 0) && Placed(Attach(p, n))
  {
    var q, d := Attach(p, n), |p.stack|;
    var last := p.stack[d - 1];
    assert p.counters[d] == |Level(p, d)| + 1;
    BuildCfiOf(p.counters);
    AnchoredAppend(last.children, n, Doubled(p.counters[1..d]));
    forall k | 0 <= k <= d ensures q.counters[k] == |Level(q, k)| + if k < d then 1 else 0 {
      assert p.counters[k] == |Level(p, k)| + if k < d then 1 else 1;
    }
    forall k | 1 <= k <= d
      ensures q.stack[k - 1].anchor == BuildCfi(q.counters[..k]) && Anchored(q.stack[k - 1].children, Doubled(q.counters[1..k]))
    {
      assert p.stack[k - 1].anchor == BuildCfi(p.counters[..k]);
    }
  }

  /** Attaching the node that was counted last. */
  lemma AttachPlaced(p: Parser, n: DomNode)
    requires Counted(p, 1) && Placed(p)
    requires n.anchor == BuildCfi(p.counters) && Anchored(n.children, Doubled(p.counters[1..]))
    ensures Counted(Attach(p, n), 0) && Placed(Attach(p, n))
  {
    if p.stack == [] { AttachAtTop(p, n); } else { AttachBelow(p, n); }
  }

  lemma StartPlaced(p: Parser, n: DomNode)
    requires Counted(p, 1) && Placed(p) && n.anchor == BuildCfi(p.counters) && n.children == []
    ensures var q := p.(stack := p.stack + [n], counters := p.counters + [0]);
            Counted(q, 0) && Placed(q)
  {
    var q := p.(stack := p.stack + [n], counters := p.counters + [0]);
    var d := |p.stack|;
    forall k | 0 <= k <= d ensures Level(q, k) == Level(p, k) && q.counters[k] == p.counters[k] {}
    forall k | 1 <= k <= d + 1
      ensures q.stack[k - 1].anchor == BuildCfi(q.counters[..k]) && Anchored(q.stack[k - 1].children, Doubled(q.counters[1..k]))
    {
      assert q.counters[..k] == p.counters[..k] && q.counters[1..k] == p.counters[1..k];
      if k <= d { assert p.stack[k - 1].anchor == BuildCfi(p.counters[..k]); } else { assert p.counters[..k] == p.counters; }
    }
  }

  lemma ClosePlaced(p: Parser)
    requires Counted(p, 0) && Placed(p) && p.stack != []
    ensures Counted(Close(p), 0) && Placed(Close(p))
  {
    var d := |p.stack| - 1;
    var n := p.stack[d];
    var q := p.(counters := p.counters[..d + 1], stack := p.stack[..d]);
    forall k | 0 <= k <= d ensures Level(q, k) == Level(p, k) && q.counters[k] == p.counters[k] {}
    forall k | 1 <= k <= d
      ensures q.stack[k - 1].anchor == BuildCfi(q.counters[..k]) && Anchored(q.stack[k - 1].children, Doubled(q.counters[1..k]))
    {
      assert q.counters[..k] == p.counters[..k] && q.counters[1..k] == p.counters[1..k];
      assert p.stack[k - 1].anchor == BuildCfi(p.counters[..k]);
    }
    assert q.counters[1..] == p.counters[1..d + 1];
    AttachPlaced(q, n);
  }

  lemma StartFed(p: Parser, tag: string, attrs: seq<(string, string)>)
    requires Counted(p, 0) && Placed(p) && p.inBody && LocalName(tag) != "body"
    ensures Counted(Feed(p, Start(tag, attrs)), 0) && Placed(Feed(p, Start(tag, attrs)))
  {
    BumpCounts(p);
    var q := p.(counters := Bump(p.counters));
    StartPlaced(q, DomNode(NodeTypeOf(LocalName(tag)), BuildCfi(q.counters), None, attrs, []));
  }

  /** A leaf: an empty tag or a text. */
  lemma LeafFed(p: Parser, n: DomNode)
    requires Counted(p, 0) && Placed(p) && n.children == [] && n.anchor == BuildCfi(Bump(p.counters))
    ensures var q := Attach(p.(counters := Bump(p.counters)), n); Counted(q, 0) && Placed(q)
  {
    BumpCounts(p);
    AttachPlaced(p.(counters := Bump(p.counters)), n);
  }

  lemma OutsideFed(p: Parser, e: XmlEvent)
    requires Counted(p, 0) && Placed(p) && (!p.inBody || BodyTag(e))
    ensures Counted(Feed(p, e), 0) && Placed(Feed(p, e))
  {
    var q := Feed(p, e);
    assert q.root == p.root && q.stack == p.stack && q.counters == p.counters;
    forall k | 0 <= k <= |p.stack| ensures Level(q, k) == Level(p, k) {}
  }

  lemma FeedPlaced(p: Parser, e: XmlEvent)
    requires Counted(p, 0) && Placed(p) && (e.End? ==> p.stack != [] || !p.inBody || BodyTag(e))
    ensures Counted(Feed(p, e), 0) && Placed(Feed(p, e))
  {
    if !p.inBody || BodyTag(e) {
      OutsideFed(p, e);
    } else {
      match e
      case Start(tag, attrs) => StartFed(p, tag, attrs);
      case Empty(tag, attrs) => LeafFed(p, DomNode(NodeTypeOf(LocalName(tag)), BuildCfi(Bump(p.counters)), None, attrs, []));
      case Text(text) => if !Blank(text) { LeafFed(p, DomNode(TextNode, BuildCfi(Bump(p.counters)), Some(text), [], [])); }
      case End(_) => ClosePlaced(p);
      case Other =>
    }
  }

  lemma {:induction false} AllPlaced(es: seq<XmlEvent>)
    requires Nested(es)
    ensures Counted(FeedAll(es), 0) && Placed(FeedAll(es))
    decreases |es|
  {
    if es != [] {
      AllPlaced(es[..|es| - 1]);
      BuiltIsRead(es[..|es| - 1]);
      BuiltIsRead(es);
      FeedPlaced(FeedAll(es[..|es| - 1]), es[|es| - 1]);
    }
  }

  /** The anchors of every properly nested stream: siblings below the top level are numbered 2, 4, 6,
      ... behind their parent's path, in document order; but every top-level node has the same anchor
      "/2", because the root counter is left out of the path. */
  lemma AnchorsOfForest(es: seq<XmlEvent>)
    requires Nested(es)
    ensures TopAnchored(FeedAll(es).root)
  {
    AllPlaced(es);
  }

  // ---------- Which anchors are distinct ----------

  /** The node at a path of child positions below `n`. */
  function Below(n: DomNode, path: seq<nat>): Option<DomNode>
    decreases |path|
  {
    if path == [] then Some(n)
    else if path[0] < |n.children| then Below(n.children[path[0]], path[1..])
    else None
  }

  function StepsOf(path: seq<nat>): (r: seq<nat>)
    ensures |r| == |path| && forall i :: 0 <= i < |r| ==> r[i] == 2 * (path[i] + 1)
  {
    seq(|path|, i requires 0 <= i < |path| => 2 * (path[i] + 1))
  }

  lemma {:induction false} AnchorBelow(n: DomNode, steps: seq<nat>, path: seq<nat>)
    requires Anchored(n.children, steps) && Below(n, path).Some? && path != []
    ensures Below(n, path).value.anchor == Render(steps + StepsOf(path))
    decreases |path|
  {
    var child := n.children[path[0]];
    var next := steps + [2 * (path[0] + 1)];
    assert child.anchor == Render(next) && Anchored(child.children, next);
    StepsFront(steps, path);
    if |path| > 1 { AnchorBelow(child, next, path[1..]); }
  }

  lemma StepsFront(steps: seq<nat>, path: seq<nat>)
    requires path != []
    ensures steps + StepsOf(path) == (steps + [2 * (path[0] + 1)]) + StepsOf(path[1..])
    ensures |path| == 1 ==> steps + StepsOf(path) == steps + [2 * (path[0] + 1)] && path[1..] == []
  {
  }

  lemma StepsInjective(p: seq<nat>, q: seq<nat>)
    requires StepsOf(p) == StepsOf(q)
    ensures p == q
  {
    assert forall i :: 0 <= i < |p| ==> StepsOf(p)[i] == StepsOf(q)[i];
  }

  /** Strict descendants of one top-level node have pairwise different anchors. */
  lemma DescendantsDiffer(es: seq<XmlEvent>, t: nat, p: seq<nat>, q: seq<nat>)
    requires Nested(es) && t < |FeedAll(es).root| && p != [] && q != []
    requires Below(FeedAll(es).root[t], p).Some? && Below(FeedAll(es).root[t], q).Some?
    ensures Below(FeedAll(es).root[t], p).value.anchor == Below(FeedAll(es).root[t], q).value.anchor <==> p == q
  {
    DescendantAnchor(es, t, p);
    DescendantAnchor(es, t, q);
    if Render(StepsOf(p)) == Render(StepsOf(q)) {
      RenderInjective(StepsOf(p), StepsOf(q));
      StepsInjective(p, q);
    }
  }

  /** The anchor of a strict descendant spells out its place; it extends its parent's by one even step. */
  lemma DescendantAnchor(es: seq<XmlEvent>, t: nat, p: seq<nat>)
    requires Nested(es) && t < |FeedAll(es).root| && p != []
    requires Below(FeedAll(es).root[t], p).Some?
    ensures Below(FeedAll(es).root[t], p).value.anchor == Render(StepsOf(p))
    ensures Render(StepsOf(p)) == Render(StepsOf(p[..|p| - 1])) + "/" + Decimal(2 * (p[|p| - 1] + 1))
  {
    AnchorsOfForest(es);
    AnchorSpellsPlace(FeedAll(es).root[t], p);
  }

  lemma AnchorSpellsPlace(n: DomNode, p: seq<nat>)
    requires Anchored(n.children, []) && p != [] && Below(n, p).Some?
    ensures Below(n, p).value.anchor == Render(StepsOf(p))
    ensures Render(StepsOf(p)) == Render(StepsOf(p[..|p| - 1])) + "/" + Decimal(2 * (p[|p| - 1] + 1))
  {
    AnchorBelow(n, [], p);
    assert [] + StepsOf(p) == StepsOf(p);
    RenderStepsOf(p);
  }

  lemma RenderStepsOf(p: seq<nat>)
    requires p != []
    ensures Render(StepsOf(p)) == Render(StepsOf(p[..|p| - 1])) + "/" + Decimal(2 * (p[|p| - 1] + 1))
  {
    assert StepsOf(p)[..|p| - 1] == StepsOf(p[..|p| - 1]);
  }

  /** The place that an anchor names: the path below the top-level node, except that the top-level node
      itself is given the place of its first child. */
  function Place(p: seq<nat>): seq<nat> {
    if p == [] then [0] else p
  }

  /** Every anchor spells out the place it names. */
  lemma AnchorNamesPlace(es: seq<XmlEvent>, t: nat, p: seq<nat>)
    requires Nested(es) && t < |FeedAll(es).root| && Below(FeedAll(es).root[t], p).Some?
    ensures Below(FeedAll(es).root[t], p).value.anchor == Render(StepsOf(Place(p)))
  {
    if p == [] {
      AnchorsOfForest(es);
      TopAnchor();
    } else {
      DescendantAnchor(es, t, p);
    }
  }

  lemma TopAnchor()
    ensures Render(StepsOf([0])) == "/2"
  {
    RenderStepsOf([0]);
    assert StepsOf([0])[..0] == [] && StepsOf([]) == [];
    assert Decimal(2) == "2";
  }

  /** Exactly which nodes of a forest share an anchor: those at equal places below whatever top-level
      nodes, where a top-level node counts as its own first child. */
  lemma SameAnchorIffSamePlace(es: seq<XmlEvent>, t: nat, p: seq<nat>, u: nat, q: seq<nat>)
    requires Nested(es) && t < |FeedAll(es).root| && u < |FeedAll(es).root|
    requires Below(FeedAll(es).root[t], p).Some? && Below(FeedAll(es).root[u], q).Some?
    ensures Below(FeedAll(es).root[t], p).value.anchor == Below(FeedAll(es).root[u], q).value.anchor <==> Place(p) == Place(q)
  {
    AnchorNamesPlace(es, t, p);
    AnchorNamesPlace(es, u, q);
    if Render(StepsOf(Place(p))) == Render(StepsOf(Place(q))) {
      RenderInjective(StepsOf(Place(p)), StepsOf(Place(q)));
      StepsInjective(Place(p), Place(q));
    }
  }

  predicate HasAnchor(root: seq<DomNode>, t: nat, p: seq<nat>, anchor: string) {
    t < |root| && Below(root[t], p).Some? && Below(root[t], p).value.anchor == anchor
  }

  /** So an anchor names one node of the whole forest exactly as `NamesOne` says. */
  lemma NamesOneNodeIff(es: seq<XmlEvent>, t: nat, p: seq<nat>)
    requires Nested(es) && t < |FeedAll(es).root| && Below(FeedAll(es).root[t], p).Some?
    ensures (forall u: nat, q: seq<nat> :: HasAnchor(FeedAll(es).root, u, q, Below(FeedAll(es).root[t], p).value.anchor) ==> u == t && q == p)
            <==> NamesOne(FeedAll(es).root, t, p)
  {
    var root := FeedAll(es).root;
    var anchor := Below(root[t], p).value.anchor;
    forall u: nat, q: seq<nat> | u < |root| && Below(root[u], q).Some?
      ensures Below(root[u], q).value.anchor == anchor <==> Place(q) == Place(p)
    {
      SameAnchorIffSamePlace(es, t, p, u, q);
    }
    if NamesOne(root, t, p) {
      forall u: nat, q: seq<nat> | HasAnchor(root, u, q, anchor)
        ensures u == t && q == p
      {
        OnlyThere(root, t, p, u, q);
      }
    } else {
      var u, q := SomewhereElse(root, t, p);
      assert HasAnchor(root, u, q, anchor);
    }
  }

  /** A top-level node is named only if it is the only one and has no children, its first child never, and
      any other node if no other top-level node has a node at the same place. */
  ghost predicate NamesOne(root: seq<DomNode>, t: nat, p: seq<nat>)
    requires t < |root|
  {
    if Place(p) == [0] then |root| == 1 && p == [] && root[t].children == []
    else forall u: nat :: u < |root| && u != t ==> Below(root[u], p).None?
  }

  lemma OnlyThere(root: seq<DomNode>, t: nat, p: seq<nat>, u: nat, q: seq<nat>)
    requires t < |root| && u < |root| && NamesOne(root, t, p) && Below(root[u], q).Some? && Place(q) == Place(p)
    ensures u == t && q == p
  {
  }

  lemma SomewhereElse(root: seq<DomNode>, t: nat, p: seq<nat>) returns (u: nat, q: seq<nat>)
    requires t < |root| && !NamesOne(root, t, p) && Below(root[t], p).Some?
    ensures u < |root| && Below(root[u], q).Some? && Place(q) == Place(p) && !(u == t && q == p)
  {
    if Place(p) == [0] {
      if |root| > 1 {
        u, q := if t == 0 then 1 else 0, [];
      } else if p == [] {
        u, q := t, [0];
        assert q[1..] == [];
      } else {
        u, q := t, [];
      }
    } else {
      u :| u < |root| && u != t && Below(root[u], p).Some?;
      q := p;
    }
  }

  /** In particular a top-level node with children shares its anchor with the first of them. */
  lemma FirstChildClash(es: seq<XmlEvent>, t: nat)
    requires Nested(es) && t < |FeedAll(es).root| && FeedAll(es).root[t].children != []
    ensures FeedAll(es).root[t].anchor == FeedAll(es).root[t].children[0].anchor == "/2"
  {
    var n := FeedAll(es).root[t];
    assert [0][1..] == [];
    assert Below(n, [0]) == Some(n.children[0]);
    assert Below(n, []) == Some(n);
    AnchorNamesPlace(es, t, []);
    AnchorNamesPlace(es, t, [0]);
    TopAnchor();
  }

  lemma BodyTagName()
    ensures LocalName("body") == "body"
  {
    LocalNameMore("", 'b');
    assert "" + ['b'] == "b";
    LocalNameMore("b", 'o');
    assert "b" + ['o'] == "bo";
    LocalNameMore("bo", 'd');
    assert "bo" + ['d'] == "bod";
    LocalNameMore("bod", 'y');
    assert "bod" + ['y'] == "body";
  }

  lemma LocalNameMore(tag: string, c: char)
    requires c != ':'
    ensures LocalName(tag + [c]) == LocalName(tag) + [c]
  {
    assert (tag + [c])[..|tag + [c]| - 1] == tag;
  }

  lemma TagsOfExample()
    ensures LocalName("body") == "body" && LocalName("p") == "p" && !Blank("x")
  {
    BodyTagName();
    LocalNameMore("", 'p');
    assert "" + ['p'] == "p";
    assert !IsWhite("x"[0]);
  }

  lemma OneEventMore(es: seq<XmlEvent>, e: XmlEvent)
    ensures FeedAll(es + [e]) == Feed(FeedAll(es), e)
    ensures Inside(es + [e]) == if BodyTag(e) then e.Start? else Inside(es)
    ensures Depth(es + [e]) == Depth(es) + if BodyTag(e) || !Inside(es) then 0 else if e.Start? then 1 else if e.End? then -1 else 0
    ensures Nested(es + [e]) <==> Nested(es) && Depth(es + [e]) >= 0
  {
    assert (es + [e])[..|es + [e]| - 1] == es;
  }

  lemma FiveEvents(a: XmlEvent, b: XmlEvent, c: XmlEvent, d: XmlEvent, e: XmlEvent)
    ensures [a, b, c] == [a, b] + [c] && [a, b, c, d] == [a, b, c] + [d] && [a, b, c, d, e] == [a, b, c, d] + [e]
    ensures [a] == [] + [a] && [a, b] == [a] + [b]
  {
  }

  /** A body with one element and a leaf in it. */
  lemma OneElementFed(a: XmlEvent, b: XmlEvent, c: XmlEvent, d: XmlEvent, e: XmlEvent)
    ensures FeedAll([a, b, c, d, e]) == Feed(Feed(Feed(Feed(Feed(BEGIN, a), b), c), d), e)
  {
    FiveEvents(a, b, c, d, e);
    OneEventMore([], a);
    OneEventMore([a], b);
    OneEventMore([a, b], c);
    OneEventMore([a, b, c], d);
    OneEventMore([a, b, c, d], e);
  }

  lemma OneElementNested(a: XmlEvent, b: XmlEvent, c: XmlEvent, d: XmlEvent, e: XmlEvent)
    requires a.Start? && BodyTag(a) && b.Start? && !BodyTag(b) && c.Text? && d.End? && !BodyTag(d) && e.End? && BodyTag(e)
    ensures Nested([a, b, c, d, e])
  {
    FiveEvents(a, b, c, d, e);
    OneEventMore([], a);
    assert Nested([a]) && Inside([a]) && Depth([a]) == 0;
    OneEventMore([a], b);
    assert Nested([a, b]) && Inside([a, b]) && Depth([a, b]) == 1;
    OneEventMore([a, b], c);
    assert Nested([a, b, c]) && Inside([a, b, c]) && Depth([a, b, c]) == 1;
    OneEventMore([a, b, c], d);
    assert Nested([a, b, c, d]) && Depth([a, b, c, d]) == 0;
    OneEventMore([a, b, c, d], e);
  }

  lemma OneTextInside(p: Parser)
    requires p == Parser([], [], [0], true)
    ensures var root := Feed(Feed(Feed(Feed(p, Start("p", [])), Text("x")), End("p")), End("body")).root;
            |root| == 1 && |root[0].children| == 1
  {
    TagsOfExample();
    assert |Feed(Feed(p, Start("p", [])), Text("x")).stack| == 1;
  }

  /** A body of one paragraph with a text in it: both have the anchor "/2". */
  lemma ParagraphAndItsTextClash()
    ensures var es := [Start("body", []), Start("p", []), Text("x"), End("p"), End("body")];
            && Nested(es) && |FeedAll(es).root| == 1 && |FeedAll(es).root[0].children| == 1
            && FeedAll(es).root[0].anchor == FeedAll(es).root[0].children[0].anchor == "/2"
  {
    TagsOfExample();
    OneElementFed(Start("body", []), Start("p", []), Text("x"), End("p"), End("body"));
    OneElementNested(Start("body", []), Start("p", []), Text("x"), End("p"), End("body"));
    OneTextInside(BEGIN.(inBody := true));
    FirstChildClash([Start("body", []), Start("p", []), Text("x"), End("p"), End("body")], 0);
  }

  /** The exception: two top-level nodes always share their anchor, and so do equal places below them. */
  lemma TopLevelClash(es: seq<XmlEvent>, t: nat, u: nat, p: seq<nat>)
    requires Nested(es) && t < |FeedAll(es).root| && u < |FeedAll(es).root|
    requires Below(FeedAll(es).root[t], p).Some? && Below(FeedAll(es).root[u], p).Some?
    ensures Below(FeedAll(es).root[t], p).value.anchor == Below(FeedAll(es).root[u], p).value.anchor
  {
    AnchorsOfForest(es);
    if p != [] {
      AnchorBelow(FeedAll(es).root[t], [], p);
      AnchorBelow(FeedAll(es).root[u], [], p);
    }
  }
}
