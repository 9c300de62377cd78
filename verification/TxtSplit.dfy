/** Splitting plain text into paragraphs and chapters. Positions count characters; the newlines and
    headings that decide the cuts are characters of their own in UTF-8, so no cut falls inside one. */
module TxtSplit {
  import opened Basics
  import opened Strings

  predicate IsNewline(c: char) {
    c == '\n' || c == '\r'
  }

  // ---------- Paragraphs ----------

  /** Position `i` is the second of two adjacent newlines. */
  predicate BreakAt(s: string, i: nat) {
    1 <= i < |s| && IsNewline(s[i - 1]) && IsNewline(s[i])
  }

  /** The first break at or behind `i`, or the length if there is none. */
  function FirstBreak(s: string, i: nat): (r: nat)
    requires i <= |s|
    ensures i <= r <= |s| && (r < |s| ==> BreakAt(s, r))
    decreases |s| - i
  {
    if i == |s| || BreakAt(s, i) then i else FirstBreak(s, i + 1)
  }

  ghost predicate NoBreaks(s: string, from: nat, to: nat) {
    forall j: nat :: from <= j < to ==> !BreakAt(s, j)
  }

  lemma {:induction false} NoEarlierBreak(s: string, i: nat)
    requires i <= |s|
    ensures NoBreaks(s, i, FirstBreak(s, i))
    decreases |s| - i
  {
    if i < |s| && !BreakAt(s, i) { NoEarlierBreak(s, i + 1); }
  }

  lemma FirstBreakIs(s: string, start: nat, i: nat)
    requires start <= i <= |s| && NoBreaks(s, start, i) && (i < |s| ==> BreakAt(s, i))
    ensures FirstBreak(s, start) == i
  {
    NoEarlierBreak(s, start);
  }

  /** The end of the run of newlines at `i`. */
  function RunEnd(s: string, i: nat): (r: nat)
    requires i <= |s|
    ensures i <= r <= |s| && (r < |s| ==> !IsNewline(s[r]))
    decreases |s| - i
  {
    if i < |s| && IsNewline(s[i]) then RunEnd(s, i + 1) else i
  }

  lemma {:induction false} OnlyNewlines(s: string, i: nat)
    requires i <= |s|
    ensures forall j :: i <= j < RunEnd(s, i) ==> IsNewline(s[j])
    decreases |s| - i
  {
    if i < |s| && IsNewline(s[i]) { OnlyNewlines(s, i + 1); }
  }

  function IfInk(s: string): seq<string> {
    if Blank(s) then [] else [s]
  }

  /** What is behind `start`, split at its runs of two or more newlines, blank parts removed. A part
      keeps the first newline of the run that ends it. */
  function PartsFrom(s: string, start: nat): seq<string>
    requires start <= |s|
    decreases |s| - start
  {
    var b := FirstBreak(s, start);
    if b == |s| then IfInk(s[start..]) else IfInk(s[start..b]) + PartsFrom(s, RunEnd(s, b))
  }

  function Paragraphs(s: string): seq<string> {
    PartsFrom(s, 0)
  }

  /** Cutting at the first break behind `start`: the part in front of it, then the rest. */
  lemma BreakFound(s: string, start: nat, i: nat, done: seq<string>)
    requires start <= i < |s| && NoBreaks(s, start, i) && BreakAt(s, i)
    ensures AddIfInk(done, s[start..i]) + PartsFrom(s, RunEnd(s, i)) == done + PartsFrom(s, start)
    ensures var r := RunEnd(s, i); i < r <= |s| && !BreakAt(s, r)
  {
    FirstBreakIs(s, start, i);
    var head, rest := IfInk(s[start..i]), PartsFrom(s, RunEnd(s, i));
    assert done + head + rest == done + (head + rest);
    assert done + [] == done;
  }

  /** There is no break behind `start`: what is left is one part. */
  lemma NoBreakFound(s: string, start: nat, done: seq<string>)
    requires start <= |s| && NoBreaks(s, start, |s|)
    ensures (if start < |s| then AddIfInk(done, s[start..]) else done) == done + PartsFrom(s, start)
  {
    FirstBreakIs(s, start, |s|);
    assert done + [] == done;
  }

  function AddIfInk(done: seq<string>, s: string): seq<string> {
    if Blank(s) then done else done + [s]
  }

  lemma NoBreakHere(s: string, start: nat, i: nat)
    requires start <= i < |s| && NoBreaks(s, start, i) && (start < i && IsNewline(s[i - 1]) ==> !IsNewline(s[i]))
    requires !BreakAt(s, start)
    ensures NoBreaks(s, start, i + 1)
  {
  }

  /** `split_into_paragraphs`: one pass over the text, skipping the rest of a run of newlines. */
  method SplitIntoParagraphs(text: string) returns (paragraphs: seq<string>)
    ensures paragraphs == Paragraphs(text)
  {
    paragraphs := [];
    var start, i := 0, 0;
    var prevWasNewline := false;
    ghost var all := Paragraphs(text);
    while i < |text|
      invariant 0 <= start <= i <= |text|
      invariant start < |text| ==> !BreakAt(text, start)
      invariant prevWasNewline == (start < i && IsNewline(text[i - 1]))
      invariant NoBreaks(text, start, i)
      invariant paragraphs + PartsFrom(text, start) == all
      decreases |text| - i
    {
      if IsNewline(text[i]) && prevWasNewline {
        BreakFound(text, start, i, paragraphs);
        paragraphs := AddIfInk(paragraphs, text[start..i]);
        start := SkipNewlines(text, i);
        i := start;
        prevWasNewline := false;
      } else {
        NoBreakHere(text, start, i);
        prevWasNewline := IsNewline(text[i]);
        i := i + 1;
      }
    }
    NoBreakFound(text, start, paragraphs);
    if start < |text| { paragraphs := AddIfInk(paragraphs, text[start..]); }
  }

  method SkipNewlines(text: string, from: nat) returns (i: nat)
    requires from <= |text|
    ensures i == RunEnd(text, from)
  {
    i := from;
    while i < |text| && IsNewline(text[i])
      invariant from <= i <= |text| && RunEnd(text, from) == RunEnd(text, i)
    {
      i := i + 1;
    }
  }

  lemma IfInkKeepsInk(s: string)
    ensures Ink(Flatten(IfInk(s))) == Ink(s)
  {
    BlankHasNoInk(s);
    if !Blank(s) {
      assert [s][1..] == [];
      assert Flatten([s]) == s + "" == s;
    }
  }

  /** No two adjacent characters of the text are line ends, LF or CR. */
  ghost predicate NoBlankLine(s: string) {
    forall i :: 1 <= i < |s| ==> !(s[i - 1] in {'\n', '\r'} && s[i] in {'\n', '\r'})
  }

  /** No paragraph is blank, and none has two adjacent newlines. */
  lemma ParagraphsAreUnbroken(s: string)
    ensures forall k :: 0 <= k < |Paragraphs(s)| ==> !Blank(Paragraphs(s)[k]) && NoBlankLine(Paragraphs(s)[k])
  {
    PartsAreUnbroken(s, 0);
  }

  lemma {:induction false} PartsAreUnbroken(s: string, start: nat)
    requires start <= |s|
    ensures forall k :: 0 <= k < |PartsFrom(s, start)| ==> !Blank(PartsFrom(s, start)[k]) && NoBlankLine(PartsFrom(s, start)[k])
    decreases |s| - start
  {
    var b := FirstBreak(s, start);
    NoEarlierBreak(s, start);
    forall i | 1 <= i < b - start ensures !(s[start..b][i - 1] in {'\n', '\r'} && s[start..b][i] in {'\n', '\r'}) {
      assert !BreakAt(s, start + i);
    }
    if b < |s| { PartsAreUnbroken(s, RunEnd(s, b)); } else { assert s[start..b] == s[start..]; }
  }

  /** Where a paragraph comes from: the text from `start` to `end`. */
  datatype Extent = Extent(start: nat, end: nat)

  /** A text is cut behind `from` into the extents, in order: each ends at the second of two adjacent line ends,
      or at the end of the text, and what lies outside them is white space. */
  ghost predicate CutInto(s: string, from: nat, es: seq<Extent>)
    decreases |es|
  {
    && from <= |s| && (es == [] ==> Blank(s[from..]))
    && (es != [] ==>
          var first := es[0];
          && from <= first.start < first.end <= |s| && Blank(s[from..first.start])
          && (first.end < |s| ==> s[first.end - 1] in {'\n', '\r'} && s[first.end] in {'\n', '\r'})
          && CutInto(s, first.end, es[1..]))
  }

  lemma CutEarlier(s: string, from: nat, at: nat, es: seq<Extent>)
    requires from <= at <= |s| && Blank(s[from..at]) && CutInto(s, at, es)
    ensures CutInto(s, from, es)
  {
    if es == [] {
      assert s[from..] == s[from..at] + s[at..];
    } else {
      assert s[from..es[0].start] == s[from..at] + s[at..es[0].start];
    }
  }

  /** The parts are what lies in the extents. */
  ghost predicate LieIn(s: string, parts: seq<string>, es: seq<Extent>) {
    |parts| == |es| && forall k :: 0 <= k < |es| ==> es[k].start <= es[k].end <= |s| && parts[k] == s[es[k].start..es[k].end]
  }

  /** The paragraphs of a text are cut out of it at blank lines and nowhere else. */
  lemma ParagraphsAreCutOut(s: string) returns (es: seq<Extent>)
    ensures CutInto(s, 0, es) && LieIn(s, Paragraphs(s), es)
  {
    es := PartsAreCutOut(s, 0);
  }

  lemma OneMorePart(s: string, from: nat, part: Extent, parts: seq<string>, es: seq<Extent>)
    requires from <= part.start < part.end <= |s| && Blank(s[from..part.start])
    requires part.end < |s| ==> s[part.end - 1] in {'\n', '\r'} && s[part.end] in {'\n', '\r'}
    requires CutInto(s, part.end, es) && LieIn(s, parts, es)
    ensures CutInto(s, from, [part] + es) && LieIn(s, [s[part.start..part.end]] + parts, [part] + es)
  {
    assert ([part] + es)[1..] == es;
  }

  /** Behind a run of line ends from `b` to `r`, the cutting goes on as if it had begun at `b`. */
  lemma BehindRun(s: string, b: nat, es: seq<Extent>)
    requires b <= |s| && CutInto(s, RunEnd(s, b), es)
    ensures CutInto(s, b, es)
  {
    OnlyNewlines(s, b);
    NewlinesAreBlank(s, b, RunEnd(s, b));
    CutEarlier(s, b, RunEnd(s, b), es);
  }

  /** The last part. */
  lemma LastPart(s: string, start: nat) returns (es: seq<Extent>)
    requires start <= |s|
    ensures CutInto(s, start, es) && LieIn(s, IfInk(s[start..]), es)
  {
    assert s[start..|s|] == s[start..];
    es := [];
    if !Blank(s[start..]) {
      OneMorePart(s, start, Extent(start, |s|), [], []);
      es := [Extent(start, |s|)];
    }
  }

  lemma {:induction false} PartsAreCutOut(s: string, start: nat) returns (es: seq<Extent>)
    requires start <= |s|
    ensures CutInto(s, start, es) && LieIn(s, PartsFrom(s, start), es)
    decreases |s| - start
  {
    var b := FirstBreak(s, start);
    if b == |s| {
      es := LastPart(s, start);
    } else {
      es := PartsAreCutOut(s, RunEnd(s, b));
      BehindRun(s, b, es);
      if Blank(s[start..b]) {
        CutEarlier(s, start, b, es);
      } else {
        OneMorePart(s, start, Extent(start, b), PartsFrom(s, RunEnd(s, b)), es);
        es := [Extent(start, b)] + es;
      }
    }
  }

  /** Splitting into paragraphs loses nothing but white space and reorders nothing, for every text. */
  lemma ParagraphsConserve(s: string)
    ensures Ink(Flatten(Paragraphs(s))) == Ink(s)
  {
    PartsConserve(s, 0);
    assert s[0..] == s;
  }

  lemma {:induction false} PartsConserve(s: string, start: nat)
    requires start <= |s|
    ensures Ink(Flatten(PartsFrom(s, start))) == Ink(s[start..])
    decreases |s| - start
  {
    var b := FirstBreak(s, start);
    if b == |s| {
      IfInkKeepsInk(s[start..]);
    } else {
      var r := RunEnd(s, b);
      var head, rest := IfInk(s[start..b]), PartsFrom(s, r);
      PartsConserve(s, r);
      IfInkKeepsInk(s[start..b]);
      FlattenConcat(head, rest);
      InkConcat(Flatten(head), Flatten(rest));
      OnlyNewlines(s, b);
      NewlinesHaveNoInk(s, start, b, r);
    }
  }

  lemma NewlinesHaveNoInk(s: string, start: nat, b: nat, r: nat)
    requires start <= b <= r <= |s| && forall j :: b <= j < r ==> IsNewline(s[j])
    ensures Ink(s[start..]) == Ink(s[start..b]) + Ink(s[r..])
  {
    NewlinesAreBlank(s, b, r);
    BlankBetween(s[start..b], s[b..r], s[r..]);
    ThreeParts(s, start, b, r);
  }

  lemma NewlinesAreBlank(s: string, b: nat, r: nat)
    requires b <= r <= |s| && forall j :: b <= j < r ==> IsNewline(s[j])
    ensures Blank(s[b..r])
  {
  }

  lemma ThreeParts<T>(s: seq<T>, start: nat, b: nat, r: nat)
    requires start <= b <= r <= |s|
    ensures s[start..b] + (s[b..r] + s[r..]) == s[start..]
  {
  }

  lemma BlankBetween(a: string, m: string, c: string)
    requires Blank(m)
    ensures Ink(a + (m + c)) == Ink(a) + Ink(c)
  {
    InkConcat(a, m + c);
    InkConcat(m, c);
    BlankHasNoInk(m);
  }

  /** A text without a blank line is one paragraph, or none when it is blank. */
  lemma UnbrokenIsOneParagraph(s: string)
    ensures NoBlankLine(s) ==> Paragraphs(s) == IfInk(s)
  {
    assert NoBlankLine(s) ==> forall i: nat :: !BreakAt(s, i);
    assert s[0..] == s;
  }

  lemma TrimsToNothing(s: string)
    ensures Trim(s) == "" <==> Blank(s)
  {
    TrimKeepsInk(s);
  }

  /** A paragraph node: its anchor and its trimmed text. */
  datatype ParagraphNode = ParagraphNode(anchor: string, text: string)

  /** `split_paragraphs`: the trimmed paragraphs, numbered "/2", "/4", ... */
  method SplitParagraphs(content: string) returns (nodes: seq<ParagraphNode>)
    ensures |nodes| == |Paragraphs(content)|
    ensures forall k :: 0 <= k < |nodes| ==> nodes[k] == ParagraphNode("/" + Decimal(2 * (k + 1)), Trim(Paragraphs(content)[k]))
  {
    nodes := [];
    var index := 0;
    var paragraphs := SplitIntoParagraphs(content);
    ParagraphsAreUnbroken(content);
    for k := 0 to |paragraphs|
      invariant index == k == |nodes|
      invariant forall j :: 0 <= j < k ==> nodes[j] == ParagraphNode("/" + Decimal(2 * (j + 1)), Trim(paragraphs[j]))
    {
      var trimmed := Trim(paragraphs[k]);
      TrimsToNothing(paragraphs[k]);
      if trimmed == "" { continue; }
      index := index + 1;
      nodes := nodes + [ParagraphNode("/" + Decimal(index * 2), trimmed)];
    }
  }

  // ---------- Chapters ----------

  datatype Match = Match(start: nat, end: nat)

  /** Heading matches as a search finds them: in order, not overlapping, inside the text. */
  ghost predicate Headings(text: string, ms: seq<Match>) {
    && (forall k :: 0 <= k < |ms| ==> ms[k].start <= ms[k].end <= |text|)
    && (forall k :: 0 <= k < |ms| - 1 ==> ms[k].end <= ms[k + 1].start)
  }

  /** A chapter; only the part before the first heading has a title that is not from the text. */
  datatype Chapter = Chapter(title: string, content: string, fromText: bool)

  /** The characters of the text that a chapter carries. */
  function Carried(c: Chapter): string {
    (if c.fromText then c.title else "") + c.content
  }

  function AllCarried(cs: seq<Chapter>): string {
    if cs == [] then "" else AllCarried(cs[..|cs| - 1]) + Carried(cs[|cs| - 1])
  }

  lemma AddChapter(cs: seq<Chapter>, c: Chapter)
    ensures Ink(AllCarried(cs + [c])) == Ink(AllCarried(cs)) + Ink(Carried(c))
  {
    assert (cs + [c])[..|cs| + 1 - 1] == cs;
    InkConcat(AllCarried(cs), Carried(c));
  }

  /** A heading and what follows it, up to `to`. */
  lemma ChapterInk(text: string, m: Match, to: nat)
    requires m.start <= m.end <= to <= |text|
    ensures Ink(Trim(text[m.start..m.end]) + Trim(text[m.end..to])) == Ink(text[m.start..to])
  {
    var heading, content := text[m.start..m.end], text[m.end..to];
    TrimKeepsInk(heading);
    TrimKeepsInk(content);
    InkConcat(Trim(heading), Trim(content));
    InkConcat(heading, content);
    assert heading + content == text[m.start..to];
  }

  /** The part before the first heading, if there is anything. */
  ghost function Preface(text: string, ms: seq<Match>): seq<Chapter>
    requires ms != [] && Headings(text, ms)
  {
    var pre := Trim(text[..ms[0].start]);
    if pre == "" then [] else [Chapter("Preface", pre, false)]
  }

  /** The chapter of heading `k`: its trimmed title, and what lies between it and the next heading. */
  ghost function ChapterOf(text: string, ms: seq<Match>, k: nat): Chapter
    requires k < |ms| && Headings(text, ms)
  {
    Chapter(Trim(text[ms[k].start..ms[k].end]), Trim(text[ms[k].end..if k + 1 < |ms| then ms[k + 1].start else |text|]), true)
  }

  ghost function ChaptersOf(text: string, ms: seq<Match>, n: nat): seq<Chapter>
    requires n <= |ms| && Headings(text, ms)
  {
    if n == 0 then []
    else
      var c := ChapterOf(text, ms, n - 1);
      ChaptersOf(text, ms, n - 1) + if c.title == "" && c.content == "" then [] else [c]
  }

  lemma InkOfFront(text: string, a: nat, b: nat)
    requires a <= b <= |text|
    ensures Ink(text[..b]) == Ink(text[..a]) + Ink(text[a..b])
  {
    assert text[..b] == text[..a] + text[a..b];
    InkConcat(text[..a], text[a..b]);
  }

  lemma NextChapter(text: string, m: Match, to: nat, chapters: seq<Chapter>)
    requires m.start <= m.end <= to <= |text| && Ink(AllCarried(chapters)) == Ink(text[..m.start])
    ensures var c := Chapter(Trim(text[m.start..m.end]), Trim(text[m.end..to]), true);
            && Ink(AllCarried(chapters + [c])) == Ink(text[..to])
            && (c.title == "" && c.content == "" ==> Ink(AllCarried(chapters)) == Ink(text[..to]))
  {
    var title, content := Trim(text[m.start..m.end]), Trim(text[m.end..to]);
    ChapterInk(text, m, to);
    InkOfFront(text, m.start, to);
    AddChapter(chapters, Chapter(title, content, true));
    assert title == "" && content == "" ==> title + content == "";
  }

  /** A chapter has a title or a content, and only the first may be a preface. */
  predicate Sensible(c: Chapter, k: nat) {
    (c.title != "" || c.content != "") && (!c.fromText ==> k == 0 && c.title == "Preface")
  }

  /** Where the part of the text ends that the first `n` chapters and the preface come from. */
  ghost function CoveredTo(text: string, ms: seq<Match>, n: nat): nat
    requires n <= |ms| && Headings(text, ms)
  {
    if n < |ms| then ms[n].start else |text|
  }

  lemma OneChapterCarries(c: Chapter)
    ensures AllCarried([c]) == Carried(c)
  {
    assert [c][..0] == [];
    assert AllCarried([]) + Carried(c) == Carried(c);
  }

  lemma PrefaceCarries(text: string, ms: seq<Match>)
    requires ms != [] && Headings(text, ms)
    ensures Ink(AllCarried(Preface(text, ms))) == Ink(text[..ms[0].start])
  {
    var front := text[..ms[0].start];
    TrimKeepsInk(front);
    if Trim(front) != "" {
      OneChapterCarries(Chapter("Preface", Trim(front), false));
      assert "" + Trim(front) == Trim(front);
    }
  }

  /** The preface and the first `n` chapters. */
  ghost function FrontOf(text: string, ms: seq<Match>, n: nat): seq<Chapter>
    requires n <= |ms| && ms != [] && Headings(text, ms)
  {
    Preface(text, ms) + ChaptersOf(text, ms, n)
  }

  lemma FrontNext(text: string, ms: seq<Match>, n: nat)
    requires n < |ms| && Headings(text, ms)
    ensures var c := ChapterOf(text, ms, n);
            FrontOf(text, ms, n + 1) == if c.title == "" && c.content == "" then FrontOf(text, ms, n) else FrontOf(text, ms, n) + [c]
  {
  }

  /** They carry, in order, exactly the characters of the text up to the next heading that are not
      white space. */
  lemma {:induction false} ChaptersCarryTheText(text: string, ms: seq<Match>, n: nat)
    requires n <= |ms| && ms != [] && Headings(text, ms)
    ensures Ink(AllCarried(FrontOf(text, ms, n))) == Ink(text[..CoveredTo(text, ms, n)])
    decreases n
  {
    if n == 0 {
      PrefaceCarries(text, ms);
      assert FrontOf(text, ms, 0) == Preface(text, ms);
    } else {
      ChaptersCarryTheText(text, ms, n - 1);
      NextChapter(text, ms[n - 1], CoveredTo(text, ms, n), FrontOf(text, ms, n - 1));
      FrontNext(text, ms, n - 1);
    }
  }

  lemma {:induction false} ChaptersAreSensible(text: string, ms: seq<Match>, n: nat)
    requires n <= |ms| && ms != [] && Headings(text, ms)
    ensures forall k :: 0 <= k < |ChaptersOf(text, ms, n)| ==>
              ChaptersOf(text, ms, n)[k].fromText && (ChaptersOf(text, ms, n)[k].title != "" || ChaptersOf(text, ms, n)[k].content != "")
  {
    if n > 0 { ChaptersAreSensible(text, ms, n - 1); }
  }

  /** `split_into_chapters`, at least two headings found: a preface, and a chapter for each heading. */
  method SplitIntoChapters(text: string, ms: seq<Match>) returns (chapters: seq<Chapter>)
    requires |ms| >= 2 && Headings(text, ms)
    ensures chapters == Preface(text, ms) + ChaptersOf(text, ms, |ms|)
    ensures Ink(AllCarried(chapters)) == Ink(text)
    ensures forall k :: 0 <= k < |chapters| ==> Sensible(chapters[k], k)
  {
    chapters := [];
    var pre := Trim(text[..ms[0].start]);
    if pre != "" { chapters := chapters + [Chapter("Preface", pre, false)]; }
    for i := 0 to |ms|
      invariant chapters == Preface(text, ms) + ChaptersOf(text, ms, i)
    {
      var title := Trim(text[ms[i].start..ms[i].end]);
      var to := if i + 1 < |ms| then ms[i + 1].start else |text|;
      var content := Trim(text[ms[i].end..to]);
      if content != "" || title != "" {
        chapters := chapters + [Chapter(title, content, true)];
      }
    }
    ChaptersCarryTheText(text, ms, |ms|);
    ChaptersAreSensible(text, ms, |ms|);
    assert text[..|text|] == text;
  }

  /** Splitting chapter contents further into paragraphs loses nothing either: titles and trimmed
      paragraphs together still carry exactly the text's characters. */
  function CarriedByParagraphs(cs: seq<Chapter>): string {
    if cs == [] then ""
    else
      var c := cs[|cs| - 1];
      CarriedByParagraphs(cs[..|cs| - 1]) + (if c.fromText then c.title else "") + Flatten(TrimAll(Paragraphs(c.content)))
  }

  function TrimAll(ss: seq<string>): (r: seq<string>)
    ensures |r| == |ss| && forall k :: 0 <= k < |r| ==> r[k] == Trim(ss[k])
  {
    seq(|ss|, k requires 0 <= k < |ss| => Trim(ss[k]))
  }

  lemma {:induction false} TrimAllKeepsInk(ss: seq<string>)
    ensures Ink(Flatten(TrimAll(ss))) == Ink(Flatten(ss))
    decreases |ss|
  {
    if ss != [] {
      assert TrimAll(ss)[1..] == TrimAll(ss[1..]);
      TrimAllKeepsInk(ss[1..]);
      TrimKeepsInk(ss[0]);
      InkConcat(Trim(ss[0]), Flatten(TrimAll(ss[1..])));
      InkConcat(ss[0], Flatten(ss[1..]));
    }
  }

  lemma {:induction false} ChaptersConserve(cs: seq<Chapter>)
    ensures Ink(CarriedByParagraphs(cs)) == Ink(AllCarried(cs))
    decreases |cs|
  {
    if cs != [] {
      var init, c := cs[..|cs| - 1], cs[|cs| - 1];
      var title, body := if c.fromText then c.title else "", Flatten(TrimAll(Paragraphs(c.content)));
      ChaptersConserve(init);
      TrimAllKeepsInk(Paragraphs(c.content));
      ParagraphsConserve(c.content);
      InkConcat(CarriedByParagraphs(init) + title, body);
      InkConcat(CarriedByParagraphs(init), title);
      InkConcat(AllCarried(init), Carried(c));
      InkConcat(title, c.content);
    }
  }
}
