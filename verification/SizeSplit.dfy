/** Splitting a text without headings by size. Positions count bytes of its UTF-8 form, so a cut can
    fall inside a character, and then slicing panics. */
module SizeSplit {
  import opened Basics
  import opened Strings

  const LF: byte := 0xA
  const CR: byte := 0xD

  const WINDOW := 200

  /** Behind two newlines, "\n\n" or "\r\n\r\n" read backwards as the code does. */
  predicate DoubleAt(b: seq<byte>, j: nat) {
    || (2 <= j <= |b| && b[j - 2] == 0xA && b[j - 1] == 0xA)
    || (4 <= j <= |b| && b[j - 4] == 0xD && b[j - 3] == 0xA && b[j - 2] == 0xD && b[j - 1] == 0xA)
  }

  predicate SingleAt(b: seq<byte>, j: nat) {
    1 <= j <= |b| && b[j - 1] == 0xA
  }

  /** Where the window of a cut limited to `limit` begins. */
  function WindowStart(start: nat, limit: nat): nat {
    if limit > 200 then limit - 200 else start
  }

  /** The greatest double break in `(lo, hi]`, if any. */
  ghost predicate IsLastDouble(b: seq<byte>, lo: nat, hi: nat, j: nat) {
    lo < j <= hi && DoubleAt(b, j) && forall k: nat :: j < k <= hi ==> !DoubleAt(b, k)
  }

  ghost predicate NoDouble(b: seq<byte>, lo: nat, hi: nat) {
    forall k: nat :: lo < k <= hi ==> !DoubleAt(b, k)
  }

  ghost predicate IsLastSingle(b: seq<byte>, lo: nat, hi: nat, j: nat) {
    lo < j <= hi && SingleAt(b, j) && forall k: nat :: j < k <= hi ==> !SingleAt(b, k)
  }

  ghost predicate NoSingle(b: seq<byte>, lo: nat, hi: nat) {
    forall k: nat :: lo < k <= hi ==> !SingleAt(b, k)
  }

  /** What a cut is: the end of the text if that is within the limit; else the last double newline in
      the window, else the last single one, else the limit. */
  ghost predicate IsCut(b: seq<byte>, start: nat, chunk: nat, end: nat) {
    if start + chunk >= |b| then end == |b|
    else
      var hi := start + chunk;
      var lo := WindowStart(start, hi);
      || IsLastDouble(b, lo, hi, end)
      || (NoDouble(b, lo, hi) && IsLastSingle(b, lo, hi, end))
      || (NoDouble(b, lo, hi) && NoSingle(b, lo, hi) && end == hi)
  }

  /** There is exactly one cut. */
  lemma CutIsUnique(b: seq<byte>, start: nat, chunk: nat, e: nat, f: nat)
    requires IsCut(b, start, chunk, e) && IsCut(b, start, chunk, f)
    ensures e == f
  {
  }

  /** Finds the cut, searching the window backwards twice. */
  method FindCut(b: seq<byte>, start: nat, chunk: nat) returns (end: nat)
    requires start < |b|
    ensures IsCut(b, start, chunk, end)
    ensures 200 <= chunk ==> start < end <= |b| && end <= start + chunk && (end < |b| ==> end > start + chunk - 200)
  {
    end := Min(start + chunk, |b|);
    if end < |b| {
      var hi := end;
      var lo := if end > WINDOW then end - WINDOW else start;
      var j := end;
      while j > lo
        invariant lo <= j <= hi && forall k: nat :: j < k <= hi ==> !DoubleAt(b, k)
      {
        if (j >= 2 && b[j - 1] == LF && b[j - 2] == LF)
           || (j >= 4 && b[j - 1] == LF && b[j - 2] == CR && b[j - 3] == LF && b[j - 4] == CR)
        {
          end := j;
          return;
        }
        j := j - 1;
      }
      j := end;
      while j > lo
        invariant lo <= j <= hi && end == hi && forall k: nat :: j < k <= hi ==> !SingleAt(b, k)
      {
        if b[j - 1] == LF {
          end := j;
          return;
        }
        j := j - 1;
      }
    }
  }

  /** `is_char_boundary` of a valid UTF-8 text. */
  predicate Boundary(b: seq<byte>, i: nat) {
    i == 0 || i >= |b| || !(0x80 <= b[i] < 0xC0)
  }

  /** The cuts of a text from `start` on: to its end, or to the first cut that does not get ahead. */
  ghost predicate Cuts(b: seq<byte>, start: nat, chunk: nat, cuts: seq<nat>)
    decreases |cuts|
  {
    && cuts != [] && cuts[0] == start
    && if start >= |b| then start == |b| && |cuts| == 1
       else
         && |cuts| >= 2 && IsCut(b, start, chunk, cuts[1])
         && if start < cuts[1] then Cuts(b, cuts[1], chunk, cuts[1..]) else |cuts| == 2
  }

  /** The last cut does not get ahead. */
  predicate Stuck(cuts: seq<nat>) {
    |cuts| >= 2 && cuts[|cuts| - 1] <= cuts[|cuts| - 2]
  }

  ghost predicate AtBoundaries(b: seq<byte>, cuts: seq<nat>) {
    forall k :: 0 <= k < |cuts| ==> Boundary(b, cuts[k])
  }

  /** Every cut falls between two characters, and the last is where the one before it is. */
  ghost predicate ForEver(b: seq<byte>, cuts: seq<nat>) {
    AtBoundaries(b, cuts) && |cuts| >= 2 && cuts[|cuts| - 1] == cuts[|cuts| - 2]
  }

  /** A loop that never ends, or a slice that panics, is an answer too. */
  datatype SplitResult = Split(sections: seq<Section>) | Panics | Loops

  datatype Section = Section(title: string, content: seq<byte>)

  /** The cuts lie in the text, and get ahead from the `n`-th on. */
  predicate Ahead(b: seq<byte>, cuts: seq<nat>, n: nat) {
    (forall k :: n <= k < |cuts| ==> cuts[k] <= |b|) && forall k :: n <= k < |cuts| - 1 ==> cuts[k] < cuts[k + 1]
  }

  /** The sections made of the slices from the `n`-th cut on: trimmed, blank ones dropped, numbered. */
  function Sections(b: seq<byte>, cuts: seq<nat>, n: nat, trim: seq<byte> -> seq<byte>, number: nat): seq<Section>
    requires Ahead(b, cuts, n)
    decreases |cuts| - n
  {
    if n + 1 >= |cuts| then []
    else
      var piece := trim(b[cuts[n]..cuts[n + 1]]);
      if piece == [] then Sections(b, cuts, n + 1, trim, number)
      else [Section("Section " + Decimal(number), piece)] + Sections(b, cuts, n + 1, trim, number + 1)
  }

  /** Slice `k`, trimmed. */
  function Piece(b: seq<byte>, cuts: seq<nat>, trim: seq<byte> -> seq<byte>, k: nat): seq<byte>
    requires k + 1 < |cuts| && Ahead(b, cuts, 0)
  {
    trim(b[cuts[k]..cuts[k + 1]])
  }

  /** The sections are made of the slices `from`, numbered from `number` on. */
  ghost predicate MadeOf(b: seq<byte>, cuts: seq<nat>, trim: seq<byte> -> seq<byte>, xs: seq<Section>, from: seq<nat>, number: nat)
    requires Ahead(b, cuts, 0)
  {
    && |xs| == |from|
    && (forall i :: 0 <= i < |from| ==>
          && from[i] + 1 < |cuts| && xs[i].content == Piece(b, cuts, trim, from[i]) && xs[i].content != []
          && xs[i].title == "Section " + Decimal(number + i))
  }

  /** The sections are the trimmed slices that are not empty, in the order of the text, numbered from one. */
  lemma SectionsAreSlices(b: seq<byte>, cuts: seq<nat>, trim: seq<byte> -> seq<byte>) returns (from: seq<nat>)
    requires Ahead(b, cuts, 0)
    ensures MadeOf(b, cuts, trim, Sections(b, cuts, 0, trim, 1), from, 1)
    ensures forall i, j :: 0 <= i < j < |from| ==> from[i] < from[j]
    ensures forall k: nat :: k + 1 < |cuts| ==> (k in from <==> Piece(b, cuts, trim, k) != [])
  {
    from := NonEmpty(b, cuts, 0, trim);
    SectionsFrom(b, cuts, 0, trim, 1);
  }

  /** The slices from the `n`-th on that are not empty. */
  function NonEmpty(b: seq<byte>, cuts: seq<nat>, n: nat, trim: seq<byte> -> seq<byte>): (from: seq<nat>)
    requires Ahead(b, cuts, 0)
    ensures forall i :: 0 <= i < |from| ==> n <= from[i] && from[i] + 1 < |cuts| && Piece(b, cuts, trim, from[i]) != []
    ensures forall i, j :: 0 <= i < j < |from| ==> from[i] < from[j]
    ensures forall k: nat :: n <= k && k + 1 < |cuts| && Piece(b, cuts, trim, k) != [] ==> k in from
    decreases |cuts| - n
  {
    if n + 1 >= |cuts| then []
    else if Piece(b, cuts, trim, n) == [] then NonEmpty(b, cuts, n + 1, trim)
    else [n] + NonEmpty(b, cuts, n + 1, trim)
  }

  lemma MadeOfOneMore(b: seq<byte>, cuts: seq<nat>, trim: seq<byte> -> seq<byte>, x: Section, k: nat, xs: seq<Section>, from: seq<nat>, number: nat)
    requires Ahead(b, cuts, 0) && MadeOf(b, cuts, trim, [x], [k], number) && MadeOf(b, cuts, trim, xs, from, number + 1)
    ensures MadeOf(b, cuts, trim, [x] + xs, [k] + from, number)
  {
  }

  lemma {:induction false} SectionsFrom(b: seq<byte>, cuts: seq<nat>, n: nat, trim: seq<byte> -> seq<byte>, number: nat)
    requires Ahead(b, cuts, 0)
    ensures MadeOf(b, cuts, trim, Sections(b, cuts, n, trim, number), NonEmpty(b, cuts, n, trim), number)
    decreases |cuts| - n
  {
    if n + 1 < |cuts| {
      var piece := Piece(b, cuts, trim, n);
      if piece == [] {
        SectionsFrom(b, cuts, n + 1, trim, number);
      } else {
        SectionsFrom(b, cuts, n + 1, trim, number + 1);
        MadeOfOneMore(b, cuts, trim, Section("Section " + Decimal(number), piece), n,
                      Sections(b, cuts, n + 1, trim, number + 1), NonEmpty(b, cuts, n + 1, trim), number);
      }
    }
  }

  function Prepend(front: seq<Section>, r: SplitResult): SplitResult {
    match r
    case Split(sections) => Split(front + sections)
    case _ => r
  }

  /** What comes of slicing along the cuts from the `n`-th on. */
  function Sliced(b: seq<byte>, cuts: seq<nat>, n: nat, trim: seq<byte> -> seq<byte>, number: nat): SplitResult
    requires forall k :: 0 <= k < |cuts| ==> cuts[k] <= |b|
    decreases |cuts| - n
  {
    if n + 1 >= |cuts| then Split([])
    else if cuts[n + 1] < cuts[n] || !Boundary(b, cuts[n + 1]) then Panics
    else if cuts[n + 1] == cuts[n] then Loops
    else
      var piece := trim(b[cuts[n]..cuts[n + 1]]);
      if piece == [] then Sliced(b, cuts, n + 1, trim, number)
      else Prepend([Section("Section " + Decimal(number), piece)], Sliced(b, cuts, n + 1, trim, number + 1))
  }

  /** Slicing gives the sections between the cuts exactly when every cut is between two characters and gets
      ahead; it goes on for ever exactly when the last of them is where the one before is. */
  lemma {:induction false} SlicedMeans(b: seq<byte>, chunk: nat, cuts: seq<nat>, n: nat, trim: seq<byte> -> seq<byte>, number: nat)
    requires Trail(b, chunk, cuts) && n < |cuts| && (n > 0 ==> cuts[n - 1] < cuts[n])
    requires forall k :: 0 <= k <= n ==> Boundary(b, cuts[k])
    ensures var r := Sliced(b, cuts, n, trim, number);
            && (r.Split? <==> AtBoundaries(b, cuts) && !Stuck(cuts))
            && (r.Loops? <==> ForEver(b, cuts))
            && (r.Split? ==> Ahead(b, cuts, 0) && r.sections == Sections(b, cuts, n, trim, number))
    decreases |cuts| - n
  {
    if n + 1 < |cuts| && cuts[n] < cuts[n + 1] && Boundary(b, cuts[n + 1]) {
      var piece := trim(b[cuts[n]..cuts[n + 1]]);
      SlicedMeans(b, chunk, cuts, n + 1, trim, if piece == [] then number else number + 1);
    }
  }

  /** A whole list of cuts: each is the next of the one before, all but the last get ahead, and the last
      is the end of the text or does not get ahead. */
  ghost predicate Trail(b: seq<byte>, chunk: nat, cuts: seq<nat>) {
    && (forall k :: 0 <= k < |cuts| ==> cuts[k] <= |b|)
    && (forall k :: 0 <= k < |cuts| - 2 ==> cuts[k] < cuts[k + 1])
    && (forall k :: 0 <= k < |cuts| - 1 ==> IsCut(b, cuts[k], chunk, cuts[k + 1]) && cuts[k] < |b|)
    && (!Stuck(cuts) ==> Ahead(b, cuts, 0) && cuts != [] && cuts[|cuts| - 1] == |b|)
  }

  /** The cuts from the `n`-th on are the cuts of the rest. */
  lemma {:induction false} TailOfCuts(b: seq<byte>, start: nat, chunk: nat, cuts: seq<nat>, n: nat)
    requires Cuts(b, start, chunk, cuts) && (n == 0 || n + 1 < |cuts|)
    ensures Cuts(b, cuts[n], chunk, cuts[n..])
    decreases n
  {
    if n == 0 {
      assert cuts[0..] == cuts;
    } else {
      TailOfCuts(b, start, chunk, cuts, n - 1);
      assert cuts[n - 1..][1..] == cuts[n..] && cuts[n - 1..][1] == cuts[n];
    }
  }

  lemma CutsAreSteps(b: seq<byte>, start: nat, chunk: nat, cuts: seq<nat>)
    requires Cuts(b, start, chunk, cuts)
    ensures Trail(b, chunk, cuts)
  {
    forall k | 0 <= k < |cuts| - 1
      ensures IsCut(b, cuts[k], chunk, cuts[k + 1]) && cuts[k] < |b| && (k < |cuts| - 2 ==> cuts[k] < cuts[k + 1])
    {
      TailOfCuts(b, start, chunk, cuts, k);
      assert cuts[k..][1] == cuts[k + 1];
    }
    LastCut(b, start, chunk, cuts);
  }

  lemma LastCut(b: seq<byte>, start: nat, chunk: nat, cuts: seq<nat>)
    requires Cuts(b, start, chunk, cuts)
    ensures cuts[|cuts| - 1] <= |b| && (!Stuck(cuts) ==> cuts[|cuts| - 1] == |b|)
  {
    if |cuts| >= 2 {
      TailOfCuts(b, start, chunk, cuts, |cuts| - 2);
      assert cuts[|cuts| - 2..][1] == cuts[|cuts| - 1];
    }
  }

  /** With chunks of at least the window's size every cut gets ahead. */
  lemma {:induction false} WindowGetsAhead(b: seq<byte>, start: nat, chunk: nat, cuts: seq<nat>)
    requires Cuts(b, start, chunk, cuts) && 200 <= chunk
    ensures !Stuck(cuts)
    decreases |cuts|
  {
    if start < |b| {
      CutIsNear(b, start, chunk, cuts[1]);
      WindowGetsAhead(b, cuts[1], chunk, cuts[1..]);
      assert |cuts| > 2 ==> (Stuck(cuts) <==> Stuck(cuts[1..]));
    }
  }

  /** The raw slices. */
  function Slices(b: seq<byte>, cuts: seq<nat>): seq<seq<byte>>
    requires Ahead(b, cuts, 0)
  {
    if |cuts| < 2 then [] else [b[cuts[0]..cuts[1]]] + Slices(b, cuts[1..])
  }

  lemma TwoParts(b: seq<byte>, start: nat, cut: nat)
    requires start <= cut <= |b|
    ensures b[start..] == b[start..cut] + b[cut..]
  {
  }

  lemma {:induction false} SlicesFlatten(b: seq<byte>, start: nat, chunk: nat, cuts: seq<nat>)
    requires Cuts(b, start, chunk, cuts) && !Stuck(cuts) && Ahead(b, cuts, 0)
    ensures Flatten(Slices(b, cuts)) == b[start..] && |Slices(b, cuts)| == |cuts| - 1
    decreases |cuts|
  {
    if start < |b| {
      assert |cuts| > 2 ==> !Stuck(cuts[1..]);
      SlicesFlatten(b, cuts[1], chunk, cuts[1..]);
      assert Slices(b, cuts)[1..] == Slices(b, cuts[1..]);
      assert start == cuts[0] < cuts[1] <= |b|;
      TwoParts(b, start, cuts[1]);
    }
  }

  lemma {:induction false} SliceAt(b: seq<byte>, cuts: seq<nat>, k: nat)
    requires Ahead(b, cuts, 0) && k + 1 < |cuts|
    ensures k < |Slices(b, cuts)| && Slices(b, cuts)[k] == b[cuts[k]..cuts[k + 1]]
    decreases k
  {
    if k > 0 { SliceAt(b, cuts[1..], k - 1); }
  }

  /** The slices put together are the text; each is at most a chunk, each but the last longer than a
      chunk less the window, so there are at most `len / (chunk - 199) + 1` of them. */
  lemma SlicesPartition(b: seq<byte>, start: nat, chunk: nat, cuts: seq<nat>)
    requires Cuts(b, start, chunk, cuts) && 200 <= chunk
    ensures Ahead(b, cuts, 0)
    ensures Flatten(Slices(b, cuts)) == b[start..] && |Slices(b, cuts)| == |cuts| - 1
    ensures forall k :: 0 <= k < |Slices(b, cuts)| ==> 0 < |Slices(b, cuts)[k]| <= chunk
    ensures forall k :: 0 <= k < |Slices(b, cuts)| - 1 ==> |Slices(b, cuts)[k]| > chunk - 200
  {
    WindowGetsAhead(b, start, chunk, cuts);
    CutsAreSteps(b, start, chunk, cuts);
    SlicesFlatten(b, start, chunk, cuts);
    forall k | 0 <= k < |Slices(b, cuts)|
      ensures 0 < |Slices(b, cuts)[k]| <= chunk && (k < |Slices(b, cuts)| - 1 ==> |Slices(b, cuts)[k]| > chunk - 200)
    {
      SliceAt(b, cuts, k);
      CutIsNear(b, cuts[k], chunk, cuts[k + 1]);
    }
  }

  lemma CutIsNear(b: seq<byte>, start: nat, chunk: nat, end: nat)
    requires start < |b| && 200 <= chunk && IsCut(b, start, chunk, end)
    ensures start < end <= |b| && end <= start + chunk && (end < |b| ==> end > start + chunk - 200)
  {
  }

  lemma {:induction false} FewSlices(b: seq<byte>, start: nat, chunk: nat, cuts: seq<nat>)
    requires Cuts(b, start, chunk, cuts) && 200 <= chunk && start < |b|
    ensures (|cuts| - 2) * (chunk - 200 + 1) < |b| - start
    decreases |cuts|
  {
    CutIsNear(b, start, chunk, cuts[1]);
    if cuts[1] < |b| {
      FewSlices(b, cuts[1], chunk, cuts[1..]);
      var d := chunk - 200 + 1;
      assert (|cuts| - 2) * d == (|cuts| - 3) * d + d;
    }
  }

  lemma SectionCount(b: seq<byte>, chunk: nat, cuts: seq<nat>)
    requires Cuts(b, 0, chunk, cuts) && 200 <= chunk && b != []
    ensures |cuts| - 1 <= |b| / (chunk - 200 + 1) + 1
  {
    FewSlices(b, 0, chunk, cuts);
    var d, n := chunk - 200 + 1, |cuts| - 2;
    Quotient(n, d, |b|);
  }

  lemma Quotient(n: nat, d: nat, x: nat)
    requires d > 0 && n * d < x
    ensures n <= x / d
  {
    if x / d < n {
      TimesGrows(d, x / d + 1, n);
    }
  }

  lemma {:induction false} TimesGrows(d: nat, a: nat, c: nat)
    requires a <= c
    ensures a * d <= c * d && a * d == (a - 1) * d + d
  {
    if a < c { TimesGrows(d, a, c - 1); }
  }

  /** `split_by_size` of a trimmed text, for every chunk size. `trim` is the library's trimming. It panics
      exactly when a cut falls inside a character or behind the one before it, and else never ends exactly
      when a cut is where the one before it is. */
  method SplitBySize(b: seq<byte>, chunk: nat, trim: seq<byte> -> seq<byte>) returns (r: SplitResult, ghost cuts: seq<nat>)
    ensures |b| == 0 ==> r == Split([])
    ensures 0 < |b| <= chunk ==> r == Split([Section("Full Text", b)])
    ensures |b| > chunk ==> Cuts(b, 0, chunk, cuts)
    ensures |b| > chunk ==> (r.Split? <==> AtBoundaries(b, cuts) && !Stuck(cuts))
    ensures |b| > chunk ==> (r.Loops? <==> ForEver(b, cuts))
    ensures |b| > chunk && r.Split? ==> Ahead(b, cuts, 0) && r.sections == Sections(b, cuts, 0, trim, 1)
  {
    cuts := [0];
    if b == [] { return Split([]), cuts; }
    if |b| <= chunk { return Split([Section("Full Text", b)]), cuts; }
    cuts := CutsExist(b, 0, chunk);
    CutsAreSteps(b, 0, chunk, cuts);
    SlicedMeans(b, chunk, cuts, 0, trim, 1);
    r := SliceAlong(b, chunk, trim, cuts);
  }

  /** The next cut is the next of the list. */
  lemma NextCut(b: seq<byte>, chunk: nat, cuts: seq<nat>, n: nat, end: nat)
    requires n < |cuts| && cuts[n] < |b| && Cuts(b, cuts[n], chunk, cuts[n..]) && IsCut(b, cuts[n], chunk, end)
    ensures n + 1 < |cuts| && cuts[n + 1] == end
    ensures cuts[n] < end ==> Cuts(b, end, chunk, cuts[n + 1..])
  {
    CutIsUnique(b, cuts[n], chunk, end, cuts[n..][1]);
    assert cuts[n..][1..] == cuts[n + 1..];
  }

  lemma OneSlice(b: seq<byte>, cuts: seq<nat>, n: nat, trim: seq<byte> -> seq<byte>, number: nat, sections: seq<Section>)
    requires forall k :: 0 <= k < |cuts| ==> cuts[k] <= |b|
    requires n + 1 < |cuts| && cuts[n] < cuts[n + 1] && Boundary(b, cuts[n + 1])
    ensures var piece := trim(b[cuts[n]..cuts[n + 1]]);
            Prepend(sections, Sliced(b, cuts, n, trim, number))
            == if piece == [] then Prepend(sections, Sliced(b, cuts, n + 1, trim, number))
               else Prepend(sections + [Section("Section " + Decimal(number), piece)], Sliced(b, cuts, n + 1, trim, number + 1))
  {
    var rest := Sliced(b, cuts, n + 1, trim, number + 1);
    var x := Section("Section " + Decimal(number), trim(b[cuts[n]..cuts[n + 1]]));
    if rest.Split? { assert sections + ([x] + rest.sections) == (sections + [x]) + rest.sections; }
  }

  /** The loop of `split_by_size`. */
  method SliceAlong(b: seq<byte>, chunk: nat, trim: seq<byte> -> seq<byte>, ghost cuts: seq<nat>) returns (r: SplitResult)
    requires Cuts(b, 0, chunk, cuts) && forall k :: 0 <= k < |cuts| ==> cuts[k] <= |b|
    ensures r == Sliced(b, cuts, 0, trim, 1)
  {
    var sections: seq<Section> := [];
    var start, number := 0, 1;
    ghost var n := 0;
    assert cuts[0..] == cuts;
    while start < |b|
      invariant n < |cuts| && start == cuts[n] && Cuts(b, start, chunk, cuts[n..])
      invariant Prepend(sections, Sliced(b, cuts, n, trim, number)) == Sliced(b, cuts, 0, trim, 1)
      decreases |b| - start
    {
      var end := FindCut(b, start, chunk);
      NextCut(b, chunk, cuts, n, end);
      if end < start || !Boundary(b, end) { return Panics; }
      if end == start { return Loops; }
      OneSlice(b, cuts, n, trim, number, sections);
      var piece := trim(b[start..end]);
      if piece != [] {
        sections := sections + [Section("Section " + Decimal(number), piece)];
        number := number + 1;
      }
      start := end;
      n := n + 1;
    }
    return Split(sections);
  }

  lemma FindDouble(b: seq<byte>, lo: nat, hi: nat) returns (j: nat)
    ensures NoDouble(b, lo, hi) || IsLastDouble(b, lo, hi, j)
    decreases hi
  {
    j := hi;
    if lo < hi && !DoubleAt(b, hi) { j := FindDouble(b, lo, hi - 1); }
  }

  lemma FindSingle(b: seq<byte>, lo: nat, hi: nat) returns (j: nat)
    ensures NoSingle(b, lo, hi) || IsLastSingle(b, lo, hi, j)
    decreases hi
  {
    j := hi;
    if lo < hi && !SingleAt(b, hi) { j := FindSingle(b, lo, hi - 1); }
  }

  /** Every text has its cuts. */
  lemma {:induction false} CutsExist(b: seq<byte>, start: nat, chunk: nat) returns (cuts: seq<nat>)
    requires start <= |b|
    ensures Cuts(b, start, chunk, cuts)
    decreases |b| - start
  {
    cuts := [start];
    if start < |b| {
      var hi := Min(start + chunk, |b|);
      var lo := WindowStart(start, hi);
      var d := FindDouble(b, lo, hi);
      var e := FindSingle(b, lo, hi);
      var end := if start + chunk >= |b| then |b| else if !NoDouble(b, lo, hi) then d else if !NoSingle(b, lo, hi) then e else hi;
      assert IsCut(b, start, chunk, end);
      cuts := [start, end];
      if start < end {
        var rest := CutsExist(b, end, chunk);
        cuts := [start] + rest;
        assert cuts[1..] == rest;
      }
    }
  }

  /** 200 letters, a newline, and more letters than a chunk takes. */
  function OneNewline(chunk: nat): (b: seq<byte>)
    ensures |b| == 203 + chunk
  {
    seq(203 + chunk, i requires 0 <= i < 203 + chunk => if i == 200 then LF else 0x61)
  }

  /** The splitting of that text does not get ahead behind the newline when chunks are smaller than the
      window: the newline is found again and again. */
  lemma {:induction false} SmallChunksGetStuck(chunk: nat, start: nat) returns (cuts: seq<nat>)
    requires chunk < 200 && start <= 201
    ensures Cuts(OneNewline(chunk), start, chunk, cuts) && Stuck(cuts) && cuts[|cuts| - 1] == cuts[|cuts| - 2]
    decreases 201 - start
  {
    var b, hi := OneNewline(chunk), start + chunk;
    assert forall k: nat :: SingleAt(b, k) <==> k == 201;
    assert forall k: nat :: !DoubleAt(b, k);
    var end := if hi >= 201 then 201 else hi;
    assert IsCut(b, start, chunk, end);
    if start < end {
      var rest := SmallChunksGetStuck(chunk, end);
      cuts := [start] + rest;
      assert cuts[1..] == rest;
    } else {
      cuts := [start, end];
    }
  }

  /** So splitting never runs for ever, whatever the text, if and only if the chunks are at least the window's size. */
  lemma EndsOnEveryTextIff(chunk: nat)
    ensures (forall b: seq<byte>, cuts :: Cuts(b, 0, chunk, cuts) ==> !ForEver(b, cuts)) <==> 200 <= chunk
  {
    if 200 <= chunk {
      forall b: seq<byte>, cuts | Cuts(b, 0, chunk, cuts) ensures !ForEver(b, cuts) {
        WindowGetsAhead(b, 0, chunk, cuts);
      }
    } else {
      var cuts := SmallChunksGetStuck(chunk, 0);
      AsciiNeverPanics(OneNewline(chunk), cuts);
      assert ForEver(OneNewline(chunk), cuts);
    }
  }

  /** In UTF-8 a character begins behind every ASCII byte. So the only cuts that can fall inside a
      character are those at the limit, taken when the window holds no newline. */
  lemma OnlyHardCutsPanic(b: seq<byte>, start: nat, chunk: nat, end: nat)
    requires start + chunk < |b| && 200 <= chunk && IsCut(b, start, chunk, end)
    requires forall i :: 1 <= i < |b| && b[i - 1] < 0x80 ==> Boundary(b, i)
    ensures !Boundary(b, end) <==> NoSingle(b, WindowStart(start, start + chunk), start + chunk) && !Boundary(b, start + chunk)
  {
    var lo, hi := WindowStart(start, start + chunk), start + chunk;
    assert forall k: nat :: DoubleAt(b, k) ==> SingleAt(b, k);
    assert SingleAt(b, end) ==> Boundary(b, end);
  }

  /** A text of ASCII characters is never cut inside a character, so splitting it never panics. */
  lemma AsciiNeverPanics(b: seq<byte>, cuts: seq<nat>)
    requires forall i :: 0 <= i < |b| ==> b[i] < 0x80
    ensures AtBoundaries(b, cuts)
  {
  }

  /** The UTF-8 form of an ASCII letter followed by three-byte characters. */
  function OneAndThrees(length: nat): (b: seq<byte>)
    ensures |b| == length
  {
    seq(length, i requires 0 <= i < length => if i == 0 then 0x61 else if i % 3 == 1 then 0xE4 else if i % 3 == 2 then 0xB8 else 0xAD)
  }

  /** It does panic on ordinary text: 1668 three-byte characters behind one ASCII letter, without a
      newline, are cut at byte 5000, which lies inside a character. */
  lemma ChineseTextPanics()
    ensures var b := OneAndThrees(5005);
            |b| > 5000 && forall cuts :: Cuts(b, 0, 5000, cuts) ==> !AtBoundaries(b, cuts)
  {
    var b := OneAndThrees(5005);
    forall cuts | Cuts(b, 0, 5000, cuts) ensures !AtBoundaries(b, cuts) {
      assert forall k: nat :: !SingleAt(b, k);
      assert forall k: nat :: DoubleAt(b, k) ==> SingleAt(b, k);
      assert cuts[1] == 5000;
      assert b[5000] == 0xB8;
    }
  }
}
