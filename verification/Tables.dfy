/** The synchronized tables of one replica, the operations on them, and what applying a
    sequence of pulled operations does. */
module Tables {
  import opened Basics

  datatype Operation =
    | UpdateProgress(bookId: string, cfi: string, percentage: real)
    | AddBookmark(bookmarkId: string, bookId: string, cfi: string, title: Option<string>)
    | DeleteBookmark(bookmarkId: string)
    | AddAnnotation(annotationId: string, bookId: string, cfiStart: string, cfiEnd: string,
                    colorRgba: string, note: Option<string>)
    | DeleteAnnotation(annotationId: string)
    | UpdatePreference(key: string, value: string)

  /** The `op_data` column: JSON text that either parses to an operation or does not. */
  datatype Payload = Json(op: Operation) | Malformed(text: string)

  datatype ProgressRow = ProgressRow(cfi: string, percentage: real, ts: i64)
  datatype BookmarkRow = BookmarkRow(bookId: string, cfi: string, title: Option<string>, createdAt: i64)
  datatype AnnotationRow = AnnotationRow(bookId: string, cfiStart: string, cfiEnd: string,
                                         colorRgba: string, note: Option<string>, createdAt: i64)
  datatype PreferenceRow = PreferenceRow(value: string, ts: i64)

  datatype Tables = Tables(progress: map<string, ProgressRow>,
                           bookmarks: map<string, BookmarkRow>,
                           annotations: map<string, AnnotationRow>,
                           preferences: map<string, PreferenceRow>)

  const EMPTY := Tables(map[], map[], map[], map[])

  /** `Ok(true)`, `Ok(false)` and `Err` of the original. */
  datatype ApplyResult = Applied | Ignored | Failed

  /** Writes the row of `op`, whatever is stored. `None` is a foreign key that names no registered
      book. */
  function Upsert(books: set<string>, t: Tables, op: Operation, ts: i64): Option<Tables> {
    match op
    case UpdateProgress(book, cfi, pct) =>
      if book in books then Some(t.(progress := t.progress[book := ProgressRow(cfi, pct, ts)])) else None
    case AddBookmark(id, book, cfi, title) =>
      if book in books then Some(t.(bookmarks := t.bookmarks[id := BookmarkRow(book, cfi, title, ts)])) else None
    case DeleteBookmark(id) => Some(t.(bookmarks := t.bookmarks - {id}))
    case AddAnnotation(id, book, from, to, color, note) =>
      if book in books
      then Some(t.(annotations := t.annotations[id := AnnotationRow(book, from, to, color, note, ts)]))
      else None
    case DeleteAnnotation(id) => Some(t.(annotations := t.annotations - {id}))
    case UpdatePreference(key, value) =>
      Some(t.(preferences := t.preferences[key := PreferenceRow(value, ts)]))
  }

  /** The stored stamp of a last-writer-wins row; a missing row counts as 0. */
  function StoredStamp(t: Tables, op: Operation): i64 {
    match op
    case UpdateProgress(book, _, _) => if book in t.progress then t.progress[book].ts else 0
    case UpdatePreference(key, _) => if key in t.preferences then t.preferences[key].ts else 0
    case _ => 0
  }

  /** One pulled operation. Progress and preferences are last-writer-wins on a strict `>`, the
      others are applied unconditionally; a foreign key failure is an error for progress and is
      swallowed for bookmarks and annotations. */
  function ApplyRemote(books: set<string>, t: Tables, p: Payload, ts: i64): (Tables, ApplyResult) {
    match p
    case Malformed(_) => (t, Failed)
    case Json(op) =>
      if (op.UpdateProgress? || op.UpdatePreference?) && ts <= StoredStamp(t, op) then (t, Ignored)
      else
        match Upsert(books, t, op, ts)
        case Some(t') => (t', Applied)
        case None => (t, if op.UpdateProgress? then Failed else Ignored)
  }

  /** A progress write to a book that is not registered, stamped above what is stored for the book. */
  predicate Orphan(books: set<string>, t: Tables, op: Operation, ts: i64) {
    op.UpdateProgress? && op.bookId !in books && (if op.bookId in t.progress then ts > t.progress[op.bookId].ts else ts > 0)
  }

  /** Not newer than the row that is stored. */
  predicate Outdated(t: Tables, op: Operation, ts: i64) {
    || (op.UpdateProgress? && if op.bookId in t.progress then ts <= t.progress[op.bookId].ts else ts <= 0)
    || (op.UpdatePreference? && if op.key in t.preferences then ts <= t.preferences[op.key].ts else ts <= 0)
  }

  /** What a pulled operation is answered. It fails if and only if its text is malformed or it is an orphan.
      It is ignored if and only if it is outdated, or a bookmark or annotation of a book that is not
      registered. In both cases nothing changes. */
  lemma ApplyAnswers(books: set<string>, t: Tables, p: Payload, ts: i64)
    ensures var (t', r) := ApplyRemote(books, t, p, ts);
            && (r == Failed <==> p.Malformed? || Orphan(books, t, p.op, ts))
            && (r == Ignored <==>
                  p.Json? && (Outdated(t, p.op, ts) || ((p.op.AddBookmark? || p.op.AddAnnotation?) && p.op.bookId !in books)))
            && (r != Applied ==> t' == t)
  {
  }

  /** What a local write did: wrote a row and an op-log entry, found nothing to delete, or was
      refused by the foreign key. */
  datatype LocalResult = Logged | NothingToDo | Rejected

  /** A local write through `StateManager`: unconditional, whatever stamp is stored. */
  function LocalWrite(books: set<string>, t: Tables, op: Operation, ts: u64): (Tables, LocalResult) {
    if op.DeleteBookmark? && op.bookmarkId !in t.bookmarks then (t, NothingToDo)
    else if op.DeleteAnnotation? && op.annotationId !in t.annotations then (t, NothingToDo)
    else
      match Upsert(books, t, op, AsI64(ts))
      case Some(t') => (t', Logged)
      case None => (t, Rejected)
  }

  // ---------- Cells: one key at a time ----------

  datatype Key = ProgressKey(book: string) | PreferenceKey(name: string)
               | BookmarkKey(bookmark: string) | AnnotationKey(annotation: string)

  predicate IsLww(k: Key) {
    k.ProgressKey? || k.PreferenceKey?
  }

  function KeyOf(op: Operation): Key {
    match op
    case UpdateProgress(book, _, _) => ProgressKey(book)
    case AddBookmark(id, _, _, _) => BookmarkKey(id)
    case DeleteBookmark(id) => BookmarkKey(id)
    case AddAnnotation(id, _, _, _, _, _) => AnnotationKey(id)
    case DeleteAnnotation(id) => AnnotationKey(id)
    case UpdatePreference(key, _) => PreferenceKey(key)
  }

  datatype Write = Write(op: Operation, ts: i64)

  /** The row stored under a key, given as the write that would produce it. */
  function Cell(t: Tables, k: Key): (c: Option<Write>)
    ensures c.Some? ==> KeyOf(c.value.op) == k
  {
    match k
    case ProgressKey(b) =>
      if b in t.progress
      then Some(Write(UpdateProgress(b, t.progress[b].cfi, t.progress[b].percentage), t.progress[b].ts))
      else None
    case PreferenceKey(n) =>
      if n in t.preferences
      then Some(Write(UpdatePreference(n, t.preferences[n].value), t.preferences[n].ts))
      else None
    case BookmarkKey(id) =>
      if id in t.bookmarks
      then var r := t.bookmarks[id]; Some(Write(AddBookmark(id, r.bookId, r.cfi, r.title), r.createdAt))
      else None
    case AnnotationKey(id) =>
      if id in t.annotations
      then var r := t.annotations[id];
           Some(Write(AddAnnotation(id, r.bookId, r.cfiStart, r.cfiEnd, r.colorRgba, r.note), r.createdAt))
      else None
  }

  /** The tables are determined by their cells. */
  lemma CellsDetermineTables(t: Tables, u: Tables)
    requires forall k :: Cell(t, k) == Cell(u, k)
    ensures t == u
  {
    forall b ensures (b in t.progress <==> b in u.progress) && (b in t.progress ==> t.progress[b] == u.progress[b]) {
      assert Cell(t, ProgressKey(b)) == Cell(u, ProgressKey(b));
    }
    forall b ensures (b in t.preferences <==> b in u.preferences) && (b in t.preferences ==> t.preferences[b] == u.preferences[b]) {
      assert Cell(t, PreferenceKey(b)) == Cell(u, PreferenceKey(b));
    }
    forall b ensures (b in t.bookmarks <==> b in u.bookmarks) && (b in t.bookmarks ==> t.bookmarks[b] == u.bookmarks[b]) {
      assert Cell(t, BookmarkKey(b)) == Cell(u, BookmarkKey(b));
    }
    forall b ensures (b in t.annotations <==> b in u.annotations) && (b in t.annotations ==> t.annotations[b] == u.annotations[b]) {
      assert Cell(t, AnnotationKey(b)) == Cell(u, AnnotationKey(b));
    }
    assert t.progress == u.progress && t.preferences == u.preferences;
    assert t.bookmarks == u.bookmarks && t.annotations == u.annotations;
  }

  function Stamp(c: Option<Write>): i64 {
    if c.None? then 0 else c.value.ts
  }

  predicate NeedsBook(op: Operation) {
    op.UpdateProgress? || op.AddBookmark? || op.AddAnnotation?
  }

  predicate BookKnown(books: set<string>, op: Operation) {
    NeedsBook(op) ==> op.bookId in books
  }

  /** What a write leaves in its own cell when it goes through. */
  function Effect(w: Write): Option<Write> {
    if w.op.DeleteBookmark? || w.op.DeleteAnnotation? then None else Some(w)
  }

  /** A pulled write seen from its own cell. */
  function CellApply(books: set<string>, c: Option<Write>, w: Write): (Option<Write>, ApplyResult) {
    if IsLww(KeyOf(w.op)) && w.ts <= Stamp(c) then (c, Ignored)
    else if BookKnown(books, w.op) then (Effect(w), Applied)
    else (c, if IsLww(KeyOf(w.op)) then Failed else Ignored)
  }

  lemma ApplyOnOwnCell(books: set<string>, t: Tables, w: Write)
    ensures var (t', r) := ApplyRemote(books, t, Json(w.op), w.ts);
            (Cell(t', KeyOf(w.op)), r) == CellApply(books, Cell(t, KeyOf(w.op)), w)
  {
  }

  lemma ApplyOnOtherCell(books: set<string>, t: Tables, w: Write, k: Key)
    requires k != KeyOf(w.op)
    ensures Cell(ApplyRemote(books, t, Json(w.op), w.ts).0, k) == Cell(t, k)
  {
  }

  /** Applying a pulled operation acts on the operation's own cell only, as `CellApply` says. */
  lemma ApplyOnCells(books: set<string>, t: Tables, w: Write, k: Key)
    ensures var (t', r) := ApplyRemote(books, t, Json(w.op), w.ts);
            && r == CellApply(books, Cell(t, KeyOf(w.op)), w).1
            && Cell(t', k) == if k == KeyOf(w.op) then CellApply(books, Cell(t, k), w).0 else Cell(t, k)
  {
    ApplyOnOwnCell(books, t, w);
    if k != KeyOf(w.op) { ApplyOnOtherCell(books, t, w, k); }
  }

  /** A logged local write puts its effect into its own cell, whatever was there; a write that is
      not logged changes nothing. */
  lemma LocalOnCells(books: set<string>, t: Tables, op: Operation, ts: u64, k: Key)
    ensures var (t', r) := LocalWrite(books, t, op, ts);
            && (r.Logged? ==> BookKnown(books, op))
            && Cell(t', k) == if r.Logged? && k == KeyOf(op) then Effect(Write(op, AsI64(ts))) else Cell(t, k)
  {
  }

  /** What a local write is answered. A deletion of a row that is not there finds nothing to do; a write
      for a book that is not registered is rejected; everything else is logged, whatever stamp is stored. */
  lemma LocalAnswers(books: set<string>, t: Tables, op: Operation, ts: u64)
    ensures var (t', r) := LocalWrite(books, t, op, ts);
            && (r == NothingToDo <==>
                  (op.DeleteBookmark? && op.bookmarkId !in t.bookmarks) || (op.DeleteAnnotation? && op.annotationId !in t.annotations))
            && (r == Rejected <==> (op.UpdateProgress? || op.AddBookmark? || op.AddAnnotation?) && op.bookId !in books)
            && (r == Logged ==> Cell(t', KeyOf(op)) == Effect(Write(op, AsI64(ts))))
            && (r != Logged ==> t' == t)
  {
  }

  // ---------- Sequences of pulled operations ----------

  datatype Incoming = Incoming(payload: Payload, ts: i64)

  /** Applies operations in order and stops at the first that fails: the tables then, and how many
      operations went through. */
  function ApplyAll(books: set<string>, t: Tables, ops: seq<Incoming>): (r: (Tables, nat))
    ensures r.1 <= |ops|
    decreases |ops|
  {
    if ops == [] then (t, 0)
    else
      var (t', res) := ApplyRemote(books, t, ops[0].payload, ops[0].ts);
      if res.Failed? then (t, 0)
      else
        var (t'', n) := ApplyAll(books, t', ops[1..]);
        (t'', n + 1)
  }

  lemma {:induction false} ApplyAllConcat(books: set<string>, t: Tables, a: seq<Incoming>, b: seq<Incoming>)
    requires ApplyAll(books, t, a).1 == |a|
    ensures var mid := ApplyAll(books, ApplyAll(books, t, a).0, b);
            ApplyAll(books, t, a + b) == (mid.0, |a| + mid.1)
    decreases |a|
  {
    if a == [] {
      assert a + b == b;
    } else {
      assert (a + b)[1..] == a[1..] + b;
      ApplyAllConcat(books, ApplyRemote(books, t, a[0].payload, a[0].ts).0, a[1..], b);
    }
  }

  /** If everything applies, so does everything but the last, and then the last. */
  lemma {:induction false} FrontApplies(books: set<string>, t: Tables, ops: seq<Incoming>, o: Incoming)
    requires ApplyAll(books, t, ops + [o]).1 == |ops| + 1
    ensures ApplyAll(books, t, ops).1 == |ops|
    ensures !ApplyRemote(books, ApplyAll(books, t, ops).0, o.payload, o.ts).1.Failed?
    decreases |ops|
  {
    if ops == [] {
      assert ops + [o] == [o];
    } else {
      assert (ops + [o])[1..] == ops[1..] + [o];
      FrontApplies(books, ApplyRemote(books, t, ops[0].payload, ops[0].ts).0, ops[1..], o);
    }
  }

  /** How many operations of a run that does not fail were applied rather than ignored. */
  function NumApplied(books: set<string>, t: Tables, ops: seq<Incoming>): nat
    decreases |ops|
  {
    if ops == [] then 0
    else
      var init, last := ops[..|ops| - 1], ops[|ops| - 1];
      NumApplied(books, t, init)
      + if ApplyRemote(books, ApplyAll(books, t, init).0, last.payload, last.ts).1.Applied? then 1 else 0
  }

  /** Operation `i` of a run is answered `Applied`. */
  predicate AppliedAt(books: set<string>, t: Tables, ops: seq<Incoming>, i: nat)
    requires i < |ops|
  {
    ApplyRemote(books, ApplyAll(books, t, ops[..i]).0, ops[i].payload, ops[i].ts).1 == Applied
  }

  lemma AppliedAtFront(books: set<string>, t: Tables, ops: seq<Incoming>, i: nat)
    requires i < |ops| - 1
    ensures AppliedAt(books, t, ops, i) == AppliedAt(books, t, ops[..|ops| - 1], i)
  {
    assert ops[..|ops| - 1][..i] == ops[..i];
  }

  lemma NumAppliedNext(books: set<string>, t: Tables, ops: seq<Incoming>)
    requires ops != []
    ensures NumApplied(books, t, ops)
         == NumApplied(books, t, ops[..|ops| - 1]) + if AppliedAt(books, t, ops, |ops| - 1) then 1 else 0
  {
  }

  ghost predicate AppliedOnes(books: set<string>, t: Tables, ops: seq<Incoming>, applied: set<nat>) {
    forall i: nat :: i in applied <==> i < |ops| && AppliedAt(books, t, ops, i)
  }

  lemma OneMoreApplied(books: set<string>, t: Tables, ops: seq<Incoming>, applied: set<nat>)
    requires ops != [] && AppliedOnes(books, t, ops[..|ops| - 1], applied)
    ensures AppliedOnes(books, t, ops, if AppliedAt(books, t, ops, |ops| - 1) then applied + {|ops| - 1} else applied)
  {
    forall i: nat | i < |ops| - 1 ensures AppliedAt(books, t, ops, i) == AppliedAt(books, t, ops[..|ops| - 1], i) {
      AppliedAtFront(books, t, ops, i);
    }
  }

  /** That number counts the positions of the operations that were applied. */
  lemma {:induction false} NumAppliedCounts(books: set<string>, t: Tables, ops: seq<Incoming>) returns (applied: set<nat>)
    ensures NumApplied(books, t, ops) == |applied| && AppliedOnes(books, t, ops, applied)
    decreases |ops|
  {
    if ops == [] { return {}; }
    applied := NumAppliedCounts(books, t, ops[..|ops| - 1]);
    NumAppliedNext(books, t, ops);
    OneMoreApplied(books, t, ops, applied);
    if AppliedAt(books, t, ops, |ops| - 1) {
      assert |ops| - 1 !in applied;
      applied := applied + {|ops| - 1};
    }
  }

  /** One more operation, applied after a run that went through. */
  lemma AppliesNext(books: set<string>, t: Tables, ops: seq<Incoming>, inc: Incoming)
    requires ApplyAll(books, t, ops).1 == |ops|
    ensures var mid := ApplyAll(books, t, ops).0;
            var (t', res) := ApplyRemote(books, mid, inc.payload, inc.ts);
            && ApplyAll(books, t, ops + [inc]) == (t', |ops| + if res.Failed? then 0 else 1)
            && NumApplied(books, t, ops + [inc]) == NumApplied(books, t, ops) + (if res.Applied? then 1 else 0)
            && (res.Failed? ==> t' == mid)
  {
    ApplyAllConcat(books, t, ops, [inc]);
    var mid := ApplyAll(books, t, ops).0;
    assert ApplyAll(books, ApplyRemote(books, mid, inc.payload, inc.ts).0, [inc][1..]).1 == 0;
    assert (ops + [inc])[..|ops|] == ops;
  }

  predicate OfKey(o: Incoming, k: Key) {
    o.payload.Json? && KeyOf(o.payload.op) == k
  }

  /** Whether the last word on a non-LWW key is spoken by `o`. */
  predicate Effective(books: set<string>, o: Incoming, k: Key) {
    OfKey(o, k) && BookKnown(books, o.payload.op)
  }

  /** After a run that does not fail, a last-writer-wins cell carries a stamp at least that of
      every operation of the run on its key. */
  lemma {:induction false} LwwDominates(books: set<string>, t: Tables, ops: seq<Incoming>, k: Key)
    requires IsLww(k) && ApplyAll(books, t, ops).1 == |ops|
    ensures Stamp(Cell(t, k)) <= Stamp(Cell(ApplyAll(books, t, ops).0, k))
    ensures forall i :: 0 <= i < |ops| && OfKey(ops[i], k) ==> ops[i].ts <= Stamp(Cell(ApplyAll(books, t, ops).0, k))
    decreases |ops|
  {
    if ops != [] {
      var t' := ApplyRemote(books, t, ops[0].payload, ops[0].ts).0;
      ApplyOnCells(books, t, Write(ops[0].payload.op, ops[0].ts), k);
      LwwDominates(books, t', ops[1..], k);
      forall i | 0 <= i < |ops| && OfKey(ops[i], k)
        ensures ops[i].ts <= Stamp(Cell(ApplyAll(books, t, ops).0, k))
      {
        if i > 0 { assert ops[i] == ops[1..][i - 1]; }
      }
    }
  }

  /** Tables whose last-writer-wins cells already dominate every operation of a well-formed run:
      the run cannot fail, leaves those cells alone, and leaves in every other cell what it leaves
      there from any other start `t`, unless nothing in the run touches that cell. */
  lemma {:induction false} DominatedRun(books: set<string>, t: Tables, u: Tables, ops: seq<Incoming>)
    requires ApplyAll(books, t, ops).1 == |ops|
    requires forall i :: 0 <= i < |ops| && ops[i].payload.Json? && IsLww(KeyOf(ops[i].payload.op))
               ==> ops[i].ts <= Stamp(Cell(u, KeyOf(ops[i].payload.op)))
    ensures ApplyAll(books, u, ops).1 == |ops|
    ensures forall k :: IsLww(k) ==> Cell(ApplyAll(books, u, ops).0, k) == Cell(u, k)
    ensures forall k :: !IsLww(k) ==>
              Cell(ApplyAll(books, u, ops).0, k)
              == if exists i :: 0 <= i < |ops| && Effective(books, ops[i], k)
                 then Cell(ApplyAll(books, t, ops).0, k) else Cell(u, k)
    decreases |ops|
  {
    if ops != [] {
      var w := Write(ops[0].payload.op, ops[0].ts);
      var t' := ApplyRemote(books, t, ops[0].payload, ops[0].ts).0;
      var u' := ApplyRemote(books, u, ops[0].payload, ops[0].ts).0;
      forall k ensures Cell(u', k) == if k == KeyOf(w.op) then CellApply(books, Cell(u, k), w).0 else Cell(u, k) {
        ApplyOnCells(books, u, w, k);
      }
      ApplyOnCells(books, u, w, KeyOf(w.op));
      DominatedRun(books, t', u', ops[1..]);
      forall k | !IsLww(k)
        ensures Cell(ApplyAll(books, u, ops).0, k)
             == if exists i :: 0 <= i < |ops| && Effective(books, ops[i], k)
                then Cell(ApplyAll(books, t, ops).0, k) else Cell(u, k)
      {
        ApplyOnCells(books, t, w, k);
        assert (exists i :: 0 <= i < |ops| && Effective(books, ops[i], k))
          <==> Effective(books, ops[0], k) || exists i :: 0 <= i < |ops[1..]| && Effective(books, ops[1..][i], k) by
        {
          forall i | 0 <= i < |ops| && Effective(books, ops[i], k)
            ensures Effective(books, ops[0], k) || exists j :: 0 <= j < |ops[1..]| && Effective(books, ops[1..][j], k)
          {
            if i > 0 { assert Effective(books, ops[1..][i - 1], k); }
          }
          forall i | 0 <= i < |ops[1..]| && Effective(books, ops[1..][i], k)
            ensures Effective(books, ops[i + 1], k)
          {
          }
        }
        if !(exists i :: 0 <= i < |ops[1..]| && Effective(books, ops[1..][i], k)) {
          UntouchedCell(books, t', ops[1..], k);
        }
      }
    }
  }

  /** A cell other than last-writer-wins that no operation of the run affects keeps its row. */
  lemma {:induction false} UntouchedCell(books: set<string>, t: Tables, ops: seq<Incoming>, k: Key)
    requires !IsLww(k)
    requires !(exists i :: 0 <= i < |ops| && Effective(books, ops[i], k))
    ensures Cell(ApplyAll(books, t, ops).0, k) == Cell(t, k)
    decreases |ops|
  {
    if ops != [] {
      assert !Effective(books, ops[0], k);
      if ops[0].payload.Json? { ApplyOnCells(books, t, Write(ops[0].payload.op, ops[0].ts), k); }
      var t' := ApplyRemote(books, t, ops[0].payload, ops[0].ts).0;
      assert forall i :: 0 <= i < |ops[1..]| ==> ops[1..][i] == ops[i + 1];
      UntouchedCell(books, t', ops[1..], k);
    }
  }

  /** Replaying a prefix that went through, as a pull does after a crash before its cursor was
      saved, and then the whole sequence: the same tables, and the same first failure, as applying
      the sequence once. */
  lemma ReplaySafe(books: set<string>, t: Tables, ops: seq<Incoming>, n: nat)
    requires n <= |ops| && ApplyAll(books, t, ops[..n]).1 == n
    ensures ApplyAll(books, ApplyAll(books, t, ops[..n]).0, ops) == ApplyAll(books, t, ops)
  {
    var p := ops[..n];
    var u := ApplyAll(books, t, p).0;
    forall i | 0 <= i < n && p[i].payload.Json? && IsLww(KeyOf(p[i].payload.op))
      ensures p[i].ts <= Stamp(Cell(u, KeyOf(p[i].payload.op)))
    {
      LwwDominates(books, t, p, KeyOf(p[i].payload.op));
    }
    DominatedRun(books, t, u, p);
    CellsDetermineTables(ApplyAll(books, u, p).0, u);
    ApplyAllConcat(books, u, p, ops[n..]);
    ApplyAllConcat(books, t, p, ops[n..]);
    assert p + ops[n..] == ops;
  }

  /** An operation that stops a pull at tables `t`. */
  predicate Stops(books: set<string>, t: Tables, o: Incoming) {
    o.payload.Malformed? || Orphan(books, t, o.payload.op, o.ts)
  }

  /** Whether an operation stops a pull does not depend on what was applied before: nothing applied changes
      the progress of a book that is not registered. */
  lemma StopsAlike(books: set<string>, t: Tables, o: Incoming, x: Incoming)
    requires !Stops(books, t, o)
    ensures Stops(books, ApplyRemote(books, t, o.payload, o.ts).0, x) <==> Stops(books, t, x)
  {
    ApplyAnswers(books, t, o.payload, o.ts);
    if x.payload.Json? && x.payload.op.UpdateProgress? {
      var k := ProgressKey(x.payload.op.bookId);
      ApplyOnCells(books, t, Write(o.payload.op, o.ts), k);
    }
  }

  /** A list of operations goes through if and only if none of them is malformed, and no progress write in it
      for a book that is not registered is stamped above the row stored at the start. */
  lemma {:induction false} AllApplyIff(books: set<string>, t: Tables, ops: seq<Incoming>)
    ensures ApplyAll(books, t, ops).1 == |ops| <==> forall i :: 0 <= i < |ops| ==> !Stops(books, t, ops[i])
    decreases |ops|
  {
    if ops != [] {
      ApplyAnswers(books, t, ops[0].payload, ops[0].ts);
      if !Stops(books, t, ops[0]) {
        var t' := ApplyRemote(books, t, ops[0].payload, ops[0].ts).0;
        AllApplyIff(books, t', ops[1..]);
        forall i | 0 <= i < |ops| ensures Stops(books, t', ops[i]) <==> Stops(books, t, ops[i]) {
          StopsAlike(books, t, ops[0], ops[i]);
        }
        assert forall i :: 0 < i < |ops| ==> ops[i] == ops[1..][i - 1];
        assert forall i :: 0 <= i < |ops[1..]| ==> ops[1..][i] == ops[i + 1];
      }
    }
  }

  /** What fails after operations that went through would have failed before them. */
  lemma FailingStops(books: set<string>, t: Tables, ops: seq<Incoming>, o: Incoming)
    requires ApplyAll(books, t, ops).1 == |ops|
    requires ApplyRemote(books, ApplyAll(books, t, ops).0, o.payload, o.ts).1.Failed?
    ensures Stops(books, t, o)
  {
    AppliesNext(books, t, ops, o);
    AllApplyIff(books, t, ops);
    AllApplyIff(books, t, ops + [o]);
  }
}
