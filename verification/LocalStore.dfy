/** A device's database: the tables of `Tables`, the op log, and the pull cursor; and the state
    manager that pairs every local write with an op-log entry. */
module LocalStore {
  import opened Basics
  import opened Tables

  /** A row of `op_log`. Its `id` is its position plus one; rows are never deleted. */
  datatype LogEntry = LogEntry(op: Operation, ts: i64, synced: bool)

  // ---------- The unsynced operations ----------

  /** An unsynced row as it is handed to the engine; `pos` stands for the local id. */
  datatype UnsyncedOp = UnsyncedOp(pos: nat, op: Operation, ts: i64)

  /** Inserts a row behind all rows whose stamp is not larger. */
  function InsertByStamp(us: seq<UnsyncedOp>, u: UnsyncedOp): seq<UnsyncedOp> {
    if us == [] || us[|us| - 1].ts <= u.ts then us + [u]
    else InsertByStamp(us[..|us| - 1], u) + [us[|us| - 1]]
  }

  /** `WHERE synced = 0 ORDER BY hlc_ts ASC`, over the first `n` rows. */
  function Unsynced(log: seq<LogEntry>, n: nat): seq<UnsyncedOp>
    requires n <= |log|
  {
    if n == 0 then []
    else if log[n - 1].synced then Unsynced(log, n - 1)
    else InsertByStamp(Unsynced(log, n - 1), UnsyncedOp(n - 1, log[n - 1].op, log[n - 1].ts))
  }

  predicate Ascending(us: seq<UnsyncedOp>) {
    forall i, j :: 0 <= i < j < |us| ==> us[i].ts <= us[j].ts && us[i].pos != us[j].pos
  }

  /** A listing of the unsynced rows: each once, stamps ascending. The query leaves the order of
      equal stamps open. */
  ghost predicate IsUnsyncedList(log: seq<LogEntry>, us: seq<UnsyncedOp>) {
    && Ascending(us)
    && (forall u :: u in us <==> u.pos < |log| && !log[u.pos].synced && u == UnsyncedOp(u.pos, log[u.pos].op, log[u.pos].ts))
  }

  lemma {:induction false} InsertProperties(us: seq<UnsyncedOp>, u: UnsyncedOp)
    requires Ascending(us) && forall i :: 0 <= i < |us| ==> us[i].pos != u.pos
    ensures Ascending(InsertByStamp(us, u))
    ensures forall v :: v in InsertByStamp(us, u) <==> v == u || v in us
    decreases |us|
  {
    if !(us == [] || us[|us| - 1].ts <= u.ts) {
      var init, last := us[..|us| - 1], us[|us| - 1];
      InsertProperties(init, u);
      var front := InsertByStamp(init, u);
      forall i | 0 <= i < |front| ensures front[i].ts <= last.ts && front[i].pos != last.pos {
        assert front[i] in front;
      }
      assert forall v :: v in us <==> v in init || v == last;
    }
  }

  /** What the query returns is a listing of the unsynced rows. */
  lemma {:induction false} UnsyncedIsListing(log: seq<LogEntry>, n: nat)
    requires n <= |log|
    ensures IsUnsyncedList(log[..n], Unsynced(log, n))
  {
    if n > 0 {
      UnsyncedIsListing(log, n - 1);
      var us, u := Unsynced(log, n - 1), UnsyncedOp(n - 1, log[n - 1].op, log[n - 1].ts);
      forall i | 0 <= i < |us| ensures us[i].pos < n - 1 {
        assert us[i] in us;
      }
      InsertProperties(us, u);
      var r := Unsynced(log, n);
      forall v
        ensures v in r <==> v.pos < n && !log[..n][v.pos].synced && v == UnsyncedOp(v.pos, log[..n][v.pos].op, log[..n][v.pos].ts)
      {
        if v.pos < n - 1 { assert log[..n][v.pos] == log[..n - 1][v.pos]; }
        assert v in r <==> v in us || (v == u && !log[n - 1].synced);
      }
    }
  }

  /** `UPDATE op_log SET synced = 1 WHERE id IN (...)`. */
  function MarkSynced(log: seq<LogEntry>, ids: seq<nat>): (r: seq<LogEntry>)
    ensures |r| == |log|
    ensures forall p: nat :: p < |log| ==> r[p] == if p in ids then log[p].(synced := true) else log[p]
  {
    seq(|log|, p requires 0 <= p < |log| => if p in ids then log[p].(synced := true) else log[p])
  }

  lemma MarkInTwoParts(log: seq<LogEntry>, a: seq<nat>, b: seq<nat>)
    ensures MarkSynced(MarkSynced(log, a), b) == MarkSynced(log, a + b)
  {
  }

  /** The database handle. */
  class Database {
    const books: set<string>
    var progress: map<string, ProgressRow>
    var bookmarks: map<string, BookmarkRow>
    var annotations: map<string, AnnotationRow>
    var preferences: map<string, PreferenceRow>
    var opLog: seq<LogEntry>
    var pullCursor: Option<nat>

    constructor (books: set<string>)
      ensures this.books == books && View() == EMPTY && opLog == [] && pullCursor == None
    {
      this.books := books;
      progress, bookmarks, annotations, preferences := map[], map[], map[], map[];
      opLog, pullCursor := [], None;
    }

    function View(): Tables
      reads this
    {
      Tables(progress, bookmarks, annotations, preferences)
    }

    /** The tables after writing the row of `op`, or the tables as they are if that is refused. */
    function Written(op: Operation, ts: i64): Tables
      reads this
    {
      match Upsert(books, View(), op, ts)
      case Some(t) => t
      case None => View()
    }

    method UpsertProgress(book: string, cfi: string, percentage: real, ts: u64) returns (ok: bool)
      modifies `progress
      ensures ok <==> book in books
      ensures View() == old(Written(UpdateProgress(book, cfi, percentage), AsI64(ts)))
      ensures progress == if ok then old(progress)[book := ProgressRow(cfi, percentage, AsI64(ts))] else old(progress)
    {
      ok := book in books;
      if ok { progress := progress[book := ProgressRow(cfi, percentage, AsI64(ts))]; }
    }

    method PutBookmark(id: string, row: BookmarkRow) returns (ok: bool)
      modifies `bookmarks
      ensures ok <==> row.bookId in books
      ensures View() == old(Written(AddBookmark(id, row.bookId, row.cfi, row.title), row.createdAt))
      ensures bookmarks == if ok then old(bookmarks)[id := row] else old(bookmarks)
    {
      ok := row.bookId in books;
      if ok { bookmarks := bookmarks[id := row]; }
    }

    method RemoveBookmark(id: string) returns (deleted: bool)
      modifies `bookmarks
      ensures deleted <==> id in old(bookmarks)
      ensures View() == old(Written(DeleteBookmark(id), 0))
      ensures bookmarks == old(bookmarks) - {id}
    {
      deleted := id in bookmarks;
      bookmarks := bookmarks - {id};
    }

    method PutAnnotation(id: string, row: AnnotationRow) returns (ok: bool)
      modifies `annotations
      ensures ok <==> row.bookId in books
      ensures View() == old(Written(AddAnnotation(id, row.bookId, row.cfiStart, row.cfiEnd, row.colorRgba, row.note), row.createdAt))
      ensures annotations == if ok then old(annotations)[id := row] else old(annotations)
    {
      ok := row.bookId in books;
      if ok { annotations := annotations[id := row]; }
    }

    method RemoveAnnotation(id: string) returns (deleted: bool)
      modifies `annotations
      ensures deleted <==> id in old(annotations)
      ensures View() == old(Written(DeleteAnnotation(id), 0))
      ensures annotations == old(annotations) - {id}
    {
      deleted := id in annotations;
      annotations := annotations - {id};
    }

    method SetPreference(key: string, value: string, ts: u64)
      modifies `preferences
      ensures View() == old(Written(UpdatePreference(key, value), AsI64(ts)))
      ensures preferences == old(preferences)[key := PreferenceRow(value, AsI64(ts))]
    {
      preferences := preferences[key := PreferenceRow(value, AsI64(ts))];
    }

    method WriteOpLog(op: Operation, ts: u64)
      modifies `opLog
      ensures opLog == old(opLog) + [LogEntry(op, AsI64(ts), false)]
    {
      opLog := opLog + [LogEntry(op, AsI64(ts), false)];
    }

    /** The unsynced rows, each once, in an order in which they may be pushed. */
    method GetUnsyncedOps() returns (us: seq<UnsyncedOp>)
      ensures IsUnsyncedList(opLog, us)
    {
      UnsyncedIsListing(opLog, |opLog|);
      assert opLog[..|opLog|] == opLog;
      us := Unsynced(opLog, |opLog|);
    }

    method MarkOpsSynced(ids: seq<nat>)
      modifies `opLog
      ensures opLog == MarkSynced(old(opLog), ids)
    {
      if ids != [] { opLog := MarkSynced(opLog, ids); }
    }

    method SetPullCursor(cursor: nat)
      modifies `pullCursor
      ensures pullCursor == Some(cursor) && View() == old(View())
    {
      pullCursor := Some(cursor);
    }

    /** Applies one pulled operation: exactly the effect and the answer of `ApplyRemote`. It fails if and only
        if the text is malformed, or it is a progress write for a book that is not registered, stamped above
        what is stored. Then, and when it is ignored, nothing changes. */
    method ApplyRemoteOp(p: Payload, ts: i64) returns (r: ApplyResult)
      modifies `progress, `bookmarks, `annotations, `preferences
      ensures (View(), r) == ApplyRemote(books, old(View()), p, ts)
      ensures r.Failed? <==> p.Malformed? || old(Orphan(books, View(), p.op, ts))
      ensures r.Ignored? <==>
                p.Json? && (old(Outdated(View(), p.op, ts)) || ((p.op.AddBookmark? || p.op.AddAnnotation?) && p.op.bookId !in books))
      ensures !r.Applied? ==> View() == old(View())
    {
      ApplyAnswers(books, View(), p, ts);
      if p.Malformed? { return Failed; }
      match p.op
      case UpdateProgress(book, cfi, pct) =>
        var stored := if book in progress then progress[book].ts else 0;
        if ts > stored {
          var ok := UpsertProgress(book, cfi, pct, AsU64(ts));
          r := if ok then Applied else Failed;
        } else {
          r := Ignored;
        }
      case AddBookmark(id, book, cfi, title) =>
        var ok := PutBookmark(id, BookmarkRow(book, cfi, title, ts));
        r := if ok then Applied else Ignored;
      case DeleteBookmark(id) =>
        var _ := RemoveBookmark(id);
        r := Applied;
      case AddAnnotation(id, book, from, to, color, note) =>
        var ok := PutAnnotation(id, AnnotationRow(book, from, to, color, note, ts));
        r := if ok then Applied else Ignored;
      case DeleteAnnotation(id) =>
        var _ := RemoveAnnotation(id);
        r := Applied;
      case UpdatePreference(key, value) =>
        var stored := if key in preferences then preferences[key].ts else 0;
        if ts > stored {
          SetPreference(key, value, AsU64(ts));
          r := Applied;
        } else {
          r := Ignored;
        }
    }
  }

  /** The entry point for local changes: each writes its row and then appends to the op log. */
  class StateManager {
    const db: Database

    constructor (db: Database)
      ensures this.db == db
    {
      this.db := db;
    }

    /** What every local change does: the tables and the answer are those of `LocalWrite`, and the
        op log gains an unsynced entry exactly when a row was written. */
    twostate predicate Did(op: Operation, ts: u64, r: LocalResult)
      reads db
    {
      && (db.View(), r) == LocalWrite(db.books, old(db.View()), op, ts)
      && db.opLog == old(db.opLog) + (if r.Logged? then [LogEntry(op, AsI64(ts), false)] else [])
      && db.pullCursor == old(db.pullCursor)
    }

    method UpdateProgress(book: string, cfi: string, percentage: real, ts: u64) returns (r: LocalResult)
      modifies db
      ensures Did(Operation.UpdateProgress(book, cfi, percentage), ts, r)
      ensures r == if book in db.books then Logged else Rejected
      ensures r.Logged? ==> db.progress == old(db.progress)[book := ProgressRow(cfi, percentage, AsI64(ts))]
    {
      var ok := db.UpsertProgress(book, cfi, percentage, ts);
      if !ok { return Rejected; }
      db.WriteOpLog(Operation.UpdateProgress(book, cfi, percentage), ts);
      return Logged;
    }

    method AddBookmark(id: string, book: string, cfi: string, title: Option<string>, createdAt: u64) returns (r: LocalResult)
      modifies db
      ensures Did(Operation.AddBookmark(id, book, cfi, title), createdAt, r)
      ensures r == if book in db.books then Logged else Rejected
      ensures r.Logged? ==> db.bookmarks == old(db.bookmarks)[id := BookmarkRow(book, cfi, title, AsI64(createdAt))]
    {
      var ok := db.PutBookmark(id, BookmarkRow(book, cfi, title, AsI64(createdAt)));
      if !ok { return Rejected; }
      db.WriteOpLog(Operation.AddBookmark(id, book, cfi, title), createdAt);
      return Logged;
    }

    method DeleteBookmark(id: string, ts: u64) returns (r: LocalResult)
      modifies db
      ensures Did(Operation.DeleteBookmark(id), ts, r)
      ensures r == if id in old(db.bookmarks) then Logged else NothingToDo
      ensures id !in db.bookmarks && db.bookmarks == old(db.bookmarks) - {id}
    {
      var deleted := db.RemoveBookmark(id);
      if !deleted {
        assert db.bookmarks == old(db.bookmarks);
        return NothingToDo;
      }
      db.WriteOpLog(Operation.DeleteBookmark(id), ts);
      return Logged;
    }

    method AddAnnotation(id: string, book: string, from: string, to: string, color: string,
                         note: Option<string>, createdAt: u64) returns (r: LocalResult)
      modifies db
      ensures Did(Operation.AddAnnotation(id, book, from, to, color, note), createdAt, r)
      ensures r == if book in db.books then Logged else Rejected
      ensures r.Logged? ==> db.annotations == old(db.annotations)[id := AnnotationRow(book, from, to, color, note, AsI64(createdAt))]
    {
      var ok := db.PutAnnotation(id, AnnotationRow(book, from, to, color, note, AsI64(createdAt)));
      if !ok { return Rejected; }
      db.WriteOpLog(Operation.AddAnnotation(id, book, from, to, color, note), createdAt);
      return Logged;
    }

    method DeleteAnnotation(id: string, ts: u64) returns (r: LocalResult)
      modifies db
      ensures Did(Operation.DeleteAnnotation(id), ts, r)
      ensures r == if id in old(db.annotations) then Logged else NothingToDo
      ensures id !in db.annotations && db.annotations == old(db.annotations) - {id}
    {
      var deleted := db.RemoveAnnotation(id);
      if !deleted {
        assert db.annotations == old(db.annotations);
        return NothingToDo;
      }
      db.WriteOpLog(Operation.DeleteAnnotation(id), ts);
      return Logged;
    }

    method SetPreference(key: string, value: string, ts: u64) returns (r: LocalResult)
      modifies db
      ensures Did(Operation.UpdatePreference(key, value), ts, r)
      ensures r.Logged? && db.preferences == old(db.preferences)[key := PreferenceRow(value, AsI64(ts))]
    {
      db.SetPreference(key, value, ts);
      db.WriteOpLog(Operation.UpdatePreference(key, value), ts);
      return Logged;
    }
  }
}
