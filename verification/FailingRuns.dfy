/** Runs from the start that miss one demand of a convergence theorem each and end, at rest, in
    disagreement: distinct stamps for different writes, stamps above the stored row, a row and its op-log
    entry written together, the same registered books, and engines that skip nothing. */
module FailingRuns {
  import opened Basics
  import opened Tables
  import opened SyncServer
  import opened LocalStore
  import opened SyncEngine
  import opened SyncRuns
  import opened Convergence
  import opened MarkConvergence
  import opened EngineRuns
  import opened RunSteps
  import opened Divergence

  function Device(name: string, engine: string, books: set<string>): Replica {
    Replica("u", name, engine, books, EMPTY, [], 0, Idle, Quiet, {})
  }

  /** Two new devices of one user, whose engines know themselves as `e` and `f`. */
  function Two(e: string, f: string, books: set<string>): System {
    System([], [Device("a", e, {"b"}), Device("c", f, books)])
  }

  lemma TwoStart(d: Demands, e: string, f: string, books: set<string>)
    requires e != "c" && f != "a"
    ensures var s := Two(e, f, books);
            && Initial(s) && SkipsOnlyOwn(s) && Reaches(d, s, [], s) && Pair(s, 0, 1)
            && (books == {"b"} ==> SameBooks(s)) && (e != "a" && f != "c" ==> SkipsNothing(s))
  {
  }

  /** A round of two devices leaves them quiescent. */
  lemma TwoAtRest(s: System, t: System)
    requires |s.reps| == 2 && RoundOf(s, t, 0, 1) && Pair(t, 0, 1)
    ensures Quiescent(t, t.reps[0].user)
    ensures forall k :: AgreeOn(t, t.reps[0].user, k) <==> Cell(t.reps[0].tables, k) == Cell(t.reps[1].tables, k)
  {
    assert forall r :: r in t.reps ==> r == t.reps[0] || r == t.reps[1];
  }

  /** Two writes to one key in the log: its top is unique unless they tie. */
  lemma TwoTops(log: seq<ServerOp>, one: Operation, two: Operation, ts1: i64, ts2: i64)
    requires |log| == 2 && log[0].user == log[1].user == "u" && KeyOf(one) == KeyOf(two) && one != two
    requires log[0].payload == Json(one) && log[0].ts == ts1 && log[1].payload == Json(two) && log[1].ts == ts2
    ensures UniqueTop(log, "u", KeyOf(one)) <==> ts1 != ts2
  {
    assert WriteAt(log, 0, "u", KeyOf(one)) && WriteAt(log, 1, "u", KeyOf(one));
    if ts1 == ts2 { assert TopAt(log, 0, "u", KeyOf(one)) && TopAt(log, 1, "u", KeyOf(one)); }
  }

  /** Two devices write one preference under the same stamp, which two clocks give when they tick at the
      same time. Everything that the last-writer-wins theorem demands is met, but for the tie. */
  lemma TiedStampsDiverge() returns (s: System, es: seq<Event>)
    ensures Initial(s) && SkipsNothing(s) && SameBooks(s) && GoodRun(LWW_DEMANDS, s, es) && Exec(s, es).Some?
    ensures Quiescent(Exec(s, es).value, "u")
    ensures !UniqueTop(Exec(s, es).value.log, "u", PreferenceKey("t")) && !AgreeOn(Exec(s, es).value, "u", PreferenceKey("t"))
  {
    var one, two := UpdatePreference("t", "d"), UpdatePreference("t", "l");
    var t;
    s := Two("ffi", "ffi", {"b"});
    TwoStart(LWW_DEMANDS, "ffi", "ffi", {"b"});
    es, t := ConcurrentWritesAgreeIff(LWW_DEMANDS, s, [], s, 0, 1, one, two, 10, 10, "1", "2");
    TwoAtRest(s, t);
    TwoTops(t.log, one, two, 10, 10);
  }

  /** An engine that skips its own operations breaks the convergence of bookmarks: two devices that set
      the same bookmark end, at rest, each with the other's. Everything else the theorem asks for holds. */
  lemma SkippingOwnDiverges() returns (s: System, es: seq<Event>)
    ensures Initial(s) && SkipsOnlyOwn(s) && SameBooks(s) && GoodRun(MARK_DEMANDS, s, es) && Exec(s, es).Some?
    ensures Quiescent(Exec(s, es).value, "u") && !AgreeOn(Exec(s, es).value, "u", BookmarkKey("x"))
  {
    var one, two := AddBookmark("x", "b", "/2", Some("one")), AddBookmark("x", "b", "/4", Some("two"));
    var t;
    s := Two("a", "c", {"b"});
    TwoStart(MARK_DEMANDS, "a", "c", {"b"});
    es, t := ConcurrentMarksAgreeIff(MARK_DEMANDS, s, [], s, 0, 1, one, two, 1, 2, "1", "2");
    TwoAtRest(s, t);
  }

  /** A device that has not registered the book never gets the bookmark, and nothing tells. */
  lemma UnknownBookDiverges() returns (s: System, es: seq<Event>)
    ensures Initial(s) && SkipsNothing(s) && !SameBooks(s) && GoodRun(MARK_DEMANDS, s, es) && Exec(s, es).Some?
    ensures Quiescent(Exec(s, es).value, "u") && !AgreeOn(Exec(s, es).value, "u", BookmarkKey("x"))
  {
    var t;
    s := Two("ffi", "ffi", {});
    TwoStart(MARK_DEMANDS, "ffi", "ffi", {});
    assert s.reps[0].books != s.reps[1].books by { assert "b" in s.reps[0].books; }
    es, t := OneWriteTravels(MARK_DEMANDS, s, [], s, 0, 1, AddBookmark("x", "b", "/2", None), 1, "1");
    TwoAtRest(s, t);
  }

  /** A local write under a stamp below the stored one breaks convergence although no two writes share a
      stamp: the other device keeps the older row. */
  lemma StaleStampDiverges() returns (s: System, es: seq<Event>)
    ensures Initial(s) && SkipsNothing(s) && SameBooks(s) && GoodRun(Demands(true, true, false), s, es) && Exec(s, es).Some?
    ensures Quiescent(Exec(s, es).value, "u") && UniqueTop(Exec(s, es).value.log, "u", PreferenceKey("t"))
    ensures !AgreeOn(Exec(s, es).value, "u", PreferenceKey("t"))
  {
    var d := Demands(true, true, false);
    var dark, light := UpdatePreference("t", "d"), UpdatePreference("t", "l");
    s := Two("ffi", "ffi", {"b"});
    TwoStart(d, "ffi", "ffi", {"b"});
    var es1, mid := OneWriteTravels(d, s, [], s, 0, 1, dark, 10, "1");
    var t;
    StillUnknown([], mid.log[0], "2");
    assert [] + [mid.log[0]] == mid.log;
    es, t := OneWriteTravels(d, s, es1, mid, 1, 0, light, 5, "2");
    TwoAtRest(mid, t);
    TwoTops(t.log, dark, light, 10, 5);
  }

  /** A crash between a row and its op-log entry breaks convergence: the row never leaves the device. */
  lemma TornWriteDiverges() returns (s: System, es: seq<Event>)
    ensures Initial(s) && SkipsNothing(s) && SameBooks(s) && GoodRun(Demands(true, false, true), s, es) && Exec(s, es).Some?
    ensures Quiescent(Exec(s, es).value, "u") && !AgreeOn(Exec(s, es).value, "u", PreferenceKey("t"))
  {
    var d, op, k := Demands(true, false, true), UpdatePreference("t", "d"), PreferenceKey("t");
    s := Two("ffi", "ffi", {"b"});
    TwoStart(d, "ffi", "ffi", {"b"});
    TwoAtRest(s, s);
    TornWriteAgreesIff(s, 0, 1, op, 10, k);
    Extend(d, s, [], s, Event(0, Torn(op, 10)), Step(s, 0, Torn(op, 10)).value);
    es := [] + [Event(0, Torn(op, 10))];
  }

  /** With ids drawn afresh at every listing, as the storage adapter does, a lost reply puts an
      operation into the log twice. */
  lemma FreshIdsDuplicate() returns (s: System, es: seq<Event>)
    ensures Initial(s) && GoodRun(LWW_DEMANDS, s, es) && Exec(s, es).Some?
    ensures !UniqueEntries(Exec(s, es).value.log)
  {
    var d, op := LWW_DEMANDS, UpdatePreference("t", "d");
    s := Two("ffi", "ffi", {"b"});
    TwoStart(d, "ffi", "ffi", {"b"});
    var es1, wrote := WriteLocally(d, s, [], s, 0, op, 10);
    var es2, once := PushUnanswered(d, s, es1, wrote, 0, "1");
    var t;
    es, t := PushUnanswered(d, s, es2, once, 0, "2");
    assert t.log[0].src == t.log[1].src;
  }

  /** A push of the one listed operation whose reply is lost: the row is in the log, the entry unsynced. */
  lemma PushUnanswered(d: Demands, s: System, es: seq<Event>, mid: System, i: nat, id: string) returns (es': seq<Event>, t: System)
    requires Reaches(d, s, es, mid) && i < |mid.reps| && !Known(mid.log, mid.reps[i].user, id)
    requires |mid.reps[i].opLog| == 1 && !mid.reps[i].opLog[0].synced && mid.reps[i].push.Quiet?
    ensures Reaches(d, s, es', t)
    ensures var r, e := mid.reps[i], mid.reps[i].opLog[0];
            t == System(mid.log + [ServerOp(r.user, id, Json(e.op), e.ts, r.device, 0)], mid.reps)
  {
    var r, e := mid.reps[i], mid.reps[i].opLog[0];
    LastIsListed(r.opLog);
    var us := [UnsyncedOp(0, e.op, e.ts)];
    var es2 := PushIsReachable(d, mid, i, us, Single(id), 0, 1);
    OnePushed(mid.log, r, r.opLog, us, id);
    assert MarkSynced(r.opLog, Positions(us)[..0]) == r.opLog;
    assert mid.reps[i := r] == mid.reps;
    t := System(mid.log + [ServerOp(r.user, id, Json(e.op), e.ts, r.device, 0)], mid.reps);
    Continue(d, s, es, mid, es2, t);
    es' := es + es2;
  }
}
