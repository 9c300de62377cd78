/** Steps of runs put together: a local write, a push, a pull of one replica at rest. */
module RunSteps {
  import opened Basics
  import opened Tables
  import opened SyncServer
  import opened LocalStore
  import opened PullSpec
  import opened SyncEngine
  import opened SyncRuns
  import opened EngineRuns

  function Single(id: string): nat -> string { _ => id }

  /** The tables after taking rows one by one. */
  function AfterRows(r: Replica, t: Tables, rows: seq<RemoteOp>): Tables
    decreases |rows|
  {
    if rows == [] then t
    else
      var x := rows[0].op;
      AfterRows(r, if x.device == r.engineDevice then t else ApplyRemote(r.books, t, x.payload, x.ts).0, rows[1..])
  }

  /** Only a progress write can fail, on a book that is not registered. */
  predicate NeverFails(r: Replica, op: Operation) {
    BookKnown(r.books, op) || !IsLww(KeyOf(op))
  }

  predicate Applicable(r: Replica, rows: seq<RemoteOp>) {
    forall k :: 0 <= k < |rows| ==> rows[k].op.payload.Json? && NeverFails(r, rows[k].op.payload.op)
  }

  /** Replica `i` takes everything that is left of its page. */
  lemma {:induction false} TakeAll(d: Demands, s: System, es: seq<Event>, mid: System, i: nat) returns (es': seq<Event>, t: System)
    requires Reaches(d, s, es, mid) && i < |mid.reps| && mid.reps[i].pull.Paging?
    requires Applicable(mid.reps[i], mid.reps[i].pull.page)
    ensures Reaches(d, s, es', t) && t.log == mid.log && |t.reps| == |mid.reps|
    ensures forall j :: 0 <= j < |t.reps| && j != i ==> t.reps[j] == mid.reps[j]
    ensures var r, q := mid.reps[i], t.reps[i];
            && SameIdentity(q, r) && q.opLog == r.opLog && q.push == r.push && q.cursor == r.cursor
            && q.tables == AfterRows(r, r.tables, r.pull.page)
            && q.pull == Paging(if r.pull.page == [] then r.pull.at else r.pull.page[|r.pull.page| - 1].seqNo, [])
    decreases |mid.reps[i].pull.page|
  {
    var r := mid.reps[i];
    if r.pull.page == [] { return es, mid; }
    var next := TakeStep(d, s, es, mid, i);
    assert Applicable(next.reps[i], r.pull.page[1..]);
    es', t := TakeAll(d, s, es + [Event(i, TakeNext)], next, i);
    SameIdentityRows(r, next.reps[i], next.reps[i].tables, r.pull.page[1..]);
  }

  /** Replica `i` takes the next row of its page. */
  lemma TakeStep(d: Demands, s: System, es: seq<Event>, mid: System, i: nat) returns (t: System)
    requires Reaches(d, s, es, mid) && i < |mid.reps| && mid.reps[i].pull.Paging? && mid.reps[i].pull.page != []
    requires Applicable(mid.reps[i], mid.reps[i].pull.page)
    ensures Reaches(d, s, es + [Event(i, TakeNext)], t) && t.log == mid.log && |t.reps| == |mid.reps|
    ensures forall j :: 0 <= j < |t.reps| && j != i ==> t.reps[j] == mid.reps[j]
    ensures var r, q, x := mid.reps[i], t.reps[i], mid.reps[i].pull.page[0];
            && SameIdentity(q, r) && q.pull == Paging(x.seqNo, r.pull.page[1..]) && q.opLog == r.opLog && q.push == r.push && q.cursor == r.cursor
            && q.tables == if x.op.device == r.engineDevice then r.tables else ApplyRemote(r.books, r.tables, x.op.payload, x.op.ts).0
  {
    TakeOneRow(mid, i);
    t := Step(mid, i, TakeNext).value;
    Extend(d, s, es, mid, Event(i, TakeNext), t);
  }

  lemma {:induction false} SameIdentityRows(r: Replica, q: Replica, t: Tables, rows: seq<RemoteOp>)
    requires SameIdentity(r, q)
    ensures AfterRows(r, t, rows) == AfterRows(q, t, rows)
    decreases |rows|
  {
    if rows != [] {
      var x := rows[0].op;
      SameIdentityRows(r, q, if x.device == r.engineDevice then t else ApplyRemote(r.books, t, x.payload, x.ts).0, rows[1..]);
    }
  }

  lemma TakeOneRow(s: System, i: nat)
    requires i < |s.reps| && s.reps[i].pull.Paging? && s.reps[i].pull.page != []
    requires Applicable(s.reps[i], s.reps[i].pull.page)
    ensures var r, x := s.reps[i], s.reps[i].pull.page[0];
            var t := Step(s, i, TakeNext);
            && t.Some? && t.value.log == s.log && |t.value.reps| == |s.reps|
            && (forall j :: 0 <= j < |s.reps| && j != i ==> t.value.reps[j] == s.reps[j])
            && var q := t.value.reps[i];
               && SameIdentity(q, r) && q.pull == Paging(x.seqNo, r.pull.page[1..]) && q.opLog == r.opLog && q.push == r.push && q.cursor == r.cursor
               && q.tables == if x.op.device == r.engineDevice then r.tables else ApplyRemote(r.books, r.tables, x.op.payload, x.op.ts).0
  {
    assert s.reps[i].pull.page[0].op.payload.Json?;
  }

  /** Replica `i` pulls everything there is, in one page. */
  lemma PullAll(d: Demands, s: System, es: seq<Event>, mid: System, i: nat) returns (es': seq<Event>, t: System)
    requires Reaches(d, s, es, mid) && i < |mid.reps| && mid.reps[i].pull.Idle?
    requires var rows := Rows(mid.log, mid.reps[i].user, mid.reps[i].cursor); |rows| <= PAGE_SIZE && Applicable(mid.reps[i], rows)
    ensures Reaches(d, s, es', t) && t.log == mid.log && |t.reps| == |mid.reps|
    ensures forall j :: 0 <= j < |t.reps| && j != i ==> t.reps[j] == mid.reps[j]
    ensures var r, q := mid.reps[i], t.reps[i];
            var rows := Rows(mid.log, r.user, r.cursor);
            && SameIdentity(q, r) && q.opLog == r.opLog && q.push == r.push && q.pull.Idle?
            && q.tables == AfterRows(r, r.tables, rows)
            && q.cursor == if rows == [] then r.cursor else rows[|rows| - 1].seqNo
  {
    var r := mid.reps[i];
    var rows := Rows(mid.log, r.user, r.cursor);
    var fetched := FetchAll(d, s, es, mid, i);
    var taken;
    es', taken := TakeAll(d, s, es + [Event(i, FetchPage)], fetched, i);
    SameIdentityRows(r, fetched.reps[i], r.tables, rows);
    t := Step(taken, i, SavePage).value;
    Extend(d, s, es', taken, Event(i, SavePage), t);
    es' := es' + [Event(i, SavePage)];
  }

  lemma FetchAll(d: Demands, s: System, es: seq<Event>, mid: System, i: nat) returns (t: System)
    requires Reaches(d, s, es, mid) && i < |mid.reps| && mid.reps[i].pull.Idle?
    requires |Rows(mid.log, mid.reps[i].user, mid.reps[i].cursor)| <= PAGE_SIZE
    ensures Reaches(d, s, es + [Event(i, FetchPage)], t)
    ensures var r := mid.reps[i];
            t == System(mid.log, mid.reps[i := r.(pull := Paging(r.cursor, Rows(mid.log, r.user, r.cursor)))])
  {
    var r := mid.reps[i];
    var rows := Rows(mid.log, r.user, r.cursor);
    assert rows[..|rows|] == rows;
    t := System(mid.log, mid.reps[i := r.(pull := Paging(r.cursor, rows))]);
    Extend(d, s, es, mid, Event(i, FetchPage), t);
  }

  lemma AfterOne(r: Replica, t: Tables, x: RemoteOp)
    ensures AfterRows(r, t, [x]) == if x.op.device == r.engineDevice then t else ApplyRemote(r.books, t, x.op.payload, x.op.ts).0
  {
    assert [x][1..] == [];
  }

  lemma AfterBoth(r: Replica, t: Tables, x: RemoteOp, y: RemoteOp)
    ensures AfterRows(r, t, [x, y]) == AfterRows(r, AfterRows(r, t, [x]), [y])
  {
    assert [x, y][1..] == [y] && [x][1..] == [];
  }

  /** A replica after a logged local write. */
  function LocalRep(r: Replica, op: Operation, ts: u64): Replica {
    r.(tables := LocalWrite(r.books, r.tables, op, ts).0, opLog := r.opLog + [LogEntry(op, AsI64(ts), false)])
  }

  lemma WriteLocally(d: Demands, s: System, es: seq<Event>, mid: System, i: nat, op: Operation, ts: u64) returns (es': seq<Event>, t: System)
    requires Reaches(d, s, es, mid) && i < |mid.reps|
    requires LocalWrite(mid.reps[i].books, mid.reps[i].tables, op, ts).1.Logged?
    requires d.stamped ==> StampedAbove(mid, i, Local(op, ts))
    ensures Reaches(d, s, es', t)
    ensures t == System(mid.log, mid.reps[i := LocalRep(mid.reps[i], op, ts)])
  {
    t := System(mid.log, mid.reps[i := LocalRep(mid.reps[i], op, ts)]);
    Extend(d, s, es, mid, Event(i, Local(op, ts)), t);
    es' := es + [Event(i, Local(op, ts))];
  }

  /** A replica at rest: nothing in progress, everything pushed, everything pulled. */
  ghost predicate AtRest(log: seq<ServerOp>, r: Replica) {
    && r.pull.Idle? && r.push.Quiet? && r.cursor <= |log| && Rows(log, r.user, r.cursor) == []
    && forall p: nat :: p < |r.opLog| ==> r.opLog[p].synced
  }

  /** The only unsynced entry is the last. */
  lemma LastIsListed(opLog: seq<LogEntry>)
    requires opLog != [] && !opLog[|opLog| - 1].synced && forall p: nat :: p < |opLog| - 1 ==> opLog[p].synced
    ensures var n := |opLog| - 1; IsUnsyncedList(opLog, [UnsyncedOp(n, opLog[n].op, opLog[n].ts)])
  {
  }

  /** The entry that replica `r` logs for a write, and its row in the server's log. */
  function RowOf(r: Replica, id: string, op: Operation, ts: u64): ServerOp {
    ServerOp(r.user, id, Json(op), AsI64(ts), r.device, |r.opLog|)
  }

  function AfterWrite(r: Replica, op: Operation, ts: u64): Replica {
    r.(tables := LocalWrite(r.books, r.tables, op, ts).0, opLog := r.opLog + [LogEntry(op, AsI64(ts), true)])
  }

  /** Replica `i`, with nothing left to push, writes and pushes the write. */
  lemma WriteAndPush(d: Demands, s: System, es: seq<Event>, mid: System, i: nat, op: Operation, ts: u64, id: string)
    returns (es': seq<Event>, t: System)
    requires Reaches(d, s, es, mid) && i < |mid.reps| && !Known(mid.log, mid.reps[i].user, id)
    requires mid.reps[i].push.Quiet? && forall p: nat :: p < |mid.reps[i].opLog| ==> mid.reps[i].opLog[p].synced
    requires LocalWrite(mid.reps[i].books, mid.reps[i].tables, op, ts).1.Logged?
    requires d.stamped ==> StampedAbove(mid, i, Local(op, ts))
    ensures Reaches(d, s, es', t)
    ensures t == System(mid.log + [RowOf(mid.reps[i], id, op, ts)], mid.reps[i := AfterWrite(mid.reps[i], op, ts)])
  {
    var es1, wrote := WriteLocally(d, s, es, mid, i, op, ts);
    assert mid.reps[i := wrote.reps[i]] == wrote.reps;
    es', t := PushLast(d, s, es1, wrote, i, id);
  }

  /** Replica `i` pushes its last entry, the only one left. */
  lemma PushLast(d: Demands, s: System, es: seq<Event>, mid: System, i: nat, id: string) returns (es': seq<Event>, t: System)
    requires Reaches(d, s, es, mid) && i < |mid.reps| && !Known(mid.log, mid.reps[i].user, id) && mid.reps[i].push.Quiet?
    requires var opLog := mid.reps[i].opLog;
             opLog != [] && !opLog[|opLog| - 1].synced && forall p: nat :: p < |opLog| - 1 ==> opLog[p].synced
    ensures Reaches(d, s, es', t)
    ensures var r, n := mid.reps[i], |mid.reps[i].opLog| - 1;
            t == System(mid.log + [ServerOp(r.user, id, Json(r.opLog[n].op), r.opLog[n].ts, r.device, n)],
                        mid.reps[i := r.(opLog := r.opLog[..n] + [r.opLog[n].(synced := true)])])
  {
    var r, n := mid.reps[i], |mid.reps[i].opLog| - 1;
    LastIsListed(r.opLog);
    var us := [UnsyncedOp(n, r.opLog[n].op, r.opLog[n].ts)];
    var es2 := PushIsReachable(d, mid, i, us, Single(id), 1, 1);
    OnePushed(mid.log, r, r.opLog, us, id);
    t := System(mid.log + [ServerOp(r.user, id, Json(r.opLog[n].op), r.opLog[n].ts, r.device, n)],
                mid.reps[i := r.(opLog := r.opLog[..n] + [r.opLog[n].(synced := true)])]);
    Continue(d, s, es, mid, es2, t);
    es' := es + es2;
  }

  /** Pushing and marking the one listed operation. */
  lemma OnePushed(log: seq<ServerOp>, r: Replica, opLog: seq<LogEntry>, us: seq<UnsyncedOp>, id: string)
    requires !Known(log, r.user, id) && opLog != [] && !opLog[|opLog| - 1].synced
    requires us == [UnsyncedOp(|opLog| - 1, opLog[|opLog| - 1].op, opLog[|opLog| - 1].ts)]
    ensures var e, n := opLog[|opLog| - 1], InBatches(1, |us|);
            && MarkSynced(opLog, Positions(us)[..n]) == opLog[..|opLog| - 1] + [e.(synced := true)]
            && PushAll(log, r.user, r.device, Payloads(us, Single(id))[..n])
               == log + [ServerOp(r.user, id, Json(e.op), e.ts, r.device, |opLog| - 1)]
  {
    var ops := Payloads(us, Single(id));
    assert ops[..1] == ops && ops[..0] == [] && Positions(us)[..1] == [|opLog| - 1];
  }

  /** What replicas at rest find when rows of their user are added to the log. */
  lemma NewRow(log: seq<ServerOp>, user: string, c: nat, x: ServerOp)
    requires c <= |log| && x.user == user
    ensures Rows(log + [x], user, c) == Rows(log, user, c) + [RemoteOp(|log| + 1, x)]
    ensures Rows(log + [x], user, |log| + 1) == []
  {
    assert (log + [x])[..|log + [x]| - 1] == log;
    RowsPastEnd(log + [x], user, |log| + 1);
  }

  /** Replica `j` pulls all there is. */
  lemma PullToRest(d: Demands, s: System, es: seq<Event>, mid: System, j: nat, rows: seq<RemoteOp>) returns (es': seq<Event>, t: System)
    requires Reaches(d, s, es, mid) && j < |mid.reps| && mid.reps[j].pull.Idle? && mid.reps[j].push.Quiet?
    requires rows == Rows(mid.log, mid.reps[j].user, mid.reps[j].cursor) && 0 < |rows| <= PAGE_SIZE && Applicable(mid.reps[j], rows)
    requires rows[|rows| - 1].seqNo == |mid.log| && forall p: nat :: p < |mid.reps[j].opLog| ==> mid.reps[j].opLog[p].synced
    ensures Reaches(d, s, es', t) && t.log == mid.log && |t.reps| == |mid.reps|
    ensures forall i :: 0 <= i < |t.reps| && i != j ==> t.reps[i] == mid.reps[i]
    ensures AtRest(t.log, t.reps[j]) && SameIdentity(t.reps[j], mid.reps[j])
    ensures t.reps[j].tables == AfterRows(mid.reps[j], mid.reps[j].tables, rows)
  {
    es', t := PullAll(d, s, es, mid, j);
    RowsPastEnd(t.log, t.reps[j].user, |t.log|);
  }

  lemma NewRows(log: seq<ServerOp>, user: string, c: nat, x: ServerOp, y: ServerOp)
    requires c <= |log| && x.user == user && y.user == user && Rows(log, user, c) == []
    ensures Rows(log + [x] + [y], user, c) == [RemoteOp(|log| + 1, x), RemoteOp(|log| + 2, y)]
  {
    NewRow(log, user, c, x);
    NewRow(log + [x], user, c, y);
  }

  lemma StillUnknown(log: seq<ServerOp>, row: ServerOp, id: string)
    requires !Known(log, row.user, id) && row.opId != id
    ensures !Known(log + [row], row.user, id)
  {
    assert forall n :: 0 <= n < |log| ==> (log + [row])[n] == log[n];
  }
}
