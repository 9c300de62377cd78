/** Many replicas and one server, as steps: local writes, pushing a batch, losing its reply, fetching
    a page, taking one operation, saving the cursor, crashing. Runs are arbitrary interleavings. */
module SyncRuns {
  import opened Basics
  import opened Tables
  import opened SyncServer
  import opened LocalStore
  import opened PullSpec
  import opened SyncEngine

  /** A pull in progress: the in-memory cursor and what is left of the fetched page. */
  datatype PullPhase = Idle | Paging(at: nat, page: seq<RemoteOp>)

  /** A push in progress: what is still to be sent, and the batch whose reply is awaited. */
  datatype PushPhase = Quiet | Ready(rest: seq<PushOp>) | Sent(batch: seq<PushOp>, rest: seq<PushOp>)

  /** One device. `device` is the id it is authenticated under, `engineDevice` the id its engine
      compares pulled operations with. `applied` is a history variable: the server sequence numbers
      for which `apply_remote_op` has returned `Ok`. */
  datatype Replica = Replica(user: string, device: string, engineDevice: string, books: set<string>,
                             tables: Tables, opLog: seq<LogEntry>, cursor: nat,
                             pull: PullPhase, push: PushPhase, applied: set<nat>)

  datatype Action =
    | Local(op: Operation, ts: u64)
    | Torn(op: Operation, ts: u64)         // a crash between the row and its op-log entry
    | BeginPush(us: seq<UnsyncedOp>, ids: nat -> string)
    | SendBatch                            // the server commits the batch
    | ReplyArrives                         // its reply comes back and the batch is marked
    | StopPush                             // the end of the list, a lost request or a lost reply
    | FetchPage
    | TakeNext                             // skip, apply, or stop at an operation that fails
    | SavePage
    | AbandonPull                          // a transport error, a failed save, an overflowing clock
    | Crash

  function Sources(ops: seq<PushOp>): (r: seq<nat>)
    ensures forall p :: p in r <==> exists i :: 0 <= i < |ops| && ops[i].src == p
  {
    var r := seq(|ops|, i requires 0 <= i < |ops| => ops[i].src);
    assert forall i :: 0 <= i < |ops| ==> r[i] == ops[i].src;
    r
  }

  /** One step of a replica against the server's log, or `None` if it cannot take it now. */
  ghost function Act(log: seq<ServerOp>, r: Replica, a: Action): Option<(seq<ServerOp>, Replica)> {
    match a
    case Local(op, ts) =>
      var (t, res) := LocalWrite(r.books, r.tables, op, ts);
      Some((log, r.(tables := t, opLog := if res.Logged? then r.opLog + [LogEntry(op, AsI64(ts), false)] else r.opLog)))
    case Torn(op, ts) =>
      Some((log, r.(tables := LocalWrite(r.books, r.tables, op, ts).0)))
    case BeginPush(us, ids) =>
      if r.push.Quiet? && IsUnsyncedList(r.opLog, us) then Some((log, r.(push := Ready(Payloads(us, ids))))) else None
    case SendBatch =>
      if r.push.Ready? && r.push.rest != [] then
        var n := Min(MAX_BATCH, |r.push.rest|);
        Some((PushAll(log, r.user, r.device, r.push.rest[..n]), r.(push := Sent(r.push.rest[..n], r.push.rest[n..]))))
      else None
    case ReplyArrives =>
      if r.push.Sent?
      then Some((log, r.(opLog := MarkSynced(r.opLog, Sources(r.push.batch)), push := Ready(r.push.rest))))
      else None
    case StopPush => Some((log, r.(push := Quiet)))
    case FetchPage =>
      if r.pull.Idle?
      then Some((log, r.(pull := Paging(r.cursor, PullPage(log, r.user, r.cursor, PAGE_SIZE).operations))))
      else None
    case TakeNext =>
      if r.pull.Paging? && r.pull.page != [] then
        var x := r.pull.page[0];
        var moved := r.(pull := Paging(x.seqNo, r.pull.page[1..]));
        if x.op.device == r.engineDevice then Some((log, moved))
        else
          var (t, res) := ApplyRemote(r.books, r.tables, x.op.payload, x.op.ts);
          if res.Failed? then Some((log, r.(cursor := r.pull.at, pull := Idle)))
          else Some((log, moved.(tables := t, applied := r.applied + {x.seqNo})))
      else None
    case SavePage =>
      if r.pull.Paging? && r.pull.page == [] then Some((log, r.(cursor := r.pull.at, pull := Idle))) else None
    case AbandonPull => Some((log, r.(pull := Idle)))
    case Crash => Some((log, r.(pull := Idle, push := Quiet)))
  }

  datatype System = System(log: seq<ServerOp>, reps: seq<Replica>)

  ghost function Step(s: System, i: nat, a: Action): Option<System> {
    if i >= |s.reps| then None
    else
      match Act(s.log, s.reps[i], a)
      case None => None
      case Some((log, r)) => Some(System(log, s.reps[i := r]))
  }

  datatype Event = Event(who: nat, action: Action)

  ghost function Exec(s: System, es: seq<Event>): Option<System>
    decreases |es|
  {
    if es == [] then Some(s)
    else
      match Exec(s, es[..|es| - 1])
      case None => None
      case Some(mid) => Step(mid, es[|es| - 1].who, es[|es| - 1].action)
  }

  /** Replicas start empty, and no two of one user are authenticated under the same device id. */
  ghost predicate Initial(s: System) {
    && s.log == []
    && (forall i :: 0 <= i < |s.reps| ==>
          var r := s.reps[i];
          r.tables == EMPTY && r.opLog == [] && r.cursor == 0 && r.pull.Idle? && r.push.Quiet? && r.applied == {})
    && DistinctDevices(s)
  }

  ghost predicate DistinctDevices(s: System) {
    forall i, j :: 0 <= i < j < |s.reps| ==> !(s.reps[i].user == s.reps[j].user && s.reps[i].device == s.reps[j].device)
  }

  // ---------- What may be asked of a run ----------

  /** Operation ids mean what they say: one that is already in the user's log names the same op-log
      entry there, and no two outstanding operations share one. Fresh ids and ids that stay with
      their entry are both honest. */
  ghost predicate Honest(s: System, i: nat, a: Action) {
    i < |s.reps| && a.SendBatch? && s.reps[i].push.Ready? ==>
      var r := s.reps[i];
      && (forall k, n :: 0 <= k < |r.push.rest| && 0 <= n < |s.log| && s.log[n].user == r.user && s.log[n].opId == r.push.rest[k].opId
            ==> s.log[n].device == r.device && s.log[n].src == r.push.rest[k].src)
      && (forall k, l :: 0 <= k < l < |r.push.rest| ==> r.push.rest[k].opId != r.push.rest[l].opId)
  }

  /** A last-writer-wins row is only overwritten locally with a larger stamp than the stored one. */
  ghost predicate StampedAbove(s: System, i: nat, a: Action) {
    i < |s.reps| && a.Local? && IsLww(KeyOf(a.op)) ==> AsI64(a.ts) > Stamp(Cell(s.reps[i].tables, KeyOf(a.op)))
  }

  datatype Demands = Demands(honest: bool, whole: bool, stamped: bool)

  ghost predicate Meets(d: Demands, s: System, i: nat, a: Action) {
    (d.honest ==> Honest(s, i, a)) && (d.whole ==> !a.Torn?) && (d.stamped ==> StampedAbove(s, i, a))
  }

  /** A run that is possible and meets the demands at every step. */
  ghost predicate GoodRun(d: Demands, s: System, es: seq<Event>)
    decreases |es|
  {
    es != [] ==>
      && GoodRun(d, s, es[..|es| - 1])
      && Exec(s, es).Some?
      && Meets(d, Exec(s, es[..|es| - 1]).value, es[|es| - 1].who, es[|es| - 1].action)
  }

  /** A run with its final state. */
  ghost predicate Reaches(d: Demands, s: System, es: seq<Event>, t: System) {
    GoodRun(d, s, es) && Exec(s, es) == Some(t)
  }

  lemma Extend(d: Demands, s: System, es: seq<Event>, mid: System, e: Event, t: System)
    requires Reaches(d, s, es, mid) && Step(mid, e.who, e.action) == Some(t) && Meets(d, mid, e.who, e.action)
    ensures Reaches(d, s, es + [e], t)
  {
    assert (es + [e])[..|es| + 1 - 1] == es;
  }

  /** The last event of a good run. */
  lemma LastEvent(d: Demands, s: System, es: seq<Event>, t: System) returns (mid: System)
    requires es != [] && Reaches(d, s, es, t)
    ensures var e := es[|es| - 1];
            && Reaches(d, s, es[..|es| - 1], mid) && Step(mid, e.who, e.action) == Some(t) && Meets(d, mid, e.who, e.action)
  {
    mid := Exec(s, es[..|es| - 1]).value;
  }

  lemma Reassociate(a: seq<Event>, b: seq<Event>)
    requires b != []
    ensures a + b == (a + b[..|b| - 1]) + [b[|b| - 1]]
  {
  }

  /** A good run may be continued by another that is good from there. */
  lemma {:induction false} Continue(d: Demands, s: System, a: seq<Event>, mid: System, b: seq<Event>, t: System)
    requires Reaches(d, s, a, mid) && Reaches(d, mid, b, t)
    ensures Reaches(d, s, a + b, t)
    decreases |b|
  {
    if b == [] {
      assert a + b == a;
    } else {
      var last := LastEvent(d, mid, b, t);
      Continue(d, s, a, mid, b[..|b| - 1], last);
      Reassociate(a, b);
      Extend(d, s, a + b[..|b| - 1], last, b[|b| - 1], t);
    }
  }

  // ---------- What never changes ----------

  ghost predicate SameIdentity(r: Replica, q: Replica) {
    r.user == q.user && r.device == q.device && r.engineDevice == q.engineDevice && r.books == q.books
  }

  lemma {:induction false} IdentityIsFixed(d: Demands, s: System, es: seq<Event>)
    requires GoodRun(d, s, es)
    ensures Exec(s, es).Some? && |Exec(s, es).value.reps| == |s.reps|
    ensures forall i :: 0 <= i < |s.reps| ==> SameIdentity(Exec(s, es).value.reps[i], s.reps[i])
    decreases |es|
  {
    if es != [] { IdentityIsFixed(d, s, es[..|es| - 1]); }
  }

  /** What a step does to the log: nothing, unless it sends a batch. */
  lemma LogOnlyGrows(log: seq<ServerOp>, r: Replica, a: Action)
    requires Act(log, r, a).Some?
    ensures Extends(Act(log, r, a).value.0, log)
    ensures forall n :: |log| <= n < |Act(log, r, a).value.0| ==>
              Act(log, r, a).value.0[n].user == r.user && Act(log, r, a).value.0[n].device == r.device
  {
    if a.SendBatch? { PushAdds(log, r.user, r.device, Act(log, r, a).value.1.push.batch); }
  }

  /** No operation id is ever twice in a user's log, whatever is lost, retried or sent. */
  lemma {:induction false} IdsStayUnique(d: Demands, s: System, es: seq<Event>)
    requires Initial(s) && GoodRun(d, s, es)
    ensures Exec(s, es).Some? && UniqueIds(Exec(s, es).value.log)
    decreases |es|
  {
    if es != [] {
      IdsStayUnique(d, s, es[..|es| - 1]);
      var mid := Exec(s, es[..|es| - 1]).value;
      var e := es[|es| - 1];
      var r := mid.reps[e.who];
      if e.action.SendBatch? { PushKeepsUniqueIds(mid.log, r.user, r.device, r.push.rest[..Min(MAX_BATCH, |r.push.rest|)]); }
    }
  }

  // ---------- No lost operation ----------

  /** Where a replica's cursor stands: in memory during a pull, else saved. */
  function Position(r: Replica): nat {
    if r.pull.Paging? then r.pull.at else r.cursor
  }

  /** Everything of the user up to position `m` was applied, or carries the engine's own device. */
  ghost predicate AllTaken(log: seq<ServerOp>, r: Replica, m: nat) {
    forall n :: 0 <= n < |log| && n < m && log[n].user == r.user ==> log[n].device == r.engineDevice || n + 1 in r.applied
  }

  ghost predicate Pulling(log: seq<ServerOp>, r: Replica) {
    && r.cursor <= Position(r) <= |log|
    && (r.pull.Paging? ==> r.pull.page <= Rows(log, r.user, r.pull.at))
    && AllTaken(log, r, Position(r))
    && (forall q :: q in r.applied ==> 1 <= q <= |log| && log[q - 1].user == r.user)
  }

  lemma PullingTakes(log: seq<ServerOp>, r: Replica)
    requires Pulling(log, r) && Act(log, r, TakeNext).Some?
    ensures Pulling(log, Act(log, r, TakeNext).value.1)
  {
    var r' := Act(log, r, TakeNext).value.1;
    var at, x := r.pull.at, r.pull.page[0];
    assert Rows(log, r.user, at)[0] == x;
    TakenRange(log, r.user, at);
    forall n | 0 <= n < Position(r') && log[n].user == r.user
      ensures log[n].device == r.engineDevice || n + 1 in r'.applied
    {
      if at <= n { assert n + 1 == x.seqNo; }
    }
  }

  /** Between position `m` and the next row there is no other row of the user. */
  lemma TakenRange(log: seq<ServerOp>, user: string, m: nat)
    requires m <= |log| && Rows(log, user, m) != []
    ensures var x := Rows(log, user, m)[0];
            && m < x.seqNo <= |log| && x.op == log[x.seqNo - 1] && x.op.user == user
            && Rows(log, user, x.seqNo) == Rows(log, user, m)[1..]
            && forall n :: m <= n < x.seqNo && log[n].user == user ==> n + 1 == x.seqNo
  {
    RowsNext(log, user, m, m);
    var x := Rows(log, user, m)[0];
    RowsPastEnd(log[..m], user, m);
    assert Rows(log[..x.seqNo], user, m) == [x];
    RowsExact(log[..x.seqNo], user, m);
    forall n | m <= n < x.seqNo && log[n].user == user ensures n + 1 == x.seqNo {
      assert RemoteOp(n + 1, log[..x.seqNo][n]) in [x];
    }
  }

  lemma PullingStep(log: seq<ServerOp>, r: Replica, a: Action)
    requires Pulling(log, r) && Act(log, r, a).Some?
    ensures Pulling(Act(log, r, a).value.0, Act(log, r, a).value.1)
  {
    if a.TakeNext? {
      PullingTakes(log, r);
    } else if a.SendBatch? {
      PullingGrows(log, Act(log, r, a).value.0, r);
    }
  }

  lemma PullingGrows(log: seq<ServerOp>, more: seq<ServerOp>, r: Replica)
    requires Pulling(log, r) && Extends(more, log)
    ensures Pulling(more, r)
  {
    if r.pull.Paging? { RowsGrow(log, more, r.user, r.pull.at); }
    assert forall n :: 0 <= n < |log| ==> more[n] == log[n];
  }

  /** In every reachable state, whatever failed, was lost or crashed on the way, each operation of
      the user at or below a replica's saved cursor has been applied without error or carries the
      engine's own device id. */
  lemma {:induction false} NoLostOp(d: Demands, s: System, es: seq<Event>)
    requires Initial(s) && GoodRun(d, s, es)
    ensures Exec(s, es).Some?
    ensures var t := Exec(s, es).value;
            forall i :: 0 <= i < |t.reps| ==> Pulling(t.log, t.reps[i]) && AllTaken(t.log, t.reps[i], t.reps[i].cursor)
    decreases |es|
  {
    if es != [] {
      NoLostOp(d, s, es[..|es| - 1]);
      var mid, e := Exec(s, es[..|es| - 1]).value, es[|es| - 1];
      PullingStep(mid.log, mid.reps[e.who], e.action);
      LogOnlyGrows(mid.log, mid.reps[e.who], e.action);
      var t := Exec(s, es).value;
      forall i | 0 <= i < |t.reps| ensures Pulling(t.log, t.reps[i]) {
        if i != e.who { PullingGrows(mid.log, t.log, mid.reps[i]); }
      }
    }
  }

  // ---------- Marked operations are in the log ----------

  /** The log holds op-log entry `p` of replica `r`. */
  ghost predicate InLog(log: seq<ServerOp>, r: Replica, p: nat) {
    exists n :: 0 <= n < |log| && log[n].user == r.user && log[n].device == r.device && log[n].src == p
  }

  predicate OfEntry(r: Replica, p: PushOp) {
    p.src < |r.opLog| && p.payload == Json(r.opLog[p.src].op) && p.ts == r.opLog[p.src].ts
  }

  function Outstanding(r: Replica): seq<PushOp> {
    match r.push
    case Quiet => []
    case Ready(rest) => rest
    case Sent(batch, rest) => batch + rest
  }

  ghost predicate Pushing(log: seq<ServerOp>, r: Replica) {
    && (forall k :: 0 <= k < |Outstanding(r)| ==> OfEntry(r, Outstanding(r)[k]))
    && (forall k, l :: 0 <= k < l < |Outstanding(r)| ==> Outstanding(r)[k].src != Outstanding(r)[l].src)
    && (r.push.Sent? ==> forall k :: 0 <= k < |r.push.batch| ==> InLog(log, r, r.push.batch[k].src))
    && (forall p: nat :: p < |r.opLog| && r.opLog[p].synced ==> InLog(log, r, p))
    && (forall n :: 0 <= n < |log| && log[n].user == r.user && log[n].device == r.device
          ==> OfEntry(r, PushOp(log[n].opId, log[n].payload, log[n].ts, log[n].src)))
  }

  lemma InLogGrows(log: seq<ServerOp>, more: seq<ServerOp>, r: Replica, p: nat)
    requires Extends(more, log) && InLog(log, r, p)
    ensures InLog(more, r, p)
  {
    var n :| 0 <= n < |log| && log[n].user == r.user && log[n].device == r.device && log[n].src == p;
    assert more[n] == log[n];
  }

  /** After an honest batch each of its entries is in the log. */
  lemma SentIsInLog(log: seq<ServerOp>, r: Replica, s: System, i: nat, k: nat)
    requires i < |s.reps| && s.reps[i] == r && s.log == log && r.push.Ready? && Honest(s, i, SendBatch)
    requires k < Min(MAX_BATCH, |r.push.rest|)
    ensures InLog(PushAll(log, r.user, r.device, r.push.rest[..Min(MAX_BATCH, |r.push.rest|)]), r, r.push.rest[k].src)
  {
    var batch := r.push.rest[..Min(MAX_BATCH, |r.push.rest|)];
    var log' := PushAll(log, r.user, r.device, batch);
    PushAdds(log, r.user, r.device, batch);
    assert batch[k] == r.push.rest[k] && Known(log', r.user, batch[k].opId);
    var n :| 0 <= n < |log'| && log'[n].user == r.user && log'[n].opId == batch[k].opId;
    if n < |log| {
      assert log'[n] == log[n];
    } else {
      assert FromBatch(log'[n], r.user, r.device, batch);
      var l :| 0 <= l < |batch| && log'[n] == ServerOp(r.user, batch[l].opId, batch[l].payload, batch[l].ts, r.device, batch[l].src);
      assert batch[l] == r.push.rest[l] && l == k;
    }
  }

  /** Every row under the replica's device is still one of its entries. */
  lemma SentAreEntries(log: seq<ServerOp>, r: Replica, batch: seq<PushOp>, n: nat)
    requires Pushing(log, r) && forall k :: 0 <= k < |batch| ==> OfEntry(r, batch[k])
    requires n < |PushAll(log, r.user, r.device, batch)|
    ensures var row := PushAll(log, r.user, r.device, batch)[n];
            row.user == r.user && row.device == r.device ==> OfEntry(r, PushOp(row.opId, row.payload, row.ts, row.src))
  {
    var log' := PushAll(log, r.user, r.device, batch);
    PushAdds(log, r.user, r.device, batch);
    if n < |log| {
      assert log'[n] == log[n];
    } else {
      assert FromBatch(log'[n], r.user, r.device, batch);
    }
  }

  lemma PushingSend(log: seq<ServerOp>, r: Replica, s: System, i: nat)
    requires i < |s.reps| && s.reps[i] == r && s.log == log
    requires Pushing(log, r) && Act(log, r, SendBatch).Some? && Honest(s, i, SendBatch)
    ensures Pushing(Act(log, r, SendBatch).value.0, Act(log, r, SendBatch).value.1)
  {
    var (log', r') := Act(log, r, SendBatch).value;
    var batch := r'.push.batch;
    assert Outstanding(r') == Outstanding(r);
    assert forall k :: 0 <= k < |batch| ==> batch[k] == Outstanding(r)[k];
    forall k | 0 <= k < |batch| ensures InLog(log', r', batch[k].src) {
      SentIsInLog(log, r, s, i, k);
      assert InLog(log', r, batch[k].src);
    }
    forall p: nat | p < |r'.opLog| && r'.opLog[p].synced ensures InLog(log', r', p) {
      InLogGrows(log, log', r, p);
    }
    forall n | 0 <= n < |log'| && log'[n].user == r.user && log'[n].device == r.device
      ensures OfEntry(r', PushOp(log'[n].opId, log'[n].payload, log'[n].ts, log'[n].src))
    {
      SentAreEntries(log, r, batch, n);
    }
  }

  /** A replica that keeps its entries, marks only what is in the log, and has at most a tail of its
      old operations outstanding. */
  lemma PushingCarries(log: seq<ServerOp>, r: Replica, q: Replica, n: nat)
    requires Pushing(log, r) && SameIdentity(q, r)
    requires |r.opLog| <= |q.opLog|
    requires forall p: nat :: p < |r.opLog| ==> q.opLog[p].op == r.opLog[p].op && q.opLog[p].ts == r.opLog[p].ts
    requires forall p: nat :: p < |q.opLog| && q.opLog[p].synced ==> InLog(log, r, p)
    requires n <= |Outstanding(r)| && Outstanding(q) == Outstanding(r)[n..]
    requires q.push.Sent? ==> q.push == r.push
    ensures Pushing(log, q)
  {
    forall p: nat | InLog(log, r, p) ensures InLog(log, q, p) {}
    forall p | OfEntry(r, p) ensures OfEntry(q, p) {}
    assert forall k :: 0 <= k < |Outstanding(q)| ==> Outstanding(q)[k] == Outstanding(r)[n + k];
  }

  lemma PushingBegins(log: seq<ServerOp>, r: Replica, us: seq<UnsyncedOp>, ids: nat -> string)
    requires Pushing(log, r) && IsUnsyncedList(r.opLog, us)
    ensures Pushing(log, r.(push := Ready(Payloads(us, ids))))
  {
    var q := r.(push := Ready(Payloads(us, ids)));
    forall p: nat | InLog(log, r, p) ensures InLog(log, q, p) {}
    forall p | OfEntry(r, p) ensures OfEntry(q, p) {}
    assert Outstanding(q) == Payloads(us, ids);
    forall k | 0 <= k < |us| ensures OfEntry(q, Outstanding(q)[k]) {
      assert us[k] in us;
    }
  }

  lemma PushingOther(log: seq<ServerOp>, r: Replica, a: Action)
    requires Pushing(log, r) && Act(log, r, a).Some? && !a.SendBatch?
    ensures Pushing(log, Act(log, r, a).value.1)
  {
    var r' := Act(log, r, a).value.1;
    if a.BeginPush? {
      PushingBegins(log, r, a.us, a.ids);
    } else if a.ReplyArrives? {
      PushingCarries(log, r, r', |r.push.batch|);
    } else if a.StopPush? || a.Crash? {
      PushingCarries(log, r, r', |Outstanding(r)|);
    } else {
      PushingCarries(log, r, r', 0);
    }
  }

  /** Another replica's batch leaves the invariant of `r` alone. */
  lemma PushingGrows(log: seq<ServerOp>, more: seq<ServerOp>, r: Replica, o: Replica)
    requires Pushing(log, r) && Extends(more, log)
    requires r.user != o.user || r.device != o.device
    requires forall n :: |log| <= n < |more| ==> more[n].user == o.user && more[n].device == o.device
    ensures Pushing(more, r)
    ensures forall p: nat :: InLog(more, r, p) <==> InLog(log, r, p)
  {
    forall p: nat ensures InLog(more, r, p) <==> InLog(log, r, p) {
      if InLog(log, r, p) { InLogGrows(log, more, r, p); }
      if InLog(more, r, p) {
        var n :| 0 <= n < |more| && more[n].user == r.user && more[n].device == r.device && more[n].src == p;
        assert n < |log|;
        assert more[n] == log[n];
      }
    }
    forall n | 0 <= n < |more| && more[n].user == r.user && more[n].device == r.device
      ensures OfEntry(r, PushOp(more[n].opId, more[n].payload, more[n].ts, more[n].src))
    {
      assert n < |log|;
      assert more[n] == log[n];
    }
  }

  /** Every row of the log was pushed by one of the replicas. */
  ghost predicate Originated(s: System) {
    forall n :: 0 <= n < |s.log| ==>
      exists i :: 0 <= i < |s.reps| && s.reps[i].user == s.log[n].user && s.reps[i].device == s.log[n].device
  }

  ghost predicate AllPushing(s: System) {
    forall i :: 0 <= i < |s.reps| ==> Pushing(s.log, s.reps[i])
  }

  lemma AllPushingStep(s: System, e: Event)
    requires DistinctDevices(s) && AllPushing(s) && Step(s, e.who, e.action).Some? && Honest(s, e.who, e.action)
    ensures AllPushing(Step(s, e.who, e.action).value)
  {
    var r, t := s.reps[e.who], Step(s, e.who, e.action).value;
    LogOnlyGrows(s.log, r, e.action);
    if e.action.SendBatch? { PushingSend(s.log, r, s, e.who); } else { PushingOther(s.log, r, e.action); }
    forall i | 0 <= i < |t.reps| ensures Pushing(t.log, t.reps[i]) {
      if i != e.who { PushingGrows(s.log, t.log, s.reps[i], r); }
    }
  }

  lemma OriginatedStep(s: System, e: Event)
    requires Originated(s) && Step(s, e.who, e.action).Some?
    ensures Originated(Step(s, e.who, e.action).value)
  {
    var r, t := s.reps[e.who], Step(s, e.who, e.action).value;
    LogOnlyGrows(s.log, r, e.action);
    forall n | 0 <= n < |t.log|
      ensures exists i :: 0 <= i < |t.reps| && t.reps[i].user == t.log[n].user && t.reps[i].device == t.log[n].device
    {
      if n < |s.log| {
        assert t.log[n] == s.log[n];
        var i :| 0 <= i < |s.reps| && s.reps[i].user == s.log[n].user && s.reps[i].device == s.log[n].device;
        assert t.reps[i].user == t.log[n].user && t.reps[i].device == t.log[n].device;
      } else {
        assert t.reps[e.who].user == t.log[n].user && t.reps[e.who].device == t.log[n].device;
      }
    }
  }

  /** With honest operation ids: in every reachable state an op-log entry that is marked synced is in
      the server's log, and every row of the log under a replica's device is one of its entries. */
  lemma {:induction false} MarkedIsInLog(d: Demands, s: System, es: seq<Event>)
    requires d.honest && Initial(s) && GoodRun(d, s, es)
    ensures Exec(s, es).Some? && AllPushing(Exec(s, es).value) && Originated(Exec(s, es).value)
    decreases |es|
  {
    if es != [] {
      var init := es[..|es| - 1];
      MarkedIsInLog(d, s, init);
      IdentityIsFixed(d, s, init);
      AllPushingStep(Exec(s, init).value, es[|es| - 1]);
      OriginatedStep(Exec(s, init).value, es[|es| - 1]);
    }
  }

  // ---------- Exactly once ----------

  /** Ids that stay with their entry: an entry already in the log is only ever sent under the id it
      has there. */
  ghost predicate Stable(log: seq<ServerOp>, r: Replica) {
    forall k, n :: 0 <= k < |Outstanding(r)| && 0 <= n < |log| && SameEntry(log[n], r, Outstanding(r)[k])
      ==> log[n].opId == Outstanding(r)[k].opId
  }

  predicate SameEntry(row: ServerOp, r: Replica, p: PushOp) {
    row.user == r.user && row.device == r.device && row.src == p.src
  }

  /** No op-log entry is in the log twice. */
  predicate UniqueEntries(log: seq<ServerOp>) {
    forall i, j :: 0 <= i < j < |log|
      ==> !(log[i].user == log[j].user && log[i].device == log[j].device && log[i].src == log[j].src)
  }

  lemma {:induction false} PushKeepsEntriesUnique(log: seq<ServerOp>, r: Replica, ops: seq<PushOp>)
    requires UniqueEntries(log)
    requires forall k, l :: 0 <= k < l < |ops| ==> ops[k].src != ops[l].src
    requires forall k, n :: 0 <= k < |ops| && 0 <= n < |log| && SameEntry(log[n], r, ops[k]) ==> log[n].opId == ops[k].opId
    ensures UniqueEntries(PushAll(log, r.user, r.device, ops))
    decreases |ops|
  {
    if ops != [] {
      var init, last := ops[..|ops| - 1], ops[|ops| - 1];
      PushKeepsEntriesUnique(log, r, init);
      PushAdds(log, r.user, r.device, init);
      var front := PushAll(log, r.user, r.device, init);
      if !Known(front, r.user, last.opId) {
        forall n | 0 <= n < |front| ensures !SameEntry(front[n], r, last) {
          if n < |log| {
            assert front[n] == log[n];
          } else {
            var l :| 0 <= l < |init| && front[n] == Row(r.user, r.device, init[l]);
            assert init[l] == ops[l];
          }
        }
      }
    }
  }

  /** A run in which every batch is sent under stable ids. */
  ghost predicate StableRun(s: System, es: seq<Event>)
    decreases |es|
  {
    es != [] ==>
      && StableRun(s, es[..|es| - 1])
      && match Exec(s, es[..|es| - 1])
         case None => false
         case Some(mid) =>
           var e := es[|es| - 1];
           e.who < |mid.reps| && (e.action.SendBatch? ==> Stable(mid.log, mid.reps[e.who]))
  }

  lemma UniqueEntriesStep(s: System, e: Event)
    requires UniqueEntries(s.log) && AllPushing(s) && Step(s, e.who, e.action).Some?
    requires e.action.SendBatch? ==> Stable(s.log, s.reps[e.who])
    ensures UniqueEntries(Step(s, e.who, e.action).value.log)
  {
    var r := s.reps[e.who];
    if e.action.SendBatch? {
      var batch := r.push.rest[..Min(MAX_BATCH, |r.push.rest|)];
      assert forall k :: 0 <= k < |batch| ==> batch[k] == Outstanding(r)[k];
      PushKeepsEntriesUnique(s.log, r, batch);
    }
  }

  /** When retries reuse the operation id, every op-log entry is in the server's log at most once in
      every reachable state, and exactly once as soon as it is marked, however many replies are lost. */
  lemma {:induction false} StableIdsPushOnce(d: Demands, s: System, es: seq<Event>)
    requires d.honest && Initial(s) && GoodRun(d, s, es) && StableRun(s, es)
    ensures Exec(s, es).Some? && UniqueEntries(Exec(s, es).value.log)
    ensures var t := Exec(s, es).value;
            forall i, p: nat :: 0 <= i < |t.reps| && p < |t.reps[i].opLog| && t.reps[i].opLog[p].synced
              ==> InLog(t.log, t.reps[i], p)
    decreases |es|
  {
    MarkedIsInLog(d, s, es);
    if es != [] {
      var init := es[..|es| - 1];
      StableIdsPushOnce(d, s, init);
      MarkedIsInLog(d, s, init);
      UniqueEntriesStep(Exec(s, init).value, es[|es| - 1]);
    }
  }
}
