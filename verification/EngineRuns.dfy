/** The engine's two loops are runs of the step machine: wherever `PushPending` and `PullRemote` end, the
    machine ends by steps of that replica, with the same tables, op log and saved cursor. So what holds
    in every reachable state of the machine holds wherever the engine stops. */
module EngineRuns {
  import opened Basics
  import opened Tables
  import opened SyncServer
  import opened LocalStore
  import opened PullSpec
  import opened SyncEngine
  import opened SyncRuns

  predicate PullAction(a: Action) {
    a.FetchPage? || a.TakeNext? || a.SavePage? || a.AbandonPull?
  }

  predicate PushAction(a: Action) {
    a.BeginPush? || a.SendBatch? || a.ReplyArrives? || a.StopPush?
  }

  /** The good run `es` from `s`, in which replica `i` does only what it `may`, leads to `log` and `reps`,
      but with replica `i` being `q`. */
  ghost predicate Leads(d: Demands, may: Action -> bool, s: System, es: seq<Event>, i: nat,
                        log: seq<ServerOp>, reps: seq<Replica>, q: Replica)
  {
    && i < |reps| && Reaches(d, s, es, System(log, reps[i := q]))
    && forall k :: 0 <= k < |es| && es[k].who == i ==> may(es[k].action)
  }

  lemma LeadsOn(d: Demands, may: Action -> bool, s: System, es: seq<Event>, i: nat, log: seq<ServerOp>, reps: seq<Replica>, q: Replica,
                a: Action, log': seq<ServerOp>, q': Replica)
    requires Leads(d, may, s, es, i, log, reps, q) && may(a) && Act(log, q, a) == Some((log', q'))
    requires Meets(d, System(log, reps[i := q]), i, a)
    ensures Leads(d, may, s, es + [Event(i, a)], i, log', reps, q')
  {
    assert reps[i := q][i := q'] == reps[i := q'];
    Extend(d, s, es, System(log, reps[i := q]), Event(i, a), System(log', reps[i := q']));
  }

  // ---------- Pulling ----------

  /** Nothing is asked of a pull. */
  lemma PullsOn(d: Demands, s: System, es: seq<Event>, i: nat, log: seq<ServerOp>, reps: seq<Replica>, q: Replica, a: Action, q': Replica)
    requires Leads(d, PullAction, s, es, i, log, reps, q) && PullAction(a) && Act(log, q, a) == Some((log, q'))
    ensures Leads(d, PullAction, s, es + [Event(i, a)], i, log, reps, q')
  {
    LeadsOn(d, PullAction, s, es, i, log, reps, q, a, log, q');
  }

  /** `q` is replica `r` with another saved cursor, other tables, and `phase` as its pull. */
  ghost predicate Moved(r: Replica, q: Replica, cursor: nat, t: Tables, phase: PullPhase) {
    q.(applied := r.applied) == r.(cursor := cursor, tables := t, pull := phase)
  }

  /** The engine of replica `r` is the one that pulls. */
  predicate PullsFor(p: Pull, r: Replica) {
    p.user == r.user && p.device == r.engineDevice && p.books == r.books
  }

  /** A row that does not stop the engine is taken by the replica; one that is refused, refused. */
  lemma RowTaken(p: Pull, log: seq<ServerOp>, r: Replica, q: Replica, s: Spot, x: RemoteOp, rest: seq<RemoteOp>)
    requires PullsFor(p, r) && Moved(r, q, q.cursor, s.tables, Paging(s.cursor, [x] + rest))
    ensures var (next, stop) := TakeRow(p, s, x);
            && (stop.Some? ==> next.tables == s.tables)
            && (stop != Some(Overflow) ==> Act(log, q, TakeNext).Some? && Act(log, q, TakeNext).value.0 == log)
            && (stop == None ==> Moved(r, Act(log, q, TakeNext).value.1, q.cursor, next.tables, Paging(next.cursor, rest)))
            && (stop == Some(Refused) ==> Moved(r, Act(log, q, TakeNext).value.1, s.cursor, next.tables, Idle))
  {
    assert ([x] + rest)[0] == x && ([x] + rest)[1..] == rest;
  }

  /** All rows of a page that are in front of the first that stops the engine: taken by the replica. */
  lemma {:induction false} RowsTaken(d: Demands, p: Pull, s: System, es: seq<Event>, i: nat, log: seq<ServerOp>, reps: seq<Replica>,
                                     r: Replica, q: Replica, at: Spot, rows: seq<RemoteOp>, rest: seq<RemoteOp>)
    returns (es': seq<Event>, q': Replica, rest': seq<RemoteOp>)
    requires PullsFor(p, r) && Leads(d, PullAction, s, es, i, log, reps, q) && Moved(r, q, q.cursor, at.tables, Paging(at.cursor, rows + rest))
    ensures var (next, stop) := TakeRows(p, at, rows);
            && Leads(d, PullAction, s, es', i, log, reps, q') && Moved(r, q', q.cursor, next.tables, Paging(next.cursor, rest'))
            && (stop == None ==> rest' == rest)
            && (stop == Some(Refused) ==>
                  Act(log, q', TakeNext).Some? && Act(log, q', TakeNext).value.0 == log
                  && Moved(r, Act(log, q', TakeNext).value.1, next.cursor, next.tables, Idle))
    decreases |rows|
  {
    if rows == [] {
      es', q', rest' := es, q, rest;
      assert rows + rest == rest;
    } else {
      var init, x := rows[..|rows| - 1], rows[|rows| - 1];
      assert rows + rest == init + ([x] + rest);
      es', q', rest' := RowsTaken(d, p, s, es, i, log, reps, r, q, at, init, [x] + rest);
      var (mid, stop) := TakeRows(p, at, init);
      if stop == None {
        RowTaken(p, log, r, q', mid, x, rest);
        RowMoves(p, mid, x);
        if TakeRow(p, mid, x).1 == None {
          PullsOn(d, s, es', i, log, reps, q', TakeNext, Act(log, q', TakeNext).value.1);
          es', q', rest' := es' + [Event(i, TakeNext)], Act(log, q', TakeNext).value.1, rest;
        }
      }
    }
  }

  /** The cursor that is saved after a page. */
  function SavedAfter(p: Pull, at: Spot, page: Page, saves: bool, k: nat): nat {
    var (end, next) := AfterPage(p, at, page, saves, k);
    if end.Some? then end.value.cursor else next.cursor
  }

  /** The answer to a request: the replica fetches the page, takes what can be taken, and saves its
      position if the engine does, or abandons the pull. */
  lemma PageTaken(d: Demands, p: Pull, s: System, es: seq<Event>, i: nat, log: seq<ServerOp>, reps: seq<Replica>,
                  r: Replica, q: Replica, at: Spot, page: Page, saves: bool, k: nat)
    returns (es': seq<Event>, q': Replica)
    requires PullsFor(p, r) && Leads(d, PullAction, s, es, i, log, reps, q) && Moved(r, q, at.cursor, at.tables, Idle)
    requires page == PullPage(log, p.user, at.cursor, PAGE_SIZE)
    ensures Leads(d, PullAction, s, es', i, log, reps, q')
    ensures Moved(r, q', SavedAfter(p, at, page, saves, k), AfterPage(p, at, page, saves, k).1.tables, Idle)
  {
    var fetched := PageFetched(d, p, s, es, i, log, reps, r, q, at);
    assert page.operations + [] == page.operations;
    var rest;
    es', q', rest := RowsTaken(d, p, s, es + [Event(i, FetchPage)], i, log, reps, r, fetched, at, page.operations, []);
    var (next, stop) := TakeRows(p, at, page.operations);
    es', q' := PageClosed(d, s, es', i, log, reps, r, q', at.cursor, next, stop, saves || page.operations == [], rest);
  }

  lemma PageFetched(d: Demands, p: Pull, s: System, es: seq<Event>, i: nat, log: seq<ServerOp>, reps: seq<Replica>,
                    r: Replica, q: Replica, at: Spot)
    returns (q': Replica)
    requires PullsFor(p, r) && Leads(d, PullAction, s, es, i, log, reps, q) && Moved(r, q, at.cursor, at.tables, Idle)
    ensures Leads(d, PullAction, s, es + [Event(i, FetchPage)], i, log, reps, q')
    ensures Moved(r, q', at.cursor, at.tables, Paging(at.cursor, PullPage(log, p.user, at.cursor, PAGE_SIZE).operations))
  {
    q' := q.(pull := Paging(at.cursor, PullPage(log, p.user, at.cursor, PAGE_SIZE).operations));
    PullsOn(d, s, es, i, log, reps, q, FetchPage, q');
  }

  lemma PageClosed(d: Demands, s: System, es: seq<Event>, i: nat, log: seq<ServerOp>, reps: seq<Replica>, r: Replica, q: Replica,
                   start: nat, next: Spot, stop: Option<Stop>, saves: bool, rest: seq<RemoteOp>)
    returns (es': seq<Event>, q': Replica)
    requires Leads(d, PullAction, s, es, i, log, reps, q) && Moved(r, q, start, next.tables, Paging(next.cursor, rest))
    requires stop == None ==> rest == []
    requires stop == Some(Refused) ==>
               Act(log, q, TakeNext).Some? && Act(log, q, TakeNext).value.0 == log
               && Moved(r, Act(log, q, TakeNext).value.1, next.cursor, next.tables, Idle)
    ensures Leads(d, PullAction, s, es', i, log, reps, q')
    ensures stop == Some(Overflow) || !saves ==> Moved(r, q', start, next.tables, Idle)
    ensures stop != Some(Overflow) && saves ==> Moved(r, q', next.cursor, next.tables, Idle)
  {
    var a;
    if stop == Some(Overflow) || !saves {
      a, q' := AbandonPull, q.(pull := Idle);
    } else if stop == None {
      a, q' := SavePage, q.(cursor := next.cursor, pull := Idle);
    } else {
      assert stop.value == Overflow || stop.value == Refused;
      a, q' := TakeNext, Act(log, q, TakeNext).value.1;
    }
    PullsOn(d, s, es, i, log, reps, q, a, q');
    es' := es + [Event(i, a)];
  }

  // ---------- Pulling: the others go on meanwhile ----------

  ghost predicate NotBy(i: nat, es: seq<Event>) {
    forall k :: 0 <= k < |es| ==> es[k].who != i
  }

  /** What the others do does not depend on replica `i`, nor does whether it is good. */
  lemma {:induction false} OthersGoOn(d: Demands, s: System, i: nat, q: Replica, es: seq<Event>)
    requires i < |s.reps| && NotBy(i, es) && Exec(s, es).Some? && GoodRun(d, s, es)
    ensures var t := Exec(s, es).value;
            && |t.reps| == |s.reps| && t.reps[i] == s.reps[i]
            && Reaches(d, System(s.log, s.reps[i := q]), es, System(t.log, t.reps[i := q]))
    decreases |es|
  {
    if es != [] {
      var init, e := es[..|es| - 1], es[|es| - 1];
      OthersGoOn(d, s, i, q, init);
      var mid, t := Exec(s, init).value, Exec(s, es).value;
      OtherSteps(d, mid, t, i, q, e);
    }
  }

  lemma OtherSteps(d: Demands, mid: System, t: System, i: nat, q: Replica, e: Event)
    requires i < |mid.reps| && e.who != i && Step(mid, e.who, e.action) == Some(t) && Meets(d, mid, e.who, e.action)
    ensures |t.reps| == |mid.reps| && t.reps[i] == mid.reps[i]
    ensures Step(System(mid.log, mid.reps[i := q]), e.who, e.action) == Some(System(t.log, t.reps[i := q]))
    ensures Meets(d, System(mid.log, mid.reps[i := q]), e.who, e.action)
  {
    assert mid.reps[i := q][e.who] == mid.reps[e.who];
    assert mid.reps[i := q][e.who := t.reps[e.who]] == t.reps[i := q];
  }

  /** The system before request `k`, if the others do `others[j]` before request `j` is served, and replica
      `i` nothing. */
  ghost function Before(s: System, others: seq<seq<Event>>, k: nat): Option<System>
    requires k <= |others|
  {
    if k == 0 then Some(s)
    else
      match Before(s, others, k - 1)
      case None => None
      case Some(mid) => Exec(mid, others[k - 1])
  }

  /** Before request `k` the others make the log that it finds, by a good run. */
  ghost predicate OthersMakeOne(d: Demands, s: System, i: nat, others: seq<seq<Event>>, replies: seq<Option<seq<ServerOp>>>, k: nat)
    requires k < |others| && k < |replies|
  {
    && NotBy(i, others[k]) && Before(s, others, k).Some? && Before(s, others, k + 1).Some?
    && GoodRun(d, Before(s, others, k).value, others[k])
    && replies[k] == Some(Before(s, others, k + 1).value.log)
  }

  ghost predicate OthersMake(d: Demands, s: System, i: nat, others: seq<seq<Event>>, replies: seq<Option<seq<ServerOp>>>, n: nat) {
    && n <= |others| && n <= |replies|
    && forall k :: 0 <= k < n ==> OthersMakeOne(d, s, i, others, replies, k)
  }

  lemma OthersMeanwhile(d: Demands, s: System, es: seq<Event>, i: nat, mid: System, q: Replica, more: seq<Event>)
    requires Leads(d, PullAction, s, es, i, mid.log, mid.reps, q) && NotBy(i, more) && Exec(mid, more).Some? && GoodRun(d, mid, more)
    ensures Leads(d, PullAction, s, es + more, i, Exec(mid, more).value.log, Exec(mid, more).value.reps, q)
  {
    var t := Exec(mid, more).value;
    OthersGoOn(d, mid, i, q, more);
    Continue(d, s, es, System(mid.log, mid.reps[i := q]), more, System(t.log, t.reps[i := q]));
  }

  /** The run leads to where the system is before request `k`, but with replica `i` being `q`. */
  ghost predicate LeadsTo(d: Demands, s: System, es: seq<Event>, i: nat, others: seq<seq<Event>>, k: nat, q: Replica) {
    && k <= |others| && Before(s, others, k).Some?
    && Leads(d, PullAction, s, es, i, Before(s, others, k).value.log, Before(s, others, k).value.reps, q)
  }

  /** One request: the others go on until it is served, and the replica takes the page. */
  lemma RequestRuns(d: Demands, p: Pull, s: System, i: nat, others: seq<seq<Event>>, replies: seq<Option<seq<ServerOp>>>, saves: bool,
                    r: Replica, es: seq<Event>, q: Replica, at: Spot, k: nat)
    returns (es': seq<Event>, q': Replica)
    requires k < |others| && k < |replies| && OthersMakeOne(d, s, i, others, replies, k)
    requires PullsFor(p, r) && Moved(r, q, at.cursor, at.tables, Idle) && LeadsTo(d, s, es, i, others, k, q)
    ensures LeadsTo(d, s, es', i, others, k + 1, q')
    ensures var page := PullPage(replies[k].value, p.user, at.cursor, PAGE_SIZE);
            Moved(r, q', SavedAfter(p, at, page, saves, k), AfterPage(p, at, page, saves, k).1.tables, Idle)
  {
    var mid, now := Before(s, others, k).value, Before(s, others, k + 1).value;
    var page := PullPage(now.log, p.user, at.cursor, PAGE_SIZE);
    OthersMeanwhile(d, s, es, i, mid, q, others[k]);
    es', q' := PageTaken(d, p, s, es + others[k], i, now.log, now.reps, r, q, at, page, saves, k);
  }

  /** A pull from request `k` on is a run. */
  lemma {:induction false} PullRuns(d: Demands, p: Pull, s: System, i: nat, others: seq<seq<Event>>, replies: seq<Option<seq<ServerOp>>>,
                                    saves: nat -> bool, r: Replica, es: seq<Event>, q: Replica, at: Spot, k: nat)
    returns (es': seq<Event>, q': Replica)
    requires k <= PullFrom(p, at, replies, saves, k).served
    requires OthersMake(d, s, i, others, replies, PullFrom(p, at, replies, saves, k).served)
    requires PullsFor(p, r) && Moved(r, q, at.cursor, at.tables, Idle) && LeadsTo(d, s, es, i, others, k, q)
    ensures var e := PullFrom(p, at, replies, saves, k);
            LeadsTo(d, s, es', i, others, e.served, q') && Moved(r, q', e.cursor, e.spot.tables, Idle)
    decreases |replies| - k
  {
    es', q' := es, q;
    if !Unanswered(replies, k) {
      ServedAfter(p, at, replies, saves, k);
      assert OthersMakeOne(d, s, i, others, replies, k);
      es', q' := RequestRuns(d, p, s, i, others, replies, saves(k), r, es, q, at, k);
      var page := PullPage(replies[k].value, p.user, at.cursor, PAGE_SIZE);
      var (end, next) := AfterPage(p, at, page, saves(k), k);
      if end.None? {
        es', q' := PullRuns(d, p, s, i, others, replies, saves, r, es', q', next, k + 1);
      } else {
        EndIsThere(p, at, page, saves(k), k);
      }
    }
  }

  lemma EndIsThere(p: Pull, at: Spot, page: Page, saves: bool, k: nat)
    ensures var (end, next) := AfterPage(p, at, page, saves, k);
            end.Some? ==> end.value.spot == next && end.value.served == k + 1
  {
  }

  lemma {:induction false} ServedAfter(p: Pull, at: Spot, replies: seq<Option<seq<ServerOp>>>, saves: nat -> bool, k: nat)
    ensures var e := PullFrom(p, at, replies, saves, k).served;
            if Unanswered(replies, k) then e == k else e > k
    decreases |replies| - k
  {
    if !Unanswered(replies, k) {
      var (end, next) := AfterPage(p, at, PullPage(replies[k].value, p.user, at.cursor, PAGE_SIZE), saves(k), k);
      if end.None? { ServedAfter(p, next, replies, saves, k + 1); }
    }
  }

  /** Every pull of the engine, however it ends and whatever the other replicas do between its requests,
      is a run of the machine, good if those of the others are: there is one in which replica `i` only pulls
      and the others do the same, and that leaves it idle with the tables and the saved cursor the engine
      leaves. */
  lemma PullIsReachable(d: Demands, p: Pull, s: System, i: nat, others: seq<seq<Event>>, replies: seq<Option<seq<ServerOp>>>,
                        saves: nat -> bool, at: Spot)
    returns (es: seq<Event>, q: Replica)
    requires i < |s.reps| && s.reps[i].pull.Idle? && PullsFor(p, s.reps[i])
    requires at.cursor == s.reps[i].cursor && at.tables == s.reps[i].tables
    requires OthersMake(d, s, i, others, replies, PullFrom(p, at, replies, saves, 0).served)
    ensures var e := PullFrom(p, at, replies, saves, 0);
            LeadsTo(d, s, es, i, others, e.served, q) && Moved(s.reps[i], q, e.cursor, e.spot.tables, Idle)
  {
    assert s.reps[i := s.reps[i]] == s.reps;
    es, q := PullRuns(d, p, s, i, others, replies, saves, s.reps[i], [], s.reps[i], at, 0);
  }

  // ---------- Pushing ----------

  /** `ops` are made from the entries at `positions`. */
  predicate MadeFrom(ops: seq<PushOp>, positions: seq<nat>) {
    |ops| == |positions| && forall k :: 0 <= k < |ops| ==> ops[k].src == positions[k]
  }

  /** The replica that has marked the first `n` operations and has the others still to send. */
  function Marked(r: Replica, ops: seq<PushOp>, positions: seq<nat>, n: nat): Replica
    requires n <= |ops| == |positions|
  {
    r.(opLog := MarkSynced(r.opLog, positions[..n]), push := Ready(ops[n..]))
  }

  /** Marking a batch's sources is marking the positions it was made from. */
  lemma SourcesArePositions(opLog: seq<LogEntry>, ops: seq<PushOp>, positions: seq<nat>)
    requires MadeFrom(ops, positions)
    ensures MarkSynced(opLog, Sources(ops)) == MarkSynced(opLog, positions)
  {
    forall p ensures p in Sources(ops) <==> p in positions {}
    MarkSameSet(opLog, Sources(ops), positions);
  }

  lemma MarkSameSet(opLog: seq<LogEntry>, ps: seq<nat>, qs: seq<nat>)
    requires forall p :: p in ps <==> p in qs
    ensures MarkSynced(opLog, ps) == MarkSynced(opLog, qs)
  {
  }

  lemma SendsFirst(log: seq<ServerOp>, q: Replica, rest: seq<PushOp>, n: nat)
    requires q.push == Ready(rest) && rest != [] && n == Min(MAX_BATCH, |rest|)
    ensures Act(log, q, SendBatch) == Some((PushAll(log, q.user, q.device, rest[..n]), q.(push := Sent(rest[..n], rest[n..]))))
  {
  }

  /** The next batch leaves the replica and reaches the server. */
  lemma BatchSent(log: seq<ServerOp>, r: Replica, ops: seq<PushOp>, positions: seq<nat>, n: nat, end: nat)
    requires n < |ops| == |positions| && end == Min(n + MAX_BATCH, |ops|)
    ensures Act(PushAll(log, r.user, r.device, ops[..n]), Marked(r, ops, positions, n), SendBatch)
         == Some((PushAll(log, r.user, r.device, ops[..end]),
                  Marked(r, ops, positions, n).(push := Sent(ops[n..end], ops[end..]))))
  {
    SendsFirst(PushAll(log, r.user, r.device, ops[..n]), Marked(r, ops, positions, n), ops[n..], end - n);
    assert ops[n..][..end - n] == ops[n..end];
    assert ops[n..][end - n..] == ops[end..];
    InTwoParts(r.opLog, positions, log, r.user, r.device, ops, n, end);
  }

  lemma MarksBatch(log: seq<ServerOp>, q: Replica, batch: seq<PushOp>, rest: seq<PushOp>, positions: seq<nat>)
    requires q.push == Sent(batch, rest) && MadeFrom(batch, positions)
    ensures Act(log, q, ReplyArrives) == Some((log, q.(opLog := MarkSynced(q.opLog, positions), push := Ready(rest))))
  {
    SourcesArePositions(q.opLog, batch, positions);
  }

  /** Its reply marks it. */
  lemma BatchAnswered(log: seq<ServerOp>, r: Replica, ops: seq<PushOp>, positions: seq<nat>, n: nat, end: nat)
    requires n <= end <= |ops| && MadeFrom(ops, positions)
    ensures Act(log, Marked(r, ops, positions, n).(push := Sent(ops[n..end], ops[end..])), ReplyArrives)
         == Some((log, Marked(r, ops, positions, end)))
  {
    MarksBatch(log, Marked(r, ops, positions, n).(push := Sent(ops[n..end], ops[end..])), ops[n..end], ops[end..], positions[n..end]);
    MarkInTwoParts(r.opLog, positions[..n], positions[n..end]);
    assert positions[..n] + positions[n..end] == positions[..end];
  }

  /** Operation ids that are honest for the log: one that is there names the same entry, and no two of the
      operations share one. */
  ghost predicate HonestIds(log: seq<ServerOp>, r: Replica, ops: seq<PushOp>) {
    && (forall k, n :: 0 <= k < |ops| && 0 <= n < |log| && log[n].user == r.user && log[n].opId == ops[k].opId
          ==> log[n].device == r.device && log[n].src == ops[k].src)
    && (forall k, l :: 0 <= k < l < |ops| ==> ops[k].opId != ops[l].opId)
  }

  /** They stay honest from batch to batch. */
  lemma StayHonest(log: seq<ServerOp>, reps: seq<Replica>, i: nat, q: Replica, ops: seq<PushOp>, n: nat)
    requires i < |reps| && n <= |ops| && q.push == Ready(ops[n..]) && HonestIds(log, q, ops)
    ensures Honest(System(PushAll(log, q.user, q.device, ops[..n]), reps[i := q]), i, SendBatch)
  {
    var log', rest := PushAll(log, q.user, q.device, ops[..n]), ops[n..];
    PushAdds(log, q.user, q.device, ops[..n]);
    forall k, m | 0 <= k < |rest| && 0 <= m < |log'| && log'[m].user == q.user && log'[m].opId == rest[k].opId
      ensures log'[m].device == q.device && log'[m].src == rest[k].src
    {
      assert rest[k] == ops[n + k];
      if m < |log| { assert log'[m] == log[m]; }
    }
  }

  /** A batch takes replica `i` from `q` over `w`, which waits for the reply, to `q'`, and the log to `log'`. */
  ghost predicate Takes(d: Demands, reps: seq<Replica>, i: nat, log: seq<ServerOp>, q: Replica, w: Replica, log': seq<ServerOp>, q': Replica)
    requires i < |reps|
  {
    && Act(log, q, SendBatch) == Some((log', w)) && Meets(d, System(log, reps[i := q]), i, SendBatch)
    && Act(log', w, ReplyArrives) == Some((log', q'))
  }

  /** Batch `k` does so, from `qs(k)` over `ws(k)` to `qs(k + 1)`. */
  ghost predicate BatchTaken(d: Demands, reps: seq<Replica>, i: nat, logs: nat -> seq<ServerOp>, qs: nat -> Replica, ws: nat -> Replica, k: nat)
    requires i < |reps|
  {
    Takes(d, reps, i, logs(k), qs(k), ws(k), logs(k + 1), qs(k + 1))
  }

  /** Any run to the front of batch `k` goes on to the front of the next. */
  ghost predicate Advances(d: Demands, s: System, i: nat, reps: seq<Replica>, logs: nat -> seq<ServerOp>, qs: nat -> Replica, k: nat) {
    forall es :: Leads(d, PushAction, s, es, i, logs(k), reps, qs(k)) ==>
      Leads(d, PushAction, s, es + [Event(i, SendBatch)] + [Event(i, ReplyArrives)], i, logs(k + 1), reps, qs(k + 1))
  }

  lemma BatchAdvances(d: Demands, s: System, i: nat, reps: seq<Replica>, logs: nat -> seq<ServerOp>, qs: nat -> Replica, ws: nat -> Replica, k: nat)
    requires i < |reps| && BatchTaken(d, reps, i, logs, qs, ws, k)
    ensures Advances(d, s, i, reps, logs, qs, k)
  {
    forall es | Leads(d, PushAction, s, es, i, logs(k), reps, qs(k))
      ensures Leads(d, PushAction, s, es + [Event(i, SendBatch)] + [Event(i, ReplyArrives)], i, logs(k + 1), reps, qs(k + 1))
    {
      LeadsOn(d, PushAction, s, es, i, logs(k), reps, qs(k), SendBatch, logs(k + 1), ws(k));
      LeadsOn(d, PushAction, s, es + [Event(i, SendBatch)], i, logs(k + 1), reps, ws(k), ReplyArrives, logs(k + 1), qs(k + 1));
    }
  }

  /** From in front of the first batch to behind the `n`-th. */
  lemma {:induction false} BatchesRun(d: Demands, s: System, es: seq<Event>, i: nat, reps: seq<Replica>, logs: nat -> seq<ServerOp>,
                                      qs: nat -> Replica, n: nat) returns (es': seq<Event>)
    requires Leads(d, PushAction, s, es, i, logs(0), reps, qs(0))
    requires forall k: nat :: k < n ==> Advances(d, s, i, reps, logs, qs, k)
    ensures Leads(d, PushAction, s, es', i, logs(n), reps, qs(n))
    decreases n
  {
    es' := es;
    if n > 0 {
      es' := BatchesRun(d, s, es, i, reps, logs, qs, n - 1);
      assert Advances(d, s, i, reps, logs, qs, n - 1);
      es' := es' + [Event(i, SendBatch)] + [Event(i, ReplyArrives)];
    }
  }

  /** The replica after `k` batches, and while it waits for the reply to the next. */
  function BehindBatch(r: Replica, ops: seq<PushOp>, positions: seq<nat>): nat -> Replica
    requires |ops| == |positions|
  {
    (k: nat) => Marked(r, ops, positions, InBatches(k, |ops|))
  }

  function Waiting(r: Replica, ops: seq<PushOp>, positions: seq<nat>): nat -> Replica
    requires |ops| == |positions|
  {
    (k: nat) => Marked(r, ops, positions, InBatches(k, |ops|)).(push := Sent(BatchNo(ops, k), ops[InBatches(k + 1, |ops|)..]))
  }

  lemma OneBatchTaken(d: Demands, log: seq<ServerOp>, reps: seq<Replica>, i: nat, r: Replica, ops: seq<PushOp>, positions: seq<nat>,
                      n: nat, end: nat)
    requires i < |reps| && MadeFrom(ops, positions) && (d.honest ==> HonestIds(log, r, ops))
    requires n < |ops| && end == Min(n + MAX_BATCH, |ops|)
    ensures Takes(d, reps, i, PushAll(log, r.user, r.device, ops[..n]), Marked(r, ops, positions, n),
                  Marked(r, ops, positions, n).(push := Sent(ops[n..end], ops[end..])),
                  PushAll(log, r.user, r.device, ops[..end]), Marked(r, ops, positions, end))
  {
    BatchSent(log, r, ops, positions, n, end);
    BatchAnswered(PushAll(log, r.user, r.device, ops[..end]), r, ops, positions, n, end);
    if d.honest { StayHonest(log, reps, i, Marked(r, ops, positions, n), ops, n); }
  }

  lemma EveryBatchTaken(d: Demands, log: seq<ServerOp>, reps: seq<Replica>, i: nat, r: Replica, ops: seq<PushOp>, positions: seq<nat>, k: nat)
    requires i < |reps| && MadeFrom(ops, positions) && (d.honest ==> HonestIds(log, r, ops)) && InBatches(k, |ops|) < |ops|
    ensures BatchTaken(d, reps, i, Pushes(log, r.user, r.device, ops), BehindBatch(r, ops, positions), Waiting(r, ops, positions), k)
  {
    NextBatch(k, |ops|);
    OneBatchTaken(d, log, reps, i, r, ops, positions, InBatches(k, |ops|), InBatches(k + 1, |ops|));
  }

  /** As many batches as there are, and as many that arrive. */
  lemma {:induction false} Fewest(batches: nat, arrived: nat, size: nat) returns (m: nat, n: nat)
    requires arrived == batches || (arrived == batches + 1 && InBatches(batches, size) < size)
    ensures InBatches(m, size) == InBatches(batches, size) && InBatches(n, size) == InBatches(arrived, size)
    ensures (n == m || n == m + 1) && forall k: nat :: k < n ==> InBatches(k, size) < size
    decreases batches
  {
    m, n := batches, arrived;
    if batches > 0 && InBatches(batches - 1, size) == size { m, n := Fewest(batches - 1, batches - 1, size); }
  }

  /** The operations are listed. */
  lemma PushBegins(d: Demands, s: System, i: nat, us: seq<UnsyncedOp>, ids: nat -> string) returns (es: seq<Event>)
    requires i < |s.reps| && s.reps[i].push.Quiet? && IsUnsyncedList(s.reps[i].opLog, us)
    ensures Leads(d, PushAction, s, es, i, s.log, s.reps, s.reps[i].(push := Ready(Payloads(us, ids))))
  {
    var r := s.reps[i];
    assert s.reps[i := r] == s.reps;
    LeadsOn(d, PushAction, s, [], i, s.log, s.reps, r, BeginPush(us, ids), s.log, r.(push := Ready(Payloads(us, ids))));
    es := [] + [Event(i, BeginPush(us, ids))];
  }

  lemma BeforeBatches(log: seq<ServerOp>, r: Replica, ops: seq<PushOp>, positions: seq<nat>)
    requires |ops| == |positions|
    ensures Pushes(log, r.user, r.device, ops)(0) == log && BehindBatch(r, ops, positions)(0) == r.(push := Ready(ops))
  {
    assert positions[..0] == [] && ops[0..] == ops && ops[..0] == [];
    assert MarkSynced(r.opLog, []) == r.opLog;
  }

  lemma AfterBatches(log: seq<ServerOp>, r: Replica, ops: seq<PushOp>, positions: seq<nat>, n: nat)
    requires |ops| == |positions| && r.push.Quiet?
    ensures BehindBatch(r, ops, positions)(n).(push := Quiet) == r.(opLog := MarkSynced(r.opLog, positions[..InBatches(n, |ops|)]))
    ensures Waiting(r, ops, positions)(n) == BehindBatch(r, ops, positions)(n).(push := Waiting(r, ops, positions)(n).push)
  {
  }

  /** Every end of `PushPending` is reached by push steps of the machine, with the same op log and the same
      server log: after any number of answered batches, and after one more arrived if only its reply was
      lost. The run is good if the operation ids are honest where that is asked. */
  lemma PushIsReachable(d: Demands, s: System, i: nat, us: seq<UnsyncedOp>, ids: nat -> string, batches: nat, arrived: nat)
    returns (es: seq<Event>)
    requires i < |s.reps| && s.reps[i].push.Quiet? && IsUnsyncedList(s.reps[i].opLog, us)
    requires d.honest ==> HonestIds(s.log, s.reps[i], Payloads(us, ids))
    requires arrived == batches || (arrived == batches + 1 && InBatches(batches, |us|) < |us|)
    ensures var r := s.reps[i];
            Leads(d, PushAction, s, es, i, PushAll(s.log, r.user, r.device, Payloads(us, ids)[..InBatches(arrived, |us|)]), s.reps,
                  r.(opLog := MarkSynced(r.opLog, Positions(us)[..InBatches(batches, |us|)])))
  {
    var es0 := PushBegins(d, s, i, us, ids);
    es := PushEnds(d, s, es0, i, s.reps[i], Payloads(us, ids), Positions(us), batches, arrived);
  }

  lemma PushEnds(d: Demands, s: System, es: seq<Event>, i: nat, r: Replica, ops: seq<PushOp>, positions: seq<nat>, batches: nat, arrived: nat)
    returns (es': seq<Event>)
    requires Leads(d, PushAction, s, es, i, s.log, s.reps, r.(push := Ready(ops))) && r.push.Quiet?
    requires MadeFrom(ops, positions) && (d.honest ==> HonestIds(s.log, r, ops))
    requires arrived == batches || (arrived == batches + 1 && InBatches(batches, |ops|) < |ops|)
    ensures Leads(d, PushAction, s, es', i, PushAll(s.log, r.user, r.device, ops[..InBatches(arrived, |ops|)]), s.reps,
                  r.(opLog := MarkSynced(r.opLog, positions[..InBatches(batches, |ops|)])))
  {
    var m, n := Fewest(batches, arrived, |ops|);
    BeforeBatches(s.log, r, ops, positions);
    es' := PushEndsBehind(d, s, es, i, r, ops, positions, m, n);
    AfterBatches(s.log, r, ops, positions, m);
  }

  lemma PushEndsBehind(d: Demands, s: System, es: seq<Event>, i: nat, r: Replica, ops: seq<PushOp>, positions: seq<nat>, m: nat, n: nat)
    returns (es': seq<Event>)
    requires |ops| == |positions|
    requires Leads(d, PushAction, s, es, i, Pushes(s.log, r.user, r.device, ops)(0), s.reps, BehindBatch(r, ops, positions)(0)) && r.push.Quiet?
    requires MadeFrom(ops, positions) && (d.honest ==> HonestIds(s.log, r, ops))
    requires n == m || n == m + 1
    requires forall k: nat :: k < n ==> InBatches(k, |ops|) < |ops|
    ensures Leads(d, PushAction, s, es', i, Pushes(s.log, r.user, r.device, ops)(n), s.reps, BehindBatch(r, ops, positions)(m).(push := Quiet))
  {
    var logs, qs, ws := Pushes(s.log, r.user, r.device, ops), BehindBatch(r, ops, positions), Waiting(r, ops, positions);
    forall k: nat | k < n ensures BatchTaken(d, s.reps, i, logs, qs, ws, k) && Advances(d, s, i, s.reps, logs, qs, k) {
      EveryBatchTaken(d, s.log, s.reps, i, r, ops, positions, k);
      BatchAdvances(d, s, i, s.reps, logs, qs, ws, k);
    }
    AfterBatches(s.log, r, ops, positions, m);
    es' := BatchesEnd(d, s, es, i, s.reps, logs, qs, ws, m, n);
  }

  lemma BatchesEnd(d: Demands, s: System, es: seq<Event>, i: nat, reps: seq<Replica>, logs: nat -> seq<ServerOp>,
                   qs: nat -> Replica, ws: nat -> Replica, m: nat, n: nat) returns (es': seq<Event>)
    requires Leads(d, PushAction, s, es, i, logs(0), reps, qs(0)) && (n == m || n == m + 1)
    requires forall k: nat :: k < m ==> Advances(d, s, i, reps, logs, qs, k)
    requires n == m + 1 ==> BatchTaken(d, reps, i, logs, qs, ws, m) && ws(m) == qs(m).(push := ws(m).push)
    ensures Leads(d, PushAction, s, es', i, logs(n), reps, qs(m).(push := Quiet))
  {
    es' := BatchesRun(d, s, es, i, reps, logs, qs, m);
    if n == m + 1 {
      es' := LastBatchSent(d, s, es', i, reps, logs, qs, ws, m);
    } else {
      es' := StopsHere(d, s, es', i, reps, logs(m), qs(m));
    }
  }

  lemma StopsHere(d: Demands, s: System, es: seq<Event>, i: nat, reps: seq<Replica>, log: seq<ServerOp>, q: Replica) returns (es': seq<Event>)
    requires Leads(d, PushAction, s, es, i, log, reps, q)
    ensures Leads(d, PushAction, s, es', i, log, reps, q.(push := Quiet))
  {
    LeadsOn(d, PushAction, s, es, i, log, reps, q, StopPush, log, q.(push := Quiet));
    es' := es + [Event(i, StopPush)];
  }

  lemma LastBatchSent(d: Demands, s: System, es: seq<Event>, i: nat, reps: seq<Replica>, logs: nat -> seq<ServerOp>,
                      qs: nat -> Replica, ws: nat -> Replica, m: nat) returns (es': seq<Event>)
    requires Leads(d, PushAction, s, es, i, logs(m), reps, qs(m)) && BatchTaken(d, reps, i, logs, qs, ws, m)
    requires ws(m) == qs(m).(push := ws(m).push)
    ensures Leads(d, PushAction, s, es', i, logs(m + 1), reps, qs(m).(push := Quiet))
  {
    LeadsOn(d, PushAction, s, es, i, logs(m), reps, qs(m), SendBatch, logs(m + 1), ws(m));
    LeadsOn(d, PushAction, s, es + [Event(i, SendBatch)], i, logs(m + 1), reps, ws(m), StopPush, logs(m + 1), qs(m).(push := Quiet));
    es' := (es + [Event(i, SendBatch)]) + [Event(i, StopPush)];
  }
}
