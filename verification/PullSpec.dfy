/** What a pull is: the rows it takes, the state it is in after each of them, and how it can end. */
module PullSpec {
  import opened Basics
  import opened Hlc
  import opened Tables
  import opened SyncServer

  const PAGE_SIZE := 100

  /** The rows that are not the engine's own, as they reach storage. */
  function Foreign(rows: seq<RemoteOp>, device: string): seq<Incoming> {
    if rows == [] then []
    else
      var init, last := Foreign(rows[..|rows| - 1], device), rows[|rows| - 1].op;
      if last.device == device then init else init + [Incoming(last.payload, last.ts)]
  }

  function Stamps(ops: seq<Incoming>): (r: seq<i64>)
    ensures |r| == |ops|
  {
    seq(|ops|, i requires 0 <= i < |ops| => ops[i].ts)
  }

  function UpTo(log: seq<ServerOp>, m: nat): (r: seq<ServerOp>)
    ensures m <= |log| ==> r == log[..m]
  {
    if m <= |log| then log[..m] else log
  }

  /** The rows between two positions of a log. */
  function Between(log: seq<ServerOp>, user: string, c: nat, m: nat): seq<RemoteOp> {
    Rows(UpTo(log, m), user, c)
  }

  /** What an engine at position `m` has taken from a log since it stood at `c`. */
  function Taken(log: seq<ServerOp>, user: string, device: string, c: nat, m: nat): seq<Incoming> {
    Foreign(Between(log, user, c, m), device)
  }

  predicate Extends(more: seq<ServerOp>, log: seq<ServerOp>) {
    |log| <= |more| && more[..|log|] == log
  }

  /** The server's log only grows between the requests of one pull. */
  ghost predicate Growing(replies: seq<Option<seq<ServerOp>>>) {
    forall i, j :: 0 <= i < j < |replies| && replies[i].Some? && replies[j].Some?
      ==> Extends(replies[j].value, replies[i].value)
  }

  /** A later pull from the same position starts with the same operation, however much the log has
      grown since. */
  lemma NextPullStartsAt(log: seq<ServerOp>, more: seq<ServerOp>, user: string, m: nat)
    requires Extends(more, log) && Rows(log, user, m) != []
    ensures PullPage(more, user, m, PAGE_SIZE).operations != []
    ensures PullPage(more, user, m, PAGE_SIZE).operations[0] == Rows(log, user, m)[0]
  {
    RowsGrow(log, more, user, m);
  }

  /** A page holds the first rows above the cursor; without more to come, all of them. */
  lemma PageServed(log: seq<ServerOp>, user: string, cursor: nat)
    ensures var page, rows := PullPage(log, user, cursor, PAGE_SIZE), Rows(log, user, cursor);
            && page.operations <= rows
            && (page.operations == [] ==> rows == [])
            && (page.operations != [] ==> page.nextCursor == page.operations[|page.operations| - 1].seqNo)
            && (!page.hasMore ==> page.operations == rows)
  {
  }

  // ---------- Taking rows ----------

  /** Who pulls: the user, the device id the engine skips, the registered books, and the wall time at
      each merge of the pull. */
  datatype Pull = Pull(user: string, device: string, books: set<string>, clock: nat -> u64)

  /** Where a pull stands: its position, tables and clock, and how many operations it has merged, and
      applied rather than ignored. */
  datatype Spot = Spot(cursor: nat, tables: Tables, hlc: HlcTimestamp, merges: nat, applied: nat)

  datatype Stop = Overflow | Refused

  function MergeTime(p: Pull, s: Spot, x: RemoteOp): Option<HlcTimestamp> {
    Merge(s.hlc, FromU64(AsU64(x.op.ts), 0), p.clock(s.merges))
  }

  /** One row: an own one is skipped, any other merged and applied. */
  function TakeRow(p: Pull, s: Spot, x: RemoteOp): (Spot, Option<Stop>) {
    if x.op.device == p.device then (s.(cursor := x.seqNo), None)
    else
      match MergeTime(p, s, x)
      case None => (s, Some(Overflow))
      case Some(h) =>
        var (t, res) := ApplyRemote(p.books, s.tables, x.op.payload, x.op.ts);
        if res.Failed? then (s.(tables := t, hlc := h), Some(Refused))
        else (Spot(x.seqNo, t, h, s.merges + 1, s.applied + if res.Applied? then 1 else 0), None)
  }

  /** Rows in order, up to the first that stops the pull. */
  function TakeRows(p: Pull, s: Spot, rows: seq<RemoteOp>): (Spot, Option<Stop>)
    decreases |rows|
  {
    if rows == [] then (s, None)
    else
      var (mid, stop) := TakeRows(p, s, rows[..|rows| - 1]);
      if stop.Some? then (mid, stop) else TakeRow(p, mid, rows[|rows| - 1])
  }

  lemma {:induction false} TakeRowsConcat(p: Pull, s: Spot, a: seq<RemoteOp>, b: seq<RemoteOp>)
    ensures var (mid, stop) := TakeRows(p, s, a);
            TakeRows(p, s, a + b) == if stop.Some? then (mid, stop) else TakeRows(p, mid, b)
    decreases |b|
  {
    if b == [] {
      assert a + b == a;
    } else {
      assert (a + b)[..|a + b| - 1] == a + b[..|b| - 1];
      TakeRowsConcat(p, s, a, b[..|b| - 1]);
    }
  }

  /** Rows that do not stop the pull lead to the last of them. */
  lemma TakenToTheLast(p: Pull, s: Spot, rows: seq<RemoteOp>)
    requires rows != [] && TakeRows(p, s, rows).1 == None
    ensures TakeRows(p, s, rows).0.cursor == rows[|rows| - 1].seqNo
  {
  }

  // ---------- Whole pulls ----------

  datatype PullOutcome = PullDone(applied: nat) | TransportFailed | ApplyFailed | SaveFailed | ClockPanic

  /** The end of a pull: its outcome, how many requests were answered, the saved cursor, and where the
      pull stands. */
  datatype PullEnd = PullEnd(outcome: PullOutcome, served: nat, cursor: nat, spot: Spot)

  /** There is no answer to request `k`. */
  predicate Unanswered(replies: seq<Option<seq<ServerOp>>>, k: nat) {
    k >= |replies| || replies[k].None?
  }

  /** The page of request `k` was taken from `s` to `next`, where `stop` says whether an operation stopped
      it: the end of the pull, if this is the end. The position is saved, if `saves`, unless an operation
      overflowed the clock. */
  function Verdict(s: Spot, hasMore: bool, next: Spot, stop: Option<Stop>, saves: bool, k: nat): Option<PullEnd> {
    if stop == Some(Overflow) then Some(PullEnd(ClockPanic, k + 1, s.cursor, next))
    else if !saves then Some(PullEnd(SaveFailed, k + 1, s.cursor, next))
    else if stop.Some? then Some(PullEnd(ApplyFailed, k + 1, next.cursor, next))
    else if !hasMore then Some(PullEnd(PullDone(next.applied), k + 1, next.cursor, next))
    else None
  }

  /** The answer to request `k`: the end of the pull, if this is the end, and where it stands then. */
  function AfterPage(p: Pull, s: Spot, page: Page, saves: bool, k: nat): (Option<PullEnd>, Spot) {
    if page.operations == [] then (Some(PullEnd(PullDone(s.applied), k + 1, s.cursor, s)), s)
    else
      var (next, stop) := TakeRows(p, s, page.operations);
      (Verdict(s, page.hasMore, next, stop, saves, k), next)
  }

  /** A pull from request `k` on. Request `k` sees the log `replies[k]` of the server, `None` being a
      transport error; the position after page `k` can be saved if `saves(k)`. */
  function PullFrom(p: Pull, s: Spot, replies: seq<Option<seq<ServerOp>>>, saves: nat -> bool, k: nat): PullEnd
    decreases |replies| - k
  {
    if Unanswered(replies, k) then PullEnd(TransportFailed, k, s.cursor, s)
    else
      var (end, next) := AfterPage(p, s, PullPage(replies[k].value, p.user, s.cursor, PAGE_SIZE), saves(k), k);
      if end.Some? then end.value else PullFrom(p, next, replies, saves, k + 1)
  }

  // ---------- Where a pull stands ----------

  /** `s` is where a pull from `s0` stands in a log: it has taken exactly the rows between the two. */
  ghost predicate At(p: Pull, s0: Spot, log: seq<ServerOp>, s: Spot) {
    && s0.cursor <= s.cursor && (s.cursor <= |log| || s.cursor == s0.cursor)
    && TakeRows(p, s0, Between(log, p.user, s0.cursor, s.cursor)) == (s, None)
  }

  /** The pull has taken exactly the rows between the two, and the next one has stopped it. */
  ghost predicate StoppedAt(p: Pull, s0: Spot, log: seq<ServerOp>, s: Spot, stop: Stop) {
    && s0.cursor <= s.cursor && Rows(log, p.user, s.cursor) != []
    && var (before, none) := TakeRows(p, s0, Between(log, p.user, s0.cursor, s.cursor));
       none == None && TakeRow(p, before, Rows(log, p.user, s.cursor)[0]) == (s, Some(stop))
  }

  lemma AtStart(p: Pull, s: Spot)
    ensures At(p, s, [], s)
  {
    RowsPastEnd(UpTo([], s.cursor), p.user, s.cursor);
  }

  lemma BetweenGrows(log: seq<ServerOp>, more: seq<ServerOp>, user: string, c: nat, m: nat)
    requires Extends(more, log) && (m <= |log| || m == c)
    ensures Between(more, user, c, m) == Between(log, user, c, m)
  {
    if m <= |log| {
      assert more[..m] == log[..m];
    } else {
      RowsPastEnd(UpTo(more, m), user, c);
      RowsPastEnd(UpTo(log, m), user, c);
    }
  }

  lemma AtGrows(p: Pull, s0: Spot, log: seq<ServerOp>, more: seq<ServerOp>, s: Spot)
    requires At(p, s0, log, s) && Extends(more, log)
    ensures At(p, s0, more, s)
  {
    BetweenGrows(log, more, p.user, s0.cursor, s.cursor);
  }

  lemma BetweenNext(log: seq<ServerOp>, user: string, c: nat, m: nat)
    requires c <= m && Rows(log, user, m) != []
    ensures var x := Rows(log, user, m)[0];
            && m < x.seqNo <= |log| && Rows(log, user, x.seqNo) == Rows(log, user, m)[1..]
            && Between(log, user, c, x.seqNo) == Between(log, user, c, m) + [x]
  {
    if |log| <= m { RowsPastEnd(log, user, m); }
    RowsNext(log, user, c, m);
  }

  lemma RowMoves(p: Pull, s: Spot, x: RemoteOp)
    ensures var (next, stop) := TakeRow(p, s, x);
            next.cursor == if stop.Some? then s.cursor else x.seqNo
  {
  }

  lemma OneRowMore(p: Pull, s0: Spot, before: seq<RemoteOp>, s: Spot, x: RemoteOp)
    requires TakeRows(p, s0, before) == (s, None)
    ensures TakeRows(p, s0, before + [x]) == TakeRow(p, s, x)
  {
    assert (before + [x])[..|before|] == before;
  }

  /** One row further. */
  lemma AtNext(p: Pull, s0: Spot, log: seq<ServerOp>, s: Spot)
    requires At(p, s0, log, s) && Rows(log, p.user, s.cursor) != []
    ensures var (next, stop) := TakeRow(p, s, Rows(log, p.user, s.cursor)[0]);
            if stop.Some? then StoppedAt(p, s0, log, next, stop.value) && next.cursor == s.cursor
            else At(p, s0, log, next) && s.cursor < next.cursor && Rows(log, p.user, next.cursor) == Rows(log, p.user, s.cursor)[1..]
  {
    var x := Rows(log, p.user, s.cursor)[0];
    BetweenNext(log, p.user, s0.cursor, s.cursor);
    OneRowMore(p, s0, Between(log, p.user, s0.cursor, s.cursor), s, x);
    RowMoves(p, s, x);
  }

  /** Rows further. */
  lemma {:induction false} AtRows(p: Pull, s0: Spot, log: seq<ServerOp>, s: Spot, rows: seq<RemoteOp>)
    requires At(p, s0, log, s) && rows <= Rows(log, p.user, s.cursor)
    ensures var (next, stop) := TakeRows(p, s, rows);
            && s.cursor <= next.cursor
            && if stop.Some? then StoppedAt(p, s0, log, next, stop.value)
               else At(p, s0, log, next) && Rows(log, p.user, next.cursor) == Rows(log, p.user, s.cursor)[|rows|..]
    decreases |rows|
  {
    if rows != [] {
      var init := rows[..|rows| - 1];
      AtRows(p, s0, log, s, init);
      var (mid, stop) := TakeRows(p, s, init);
      if stop.None? {
        assert Rows(log, p.user, mid.cursor)[0] == rows[|rows| - 1];
        AtNext(p, s0, log, mid);
      }
    }
  }

  /** The log behind the last of `k` answered requests; the empty log before the first. */
  function LogServed(replies: seq<Option<seq<ServerOp>>>, k: nat): seq<ServerOp> {
    if 0 < k <= |replies| && replies[k - 1].Some? then replies[k - 1].value else []
  }

  lemma LogsGrow(replies: seq<Option<seq<ServerOp>>>, k: nat)
    requires Growing(replies) && !Unanswered(replies, k) && forall i :: 0 <= i < k ==> replies[i].Some?
    ensures Extends(LogServed(replies, k + 1), LogServed(replies, k))
  {
  }

  /** What an end means, in terms of the log of the last answered request. A pull that is done could save its
      position after that request, unless it stood there before. */
  ghost predicate EndsRight(p: Pull, s0: Spot, replies: seq<Option<seq<ServerOp>>>, saves: nat -> bool, e: PullEnd) {
    var n, log := e.served - 1, LogServed(replies, e.served);
    && e.served <= |replies| && (forall i :: 0 <= i < e.served ==> replies[i].Some?) && (forall i :: 0 <= i < n ==> saves(i))
    && s0.cursor <= e.cursor <= e.spot.cursor
    && match e.outcome
       case PullDone(applied) =>
         && e.served > 0 && At(p, s0, log, e.spot) && Rows(log, p.user, e.spot.cursor) == []
         && e.cursor == e.spot.cursor && applied == e.spot.applied
         && (saves(n) || At(p, s0, LogServed(replies, n), e.spot))
       case TransportFailed => Unanswered(replies, e.served) && At(p, s0, log, e.spot) && e.cursor == e.spot.cursor
       case ApplyFailed => e.served > 0 && saves(n) && StoppedAt(p, s0, log, e.spot, Refused) && e.cursor == e.spot.cursor
       case SaveFailed => e.served > 0 && !saves(n) && (At(p, s0, log, e.spot) || StoppedAt(p, s0, log, e.spot, Refused))
       case ClockPanic => e.served > 0 && StoppedAt(p, s0, log, e.spot, Overflow)
  }

  lemma VerdictIsRight(p: Pull, s0: Spot, s: Spot, replies: seq<Option<seq<ServerOp>>>, saves: nat -> bool, k: nat,
                       hasMore: bool, next: Spot, stop: Option<Stop>)
    requires !Unanswered(replies, k) && forall i :: 0 <= i < k ==> replies[i].Some? && saves(i)
    requires s0.cursor <= s.cursor <= next.cursor
    requires if stop.Some? then StoppedAt(p, s0, replies[k].value, next, stop.value) else At(p, s0, replies[k].value, next)
    requires stop.None? && !hasMore ==> Rows(replies[k].value, p.user, next.cursor) == []
    ensures var end := Verdict(s, hasMore, next, stop, saves(k), k);
            if end.Some? then EndsRight(p, s0, replies, saves, end.value) else saves(k) && stop == None
  {
    assert stop.Some? ==> stop.value == Overflow || stop.value == Refused;
  }

  /** The answer to a request ends the pull right, or leads on. */
  lemma PageEndsRight(p: Pull, s0: Spot, s: Spot, replies: seq<Option<seq<ServerOp>>>, saves: nat -> bool, k: nat)
    requires !Unanswered(replies, k) && At(p, s0, LogServed(replies, k), s) && At(p, s0, replies[k].value, s)
    requires forall i :: 0 <= i < k ==> replies[i].Some? && saves(i)
    ensures var (end, next) := AfterPage(p, s, PullPage(replies[k].value, p.user, s.cursor, PAGE_SIZE), saves(k), k);
            if end.Some? then EndsRight(p, s0, replies, saves, end.value) else saves(k) && At(p, s0, replies[k].value, next)
  {
    var log, page := replies[k].value, PullPage(replies[k].value, p.user, s.cursor, PAGE_SIZE);
    PageServed(log, p.user, s.cursor);
    if page.operations != [] {
      AtRows(p, s0, log, s, page.operations);
      var (next, stop) := TakeRows(p, s, page.operations);
      VerdictIsRight(p, s0, s, replies, saves, k, page.hasMore, next, stop);
    }
  }

  lemma NoAnswerEndsRight(p: Pull, s0: Spot, s: Spot, replies: seq<Option<seq<ServerOp>>>, saves: nat -> bool, k: nat)
    requires Unanswered(replies, k) && k <= |replies| && At(p, s0, LogServed(replies, k), s)
    requires forall i :: 0 <= i < k ==> replies[i].Some? && saves(i)
    ensures EndsRight(p, s0, replies, saves, PullEnd(TransportFailed, k, s.cursor, s))
  {
  }

  /** Before request `k` the pull stands at `s`; all requests before were answered, and their pages saved. */
  ghost predicate SoFar(p: Pull, s0: Spot, replies: seq<Option<seq<ServerOp>>>, saves: nat -> bool, k: nat, s: Spot) {
    && k <= |replies| && At(p, s0, LogServed(replies, k), s)
    && forall i :: 0 <= i < k ==> replies[i].Some? && saves(i)
  }

  /** The answer to request `k`. */
  function AfterRequest(p: Pull, s: Spot, replies: seq<Option<seq<ServerOp>>>, saves: nat -> bool, k: nat): (Option<PullEnd>, Spot)
    requires !Unanswered(replies, k)
  {
    AfterPage(p, s, PullPage(replies[k].value, p.user, s.cursor, PAGE_SIZE), saves(k), k)
  }

  /** A request that does not end the pull. */
  lemma NextRequest(p: Pull, s0: Spot, s: Spot, replies: seq<Option<seq<ServerOp>>>, saves: nat -> bool, k: nat)
    requires Growing(replies) && !Unanswered(replies, k) && SoFar(p, s0, replies, saves, k, s)
    requires AfterRequest(p, s, replies, saves, k).0.None?
    ensures var next := AfterRequest(p, s, replies, saves, k).1;
            SoFar(p, s0, replies, saves, k + 1, next) && PullFrom(p, s, replies, saves, k) == PullFrom(p, next, replies, saves, k + 1)
  {
    LogsGrow(replies, k);
    AtGrows(p, s0, LogServed(replies, k), replies[k].value, s);
    PageEndsRight(p, s0, s, replies, saves, k);
  }

  /** The last request of a pull: it is not answered, or its answer ends the pull. */
  lemma {:induction false} LastRequest(p: Pull, s0: Spot, s: Spot, replies: seq<Option<seq<ServerOp>>>, saves: nat -> bool, k: nat)
    returns (last: Spot, n: nat)
    requires Growing(replies) && SoFar(p, s0, replies, saves, k, s)
    ensures SoFar(p, s0, replies, saves, n, last) && PullFrom(p, s, replies, saves, k) == PullFrom(p, last, replies, saves, n)
    ensures Unanswered(replies, n) || AfterRequest(p, last, replies, saves, n).0.Some?
    decreases |replies| - k
  {
    last, n := s, k;
    if !Unanswered(replies, k) && AfterRequest(p, s, replies, saves, k).0.None? {
      NextRequest(p, s0, s, replies, saves, k);
      last, n := LastRequest(p, s0, AfterRequest(p, s, replies, saves, k).1, replies, saves, k + 1);
    }
  }

  /** However a pull ends, it ends right: it has taken exactly the rows of the log between the old cursor
      and its position; the saved cursor is at that position, or before it when it could not be saved. */
  lemma PullEndsRight(p: Pull, s0: Spot, s: Spot, replies: seq<Option<seq<ServerOp>>>, saves: nat -> bool, k: nat)
    requires Growing(replies) && k <= |replies| && At(p, s0, LogServed(replies, k), s)
    requires forall i :: 0 <= i < k ==> replies[i].Some? && saves(i)
    ensures EndsRight(p, s0, replies, saves, PullFrom(p, s, replies, saves, k))
  {
    var last, n := LastRequest(p, s0, s, replies, saves, k);
    if Unanswered(replies, n) {
      NoAnswerEndsRight(p, s0, last, replies, saves, n);
    } else {
      LogsGrow(replies, n);
      AtGrows(p, s0, LogServed(replies, n), replies[n].value, last);
      PageEndsRight(p, s0, last, replies, saves, n);
    }
  }
}
