/** The sync engine of one device: pushing pending operations in batches and pulling pages. The
    network is a parameter: it decides the fate of each request, and what the server's log is when
    a page is served. */
module SyncEngine {
  import opened Basics
  import opened Hlc
  import opened Tables
  import opened SyncServer
  import opened LocalStore
  import opened PullSpec
  import opened PullTheorems

  datatype PushOutcome = Pushed(total: nat) | PushFailed

  /** The operations sent for the unsynced rows `us`; `ids(i)` is the operation id of the `i`-th.
      The storage adapter draws a fresh one at every listing. */
  function Payloads(us: seq<UnsyncedOp>, ids: nat -> string): (r: seq<PushOp>)
    ensures |r| == |us|
    ensures forall i :: 0 <= i < |us| ==> r[i] == PushOp(ids(i), Json(us[i].op), us[i].ts, us[i].pos)
  {
    seq(|us|, i requires 0 <= i < |us| => PushOp(ids(i), Json(us[i].op), us[i].ts, us[i].pos))
  }

  function Positions(us: seq<UnsyncedOp>): (r: seq<nat>)
    ensures |r| == |us|
    ensures forall i :: 0 <= i < |us| ==> r[i] == us[i].pos
  {
    seq(|us|, i requires 0 <= i < |us| => us[i].pos)
  }

  /** The fate of request `k`; a request for which none is given is lost. */
  function FateOf(fates: seq<Fate>, k: nat): Fate {
    if k < |fates| then fates[k] else RequestLost
  }

  /** How many of `n` operations are in the first `batches` batches. */
  function InBatches(batches: nat, n: nat): nat {
    Min(batches * MAX_BATCH, n)
  }

  lemma NextBatch(k: nat, n: nat)
    ensures InBatches(k + 1, n) == Min(InBatches(k, n) + MAX_BATCH, n)
    ensures InBatches(k, n) < n ==> InBatches(k, n) < InBatches(k + 1, n)
  {
  }

  /** How many batches of `n` operations are answered, when the first `k` are: all up to the first that is
      not delivered. */
  function Answered(fates: seq<Fate>, n: nat, k: nat): nat
    decreases n - InBatches(k, n)
  {
    if InBatches(k, n) < n && FateOf(fates, k).Delivered? then
      NextBatch(k, n);
      Answered(fates, n, k + 1)
    else k
  }

  /** Every batch of `n` operations is delivered. */
  ghost predicate AllDelivered(fates: seq<Fate>, n: nat) {
    forall k: nat :: k * MAX_BATCH < n ==> FateOf(fates, k).Delivered?
  }

  /** The answered batches are delivered; they are all batches if and only if all are delivered, and else
      the next one is not. */
  lemma {:induction false} AnsweredMeans(fates: seq<Fate>, n: nat, k: nat)
    requires forall i: nat :: i < k ==> FateOf(fates, i).Delivered?
    ensures var m := Answered(fates, n, k);
            && (forall i: nat :: i < m ==> FateOf(fates, i).Delivered?)
            && (InBatches(m, n) == n <==> AllDelivered(fates, n))
            && (InBatches(m, n) < n ==> !FateOf(fates, m).Delivered?)
    decreases n - InBatches(k, n)
  {
    if InBatches(k, n) < n && FateOf(fates, k).Delivered? {
      NextBatch(k, n);
      AnsweredMeans(fates, n, k + 1);
    }
  }

  /** The batch that failed a push has reached the server: only its reply was lost. */
  predicate ReplyMissed(r: PushOutcome, fates: seq<Fate>, batches: nat) {
    r.PushFailed? && FateOf(fates, batches).ReplyLost?
  }

  /** Batch `k` of a list. */
  function BatchNo<T>(all: seq<T>, k: nat): seq<T> {
    all[InBatches(k, |all|)..InBatches(k + 1, |all|)]
  }

  /** What marking the first `k` batches leaves of the op log. */
  function Marks(opLog: seq<LogEntry>, positions: seq<nat>): nat -> seq<LogEntry> {
    (k: nat) => MarkSynced(opLog, positions[..InBatches(k, |positions|)])
  }

  /** What pushing the first `k` batches makes of the server's log. */
  function Pushes(log: seq<ServerOp>, user: string, device: string, ops: seq<PushOp>): nat -> seq<ServerOp> {
    (k: nat) => PushAll(log, user, device, ops[..InBatches(k, |ops|)])
  }

  /** `opLogs(k)` and `logs(k)` become `opLogs(k + 1)` and `logs(k + 1)` by marking and pushing batch `k`. */
  ghost predicate Batchwise(opLogs: nat -> seq<LogEntry>, logs: nat -> seq<ServerOp>, user: string, device: string,
                            ops: seq<PushOp>, positions: seq<nat>)
  {
    forall k: nat {:trigger BatchNo(ops, k)} ::
      opLogs(k + 1) == MarkSynced(opLogs(k), BatchNo(positions, k)) && logs(k + 1) == PushAll(logs(k), user, device, BatchNo(ops, k))
  }

  /** Batch by batch is all at once. */
  lemma BatchByBatch(opLog: seq<LogEntry>, positions: seq<nat>, log: seq<ServerOp>, user: string, device: string, ops: seq<PushOp>)
    requires |ops| == |positions|
    ensures Batchwise(Marks(opLog, positions), Pushes(log, user, device, ops), user, device, ops, positions)
    ensures Marks(opLog, positions)(0) == opLog && Pushes(log, user, device, ops)(0) == log
  {
    forall k: nat
      ensures Marks(opLog, positions)(k + 1) == MarkSynced(Marks(opLog, positions)(k), BatchNo(positions, k))
      ensures Pushes(log, user, device, ops)(k + 1) == PushAll(Pushes(log, user, device, ops)(k), user, device, BatchNo(ops, k))
    {
      InTwoParts(opLog, positions, log, user, device, ops, InBatches(k, |ops|), InBatches(k + 1, |ops|));
    }
    assert MarkSynced(opLog, []) == opLog;
  }

  lemma InTwoParts(opLog: seq<LogEntry>, positions: seq<nat>, log: seq<ServerOp>, user: string, device: string,
                   ops: seq<PushOp>, at: nat, end: nat)
    requires at <= end <= |ops| == |positions|
    ensures MarkSynced(MarkSynced(opLog, positions[..at]), positions[at..end]) == MarkSynced(opLog, positions[..end])
    ensures PushAll(PushAll(log, user, device, ops[..at]), user, device, ops[at..end]) == PushAll(log, user, device, ops[..end])
  {
    MarkInTwoParts(opLog, positions[..at], positions[at..end]);
    assert positions[..at] + positions[at..end] == positions[..end];
    PushConcat(log, user, device, ops[..at], ops[at..end]);
    assert ops[..at] + ops[at..end] == ops[..end];
  }

  class Engine {
    const storage: Database
    const localDevice: string
    var hlc: HlcTimestamp

    constructor (storage: Database, localDevice: string, now: u64, node: u32)
      ensures this.storage == storage && this.localDevice == localDevice
      ensures hlc == HlcTimestamp(now, 0, node)
    {
      this.storage, this.localDevice := storage, localDevice;
      hlc := HlcTimestamp(now, 0, node);
    }

    /** Advances the clock. The answer is `None`, and the clock unchanged, when the counter overflows. */
    method TickClock(now: u64) returns (r: Option<HlcTimestamp>)
      modifies this
      ensures r == Tick(old(hlc), now)
      ensures hlc == if r.Some? then r.value else old(hlc)
      ensures r.Some? ==> Before(old(hlc), hlc)
    {
      r := Tick(hlc, now);
      if r.Some? { hlc := r.value; }
    }

    /** Pushes everything unsynced, in batches of at most 500, of which the first `batches` are answered
        and marked.

        It succeeds if and only if every batch is delivered; then everything is marked and at the server,
        and the total is the number of rows the server's log has grown by. Otherwise it stops at the first
        batch that is not: exactly the batches before it are marked, and it is at the server exactly if
        its reply is what was lost. */
    method PushPending(server: Server, user: string, device: string, ids: nat -> string, fates: seq<Fate>)
      returns (r: PushOutcome, ghost us: seq<UnsyncedOp>, ghost batches: nat)
      modifies storage`opLog, server
      ensures IsUnsyncedList(old(storage.opLog), us)
      ensures r.Pushed? <==> AllDelivered(fates, |us|)
      ensures forall k: nat :: k < batches ==> FateOf(fates, k).Delivered?
      ensures r.Pushed? ==> InBatches(batches, |us|) == |us| && r.total == |server.log| - |old(server.log)|
      ensures r.PushFailed? ==> InBatches(batches, |us|) < |us| && !FateOf(fates, batches).Delivered?
      ensures storage.opLog == MarkSynced(old(storage.opLog), Positions(us)[..InBatches(batches, |us|)])
      ensures var arrived := if ReplyMissed(r, fates, batches) then batches + 1 else batches;
              server.log == PushAll(old(server.log), user, device, Payloads(us, ids)[..InBatches(arrived, |us|)])
    {
      var unsynced := storage.GetUnsyncedOps();
      us := unsynced;
      var ops, positions := Payloads(unsynced, ids), Positions(unsynced);
      ghost var opLog0, log0 := storage.opLog, server.log;
      BatchByBatch(opLog0, positions, log0, user, device, ops);
      ghost var arrived;
      r, batches, arrived :=
        PushBatches(server, user, device, ops, positions, fates, Marks(opLog0, positions), Pushes(log0, user, device, ops));
      AnsweredMeans(fates, |us|, 0);
    }

    /** The loop over the batches, of which the first `batches` are answered and `arrived` reach the server. */
    method PushBatches(server: Server, user: string, device: string, ops: seq<PushOp>, positions: seq<nat>, fates: seq<Fate>,
                       ghost opLogs: nat -> seq<LogEntry>, ghost logs: nat -> seq<ServerOp>)
      returns (r: PushOutcome, ghost batches: nat, ghost arrived: nat)
      requires |ops| == |positions| && Batchwise(opLogs, logs, user, device, ops, positions)
      requires storage.opLog == opLogs(0) && server.log == logs(0)
      modifies storage`opLog, server
      ensures batches == Answered(fates, |ops|, 0) && arrived == if ReplyMissed(r, fates, batches) then batches + 1 else batches
      ensures storage.opLog == opLogs(batches) && server.log == logs(arrived)
      ensures r.Pushed? ==> InBatches(batches, |ops|) == |ops| && r.total == |server.log| - |old(server.log)|
      ensures r.PushFailed? ==> InBatches(batches, |ops|) < |ops|
    {
      var total, request, at := 0, 0, 0;
      while at < |ops|
        invariant at == InBatches(request, |ops|)
        invariant storage.opLog == opLogs(request) && server.log == logs(request)
        invariant total == |server.log| - |old(server.log)|
        invariant Answered(fates, |ops|, request) == Answered(fates, |ops|, 0)
        decreases |ops| - at
      {
        NextBatch(request, |ops|);
        var count;
        count, arrived := PushNext(server, user, device, ops, positions, request, FateOf(fates, request), opLogs, logs);
        if count.None? { return PushFailed, request, arrived; }
        total := total + count.value;
        at := Min(at + MAX_BATCH, |ops|);
        request := request + 1;
      }
      return Pushed(total), request, request;
    }

    /** Batch `k`, after the ones before it. */
    method PushNext(server: Server, user: string, device: string, ops: seq<PushOp>, positions: seq<nat>, k: nat, fate: Fate,
                    ghost opLogs: nat -> seq<LogEntry>, ghost logs: nat -> seq<ServerOp>)
      returns (count: Option<nat>, ghost arrived: nat)
      requires |ops| == |positions| && InBatches(k, |ops|) < |ops| && Batchwise(opLogs, logs, user, device, ops, positions)
      requires storage.opLog == opLogs(k) && server.log == logs(k)
      modifies storage`opLog, server
      ensures count.Some? == fate.Delivered? && arrived == if fate.RequestLost? then k else k + 1
      ensures storage.opLog == opLogs(if count.Some? then k + 1 else k) && server.log == logs(arrived)
      ensures count.Some? ==> count.value == |server.log| - |old(server.log)|
    {
      NextBatch(k, |ops|);
      ghost var sent;
      count, sent := PushBatch(server, user, device, BatchNo(ops, k), BatchNo(positions, k), fate);
      arrived := if sent then k + 1 else k;
    }

    /** One request of a push: the batch reaches the server or not, and is marked exactly when the
        reply comes back. A batch of this size is never refused. */
    method PushBatch(server: Server, user: string, device: string, batch: seq<PushOp>, positions: seq<nat>, fate: Fate)
      returns (count: Option<nat>, ghost arrived: bool)
      requires 0 < |batch| <= MAX_BATCH
      modifies storage`opLog, server
      ensures arrived == !fate.RequestLost? && count.Some? == fate.Delivered?
      ensures arrived ==> server.log == PushAll(old(server.log), user, device, batch)
      ensures !arrived ==> server.log == old(server.log)
      ensures count.Some? ==> storage.opLog == MarkSynced(old(storage.opLog), positions)
      ensures count.None? ==> storage.opLog == old(storage.opLog)
      ensures count.Some? ==> count.value == |server.log| - |old(server.log)|
    {
      if fate.RequestLost? { return None, false; }
      var reply := server.Push(user, device, batch);
      if fate.ReplyLost? || reply.BadRequest? { return None, true; }
      storage.MarkOpsSynced(positions);
      return Some(reply.count), true;
    }

    /** Takes the next row: skips an own one, merges and applies any other. */
    method TakeNext(p: Pull, s: Spot, x: RemoteOp) returns (next: Spot, stop: Option<Stop>)
      requires Stands(p, s)
      modifies this`hlc, storage`progress, storage`bookmarks, storage`annotations, storage`preferences
      ensures (next, stop) == TakeRow(p, s, x) && Stands(p, next)
    {
      if x.op.device == localDevice { return s.(cursor := x.seqNo), None; }
      var merged := Merge(hlc, FromU64(AsU64(x.op.ts), 0), p.clock(s.merges));
      if merged.None? { return s, Some(Overflow); }
      hlc := merged.value;
      var res := storage.ApplyRemoteOp(x.op.payload, x.op.ts);
      if res.Failed? { return s.(tables := storage.View(), hlc := hlc), Some(Refused); }
      return Spot(x.seqNo, storage.View(), hlc, s.merges + 1, s.applied + if res.Applied? then 1 else 0), None;
    }

    /** Takes the rows of one page. */
    method TakePage(p: Pull, s: Spot, operations: seq<RemoteOp>) returns (next: Spot, stop: Option<Stop>)
      requires Stands(p, s)
      modifies this`hlc, storage`progress, storage`bookmarks, storage`annotations, storage`preferences
      ensures (next, stop) == TakeRows(p, s, operations) && Stands(p, next)
    {
      next, stop := s, None;
      for j := 0 to |operations|
        invariant (next, stop) == TakeRows(p, s, operations[..j]) && Stands(p, next) && stop == None
      {
        assert operations[..j + 1][..j] == operations[..j];
        next, stop := TakeNext(p, next, operations[j]);
        if stop.Some? {
          TakeRowsConcat(p, s, operations[..j + 1], operations[j + 1..]);
          assert operations[..j + 1] + operations[j + 1..] == operations;
          return;
        }
      }
      assert operations[..|operations|] == operations;
    }

    /** Takes a page that is not empty and saves the position it got to, behind the page or in front of
        the operation that cannot be applied. The answer is the outcome of the pull, if it ends here. */
    method TakeAndSave(p: Pull, s: Spot, page: Page, saves: bool, ghost k: nat) returns (outcome: Option<PullOutcome>, next: Spot)
      requires Stands(p, s) && s.cursor == SavedCursor() && page.operations != []
      requires page.nextCursor == page.operations[|page.operations| - 1].seqNo
      modifies this`hlc, storage`progress, storage`bookmarks, storage`annotations, storage`preferences, storage`pullCursor
      ensures Stands(p, next)
      ensures var (end, after) := AfterPage(p, s, page, saves, k);
              && next == after && outcome == (if end.Some? then Some(end.value.outcome) else None)
              && SavedCursor() == if end.Some? then end.value.cursor else next.cursor
    {
      var stop;
      next, stop := TakePage(p, s, page.operations);
      if stop == Some(Overflow) { return Some(ClockPanic), next; }
      if stop.None? {
        TakenToTheLast(p, s, page.operations);
        next := next.(cursor := page.nextCursor);
      }
      if !saves { return Some(SaveFailed), next; }
      storage.SetPullCursor(next.cursor);
      outcome := if stop.Some? then Some(ApplyFailed) else if page.hasMore then None else Some(PullDone(next.applied));
    }

    /** Pulls page after page from the saved cursor and applies every operation that is not the
        engine's own. What it does is `PullFrom`, and what that means is `EndsRight` and `PassesNone`. */
    method PullRemote(user: string, replies: seq<Option<seq<ServerOp>>>, clock: nat -> u64, saves: nat -> bool)
      returns (r: PullOutcome, ghost e: PullEnd)
      requires Growing(replies)
      modifies this`hlc, storage`progress, storage`bookmarks, storage`annotations, storage`preferences, storage`pullCursor
      ensures e.outcome == r && e.cursor == SavedCursor() && e.spot.tables == storage.View() && e.spot.hlc == hlc
      ensures var p, s0 := Pull(user, localDevice, storage.books, clock), old(Spot(SavedCursor(), storage.View(), hlc, 0, 0));
              && e == PullFrom(p, s0, replies, saves, 0) && EndsRight(p, s0, replies, saves, e)
              && PassesNone(p, s0.tables, s0.cursor, LogServed(replies, e.served), r, SavedCursor())
    {
      var p := Pull(user, localDevice, storage.books, clock);
      var s := Spot(if storage.pullCursor.Some? then storage.pullCursor.value else 0, storage.View(), hlc, 0, 0);
      ghost var s0 := s;
      e := PullFrom(p, s, replies, saves, 0);
      var request := 0;
      while true
        invariant Stands(p, s) && s.cursor == SavedCursor()
        invariant e == PullFrom(p, s, replies, saves, request)
        decreases |replies| - request
      {
        if request >= |replies| || replies[request].None? {
          r := TransportFailed;
          break;
        }
        var page := PullPage(replies[request].value, user, s.cursor, PAGE_SIZE);
        PageServed(replies[request].value, user, s.cursor);
        if page.operations == [] {
          r := PullDone(s.applied);
          break;
        }
        var outcome;
        outcome, s := TakeAndSave(p, s, page, saves(request), request);
        if outcome.Some? {
          r := outcome.value;
          break;
        }
        request := request + 1;
      }
      AtStart(p, s0);
      PullEndsRight(p, s0, s0, replies, saves, 0);
      PullPassesNone(p, s0, replies, saves, e);
    }

    /** The engine is where `s` says. */
    ghost predicate Stands(p: Pull, s: Spot)
      reads this, storage
    {
      && p.device == localDevice && p.books == storage.books
      && s.tables == storage.View() && s.hlc == hlc
    }

    /** The saved cursor, 0 when none was ever saved. */
    function SavedCursor(): nat
      reads storage
    {
      if storage.pullCursor.Some? then storage.pullCursor.value else 0
    }
  }
}
