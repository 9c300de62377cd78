/** The backend's append-only operation log: pushing batches with deduplication and pulling pages
    by cursor. */
module SyncServer {
  import opened Basics
  import opened Tables

  /** An operation as a client sends it. `src` is a history variable: the position in the
      client's own op log of the entry it was made from. It never travels. */
  datatype PushOp = PushOp(opId: string, payload: Payload, ts: i64, src: nat)

  /** A row of `sync_operations`. The row at position `n` of the log has `server_seq` `n + 1`. The
      device is the authenticated one, not one named by the client. */
  datatype ServerOp = ServerOp(user: string, opId: string, payload: Payload, ts: i64, device: string, src: nat)

  const MAX_BATCH := 500

  predicate Known(log: seq<ServerOp>, user: string, opId: string) {
    exists i :: 0 <= i < |log| && log[i].user == user && log[i].opId == opId
  }

  function Row(user: string, device: string, p: PushOp): ServerOp {
    ServerOp(user, p.opId, p.payload, p.ts, device, p.src)
  }

  /** The log after pushing `ops` one after the other, skipping every known operation id. */
  function PushAll(log: seq<ServerOp>, user: string, device: string, ops: seq<PushOp>): (r: seq<ServerOp>)
    ensures |log| <= |r| && r[..|log|] == log
    decreases |ops|
  {
    if ops == [] then log
    else
      var front := PushAll(log, user, device, ops[..|ops| - 1]);
      var last := ops[|ops| - 1];
      if Known(front, user, last.opId) then front else front + [Row(user, device, last)]
  }

  datatype PushReply = Accepted(count: nat) | BadRequest

  // ---------- What a push adds ----------

  predicate FromBatch(row: ServerOp, user: string, device: string, ops: seq<PushOp>) {
    exists i :: 0 <= i < |ops| && row == ServerOp(user, ops[i].opId, ops[i].payload, ops[i].ts, device, ops[i].src)
  }

  /** Everything a push adds is a row of one of its operations, under the pushing user and device,
      and afterwards every operation id it named is known. */
  lemma {:induction false} PushAdds(log: seq<ServerOp>, user: string, device: string, ops: seq<PushOp>)
    ensures forall n :: |log| <= n < |PushAll(log, user, device, ops)|
              ==> FromBatch(PushAll(log, user, device, ops)[n], user, device, ops)
    ensures forall i :: 0 <= i < |ops| ==> Known(PushAll(log, user, device, ops), user, ops[i].opId)
    decreases |ops|
  {
    if ops != [] {
      var last := |ops| - 1;
      var front := PushAll(log, user, device, ops[..last]);
      var all := PushAll(log, user, device, ops);
      PushAdds(log, user, device, ops[..last]);
      forall n | |log| <= n < |all| ensures FromBatch(all[n], user, device, ops) {
        if n < |front| {
          var i :| 0 <= i < last && front[n] == Row(user, device, ops[..last][i]);
          assert ops[i] == ops[..last][i];
        } else {
          assert all[n].opId == ops[last].opId;
        }
      }
      forall i | 0 <= i < |ops| ensures Known(all, user, ops[i].opId) {
        if i < last {
          assert ops[i] == ops[..last][i];
          KnownGrows(front, all, user, ops[i].opId);
        } else if !Known(front, user, ops[i].opId) {
          assert all[|front|].opId == ops[i].opId;
        }
      }
    }
  }

  lemma KnownGrows(log: seq<ServerOp>, more: seq<ServerOp>, user: string, opId: string)
    requires |log| <= |more| && more[..|log|] == log && Known(log, user, opId)
    ensures Known(more, user, opId)
  {
    var i :| 0 <= i < |log| && log[i].user == user && log[i].opId == opId;
    assert more[i] == log[i];
  }

  /** `UNIQUE(user_id, op_id)`. */
  predicate UniqueIds(log: seq<ServerOp>) {
    forall i, j :: 0 <= i < j < |log| ==> !(log[i].user == log[j].user && log[i].opId == log[j].opId)
  }

  /** No push, whatever it sends and however often, puts an operation id into a user's log twice. */
  lemma {:induction false} PushKeepsUniqueIds(log: seq<ServerOp>, user: string, device: string, ops: seq<PushOp>)
    requires UniqueIds(log)
    ensures UniqueIds(PushAll(log, user, device, ops))
    decreases |ops|
  {
    if ops != [] {
      PushKeepsUniqueIds(log, user, device, ops[..|ops| - 1]);
    }
  }

  /** Pushing a list in two pieces is pushing it whole. */
  lemma {:induction false} PushConcat(log: seq<ServerOp>, user: string, device: string, a: seq<PushOp>, b: seq<PushOp>)
    ensures PushAll(log, user, device, a + b) == PushAll(PushAll(log, user, device, a), user, device, b)
    decreases |b|
  {
    if b == [] {
      assert a + b == a;
    } else {
      assert (a + b)[..|a + b| - 1] == a + b[..|b| - 1];
      PushConcat(log, user, device, a, b[..|b| - 1]);
    }
  }

  /** A retry of a batch that was accepted, with the same operation ids, adds nothing. */
  lemma {:induction false} RetryAddsNothing(log: seq<ServerOp>, user: string, device: string, ops: seq<PushOp>)
    requires forall i :: 0 <= i < |ops| ==> Known(log, user, ops[i].opId)
    ensures PushAll(log, user, device, ops) == log
    decreases |ops|
  {
    if ops != [] {
      assert forall i :: 0 <= i < |ops| - 1 ==> ops[..|ops| - 1][i] == ops[i];
      RetryAddsNothing(log, user, device, ops[..|ops| - 1]);
    }
  }

  // ---------- Pulling ----------

  /** A row as `pull` returns it. */
  datatype RemoteOp = RemoteOp(seqNo: nat, op: ServerOp)

  /** `WHERE user_id = ? AND server_seq > ? ORDER BY server_seq ASC`. */
  function Rows(log: seq<ServerOp>, user: string, cursor: int): seq<RemoteOp>
    decreases |log|
  {
    if log == [] then []
    else
      var n := |log|;
      var front := Rows(log[..n - 1], user, cursor);
      if log[n - 1].user == user && n > cursor then front + [RemoteOp(n, log[n - 1])] else front
  }

  datatype Page = Page(operations: seq<RemoteOp>, nextCursor: int, hasMore: bool)

  /** The `pull` handler: one row more than the limit is fetched to see whether there is more. */
  function PullPage(log: seq<ServerOp>, user: string, cursor: int, limit: int): Page {
    var lim := Max(Min(limit, 1000), 1);
    var all := Rows(log, user, cursor);
    var rows := all[..Min(lim + 1, |all|)];
    var operations := rows[..Min(lim, |rows|)];
    Page(operations, if operations == [] then cursor else operations[|operations| - 1].seqNo, |rows| > lim)
  }

  /** The rows are exactly the user's entries above the cursor, each once, in log order. */
  lemma {:induction false} RowsExact(log: seq<ServerOp>, user: string, cursor: int)
    ensures forall i :: 0 <= i < |Rows(log, user, cursor)| ==>
              var r := Rows(log, user, cursor)[i];
              cursor < r.seqNo && 1 <= r.seqNo <= |log| && r.op == log[r.seqNo - 1] && r.op.user == user
    ensures forall i, j :: 0 <= i < j < |Rows(log, user, cursor)|
              ==> Rows(log, user, cursor)[i].seqNo < Rows(log, user, cursor)[j].seqNo
    ensures forall n :: 0 <= n < |log| && log[n].user == user && n + 1 > cursor
              ==> RemoteOp(n + 1, log[n]) in Rows(log, user, cursor)
    decreases |log|
  {
    if log != [] {
      var front := log[..|log| - 1];
      RowsExact(front, user, cursor);
      forall n | 0 <= n < |log| && log[n].user == user && n + 1 > cursor
        ensures RemoteOp(n + 1, log[n]) in Rows(log, user, cursor)
      {
        if n < |front| { assert front[n] == log[n]; }
      }
    }
  }

  /** A log that has grown returns the old rows first. */
  lemma {:induction false} RowsGrow(log: seq<ServerOp>, more: seq<ServerOp>, user: string, cursor: int)
    requires |log| <= |more| && more[..|log|] == log
    ensures Rows(log, user, cursor) <= Rows(more, user, cursor)
    decreases |more|
  {
    if |log| < |more| {
      RowsGrow(log, more[..|more| - 1], user, cursor);
    } else {
      assert more == log;
    }
  }

  /** Above a cursor at or past the end there is nothing. */
  lemma {:induction false} RowsPastEnd(log: seq<ServerOp>, user: string, cursor: int)
    requires |log| <= cursor
    ensures Rows(log, user, cursor) == []
    decreases |log|
  {
    if log != [] { RowsPastEnd(log[..|log| - 1], user, cursor); }
  }

  /** The rows above `c` split at any position `m` of the log. */
  lemma {:induction false} RowsSplit(log: seq<ServerOp>, user: string, c: int, m: nat)
    requires c <= m <= |log|
    ensures Rows(log, user, c) == Rows(log[..m], user, c) + Rows(log, user, m)
    decreases |log|
  {
    if m == |log| {
      assert log[..m] == log;
      RowsPastEnd(log, user, m);
    } else {
      var front := log[..|log| - 1];
      assert front[..m] == log[..m];
      RowsSplit(front, user, c, m);
    }
  }

  /** Moving the cursor onto the `k`-th row above it drops exactly the rows up to that one. */
  lemma {:induction false} RowsAdvance(log: seq<ServerOp>, user: string, c: int, k: nat)
    requires k < |Rows(log, user, c)|
    ensures var m := Rows(log, user, c)[k].seqNo;
            m <= |log|
            && Rows(log, user, m) == Rows(log, user, c)[k + 1..]
            && Rows(log[..m], user, c) == Rows(log, user, c)[..k + 1]
    decreases |log|
  {
    var front := log[..|log| - 1];
    var all, m := Rows(log, user, c), Rows(log, user, c)[k].seqNo;
    if k < |Rows(front, user, c)| {
      RowsAdvance(front, user, c, k);
      if |log| <= c { RowsPastEnd(log, user, c); }
      assert front[..m] == log[..m];
      assert all[..k + 1] == Rows(front, user, c)[..k + 1];
      assert Rows(log, user, m) == all[k + 1..];
    } else {
      RowsPastEnd(log, user, m);
      assert log[..m] == log && all[..k + 1] == all;
    }
  }

  /** The row after position `m` extends the rows read so far by exactly itself. */
  lemma RowsNext(log: seq<ServerOp>, user: string, c: int, m: nat)
    requires c <= m <= |log| && Rows(log, user, m) != []
    ensures var r := Rows(log, user, m)[0];
            m < r.seqNo <= |log| && r.op == log[r.seqNo - 1] && r.op.user == user
            && Rows(log[..r.seqNo], user, c) == Rows(log[..m], user, c) + [r]
            && Rows(log, user, r.seqNo) == Rows(log, user, m)[1..]
  {
    RowsExact(log, user, m);
    RowsAdvance(log, user, m, 0);
    var r := Rows(log, user, m)[0];
    RowsSplit(log[..r.seqNo], user, c, m);
    assert log[..r.seqNo][..m] == log[..m];
  }

  // ---------- A client that follows the pages to the end ----------

  /** The pages a client receives from a log that does not change while it follows `next_cursor`. */
  function Pages(log: seq<ServerOp>, user: string, cursor: int, limit: int): seq<seq<RemoteOp>>
    decreases |Rows(log, user, cursor)|
  {
    var page := PullPage(log, user, cursor, limit);
    if page.operations == [] || !page.hasMore then [page.operations]
    else
      RowsAdvance(log, user, cursor, |page.operations| - 1);
      [page.operations] + Pages(log, user, page.nextCursor, limit)
  }

  /** `k` requests are as many as `n` remaining rows need: one per started page of `limit` rows, that is
      the rounded-up quotient, and one when nothing is left. */
  predicate RequestsFor(k: nat, n: nat, limit: nat) {
    if n == 0 then k == 1 else k >= 1 && (k - 1) * limit < n <= k * limit
  }

  lemma OneRequestMore(k: nat, n: nat, limit: nat)
    requires limit < n && RequestsFor(k, n - limit, limit)
    ensures RequestsFor(k + 1, n, limit)
  {
    assert (k - 1) * limit + limit == k * limit;
    assert k * limit + limit == (k + 1) * limit;
  }

  /** What a page holds, for every limit that may be asked for: the first rows above the cursor, no more of
      them than the limit, which counts as 1 below 1 and as 1000 above 1000. The next cursor is the position
      of the last of them, and the old cursor when there is none; there is more exactly when a row is left. */
  lemma PageHolds(log: seq<ServerOp>, user: string, cursor: int, limit: int)
    ensures var page, all := PullPage(log, user, cursor, limit), Rows(log, user, cursor);
            var most := if limit < 1 then 1 else if limit > 1000 then 1000 else limit;
            && page.hasMore == (|all| > most)
            && page.operations == (if |all| > most then all[..most] else all)
            && page.nextCursor == (if page.operations == [] then cursor else page.operations[|page.operations| - 1].seqNo)
  {
  }

  lemma FirstOfMore(log: seq<ServerOp>, user: string, cursor: int, limit: int)
    requires 1 <= limit <= 1000 && |Rows(log, user, cursor)| > limit
    ensures var page, all := PullPage(log, user, cursor, limit), Rows(log, user, cursor);
            page.hasMore && page.operations == all[..limit] && page.operations != [] && page.nextCursor == all[limit - 1].seqNo
  {
    PageHolds(log, user, cursor, limit);
  }

  /** A page that is not the last: a full one, and the pages behind it. */
  lemma FullPage(log: seq<ServerOp>, user: string, cursor: int, limit: int)
    requires 1 <= limit <= 1000 && |Rows(log, user, cursor)| > limit
    ensures var next, all := PullPage(log, user, cursor, limit).nextCursor, Rows(log, user, cursor);
            && Rows(log, user, next) == all[limit..]
            && Pages(log, user, cursor, limit) == [all[..limit]] + Pages(log, user, next, limit)
  {
    FirstOfMore(log, user, cursor, limit);
    RowsAdvance(log, user, cursor, limit - 1);
  }

  lemma LastPage(log: seq<ServerOp>, user: string, cursor: int, limit: int)
    requires 1 <= limit <= 1000 && |Rows(log, user, cursor)| <= limit
    ensures Pages(log, user, cursor, limit) == [Rows(log, user, cursor)]
  {
    PageHolds(log, user, cursor, limit);
    var all := Rows(log, user, cursor);
    assert all[..|all|] == all;
  }

  /** Following the pages yields exactly the user's operations above the cursor, in order, without
      gap or repeat, in `max(1, ceil(n / limit))` requests, all full but the last. */
  lemma {:induction false} PagesCoverTheLog(log: seq<ServerOp>, user: string, cursor: int, limit: int)
    requires 1 <= limit <= 1000
    ensures Flatten(Pages(log, user, cursor, limit)) == Rows(log, user, cursor)
    ensures RequestsFor(|Pages(log, user, cursor, limit)|, |Rows(log, user, cursor)|, limit)
    ensures forall i :: 0 <= i < |Pages(log, user, cursor, limit)| - 1 ==> |Pages(log, user, cursor, limit)[i]| == limit
    decreases |Rows(log, user, cursor)|
  {
    var next, all := PullPage(log, user, cursor, limit).nextCursor, Rows(log, user, cursor);
    if |all| > limit {
      FullPage(log, user, cursor, limit);
      PagesCoverTheLog(log, user, next, limit);
      var rest := Pages(log, user, next, limit);
      OneRequestMore(|rest|, |all|, limit);
      assert ([all[..limit]] + rest)[1..] == rest;
      forall i | 0 <= i < |rest| ensures |([all[..limit]] + rest)[i]| == limit {
        if i > 0 { assert ([all[..limit]] + rest)[i] == rest[i - 1]; }
      }
    } else {
      LastPage(log, user, cursor, limit);
      assert Flatten([all]) == all + Flatten<RemoteOp>([]);
    }
  }

  /** The table `sync_operations` and its two handlers. */
  class Server {
    var log: seq<ServerOp>

    constructor ()
      ensures log == []
    {
      log := [];
    }

    /** `POST /sync/push`. A refused batch changes nothing; otherwise the reply counts exactly the
        rows the log has grown by. */
    method Push(user: string, device: string, ops: seq<PushOp>) returns (r: PushReply)
      modifies this
      ensures r.BadRequest? <==> |ops| == 0 || |ops| > 500
      ensures r.BadRequest? ==> log == old(log)
      ensures r.Accepted? ==> log == PushAll(old(log), user, device, ops) && r.count == |log| - |old(log)|
    {
      if ops == [] || |ops| > MAX_BATCH { return BadRequest; }
      var accepted := 0;
      for i := 0 to |ops|
        invariant log == PushAll(old(log), user, device, ops[..i])
        invariant accepted == |log| - |old(log)|
      {
        assert ops[..i + 1][..i] == ops[..i];
        if !Known(log, user, ops[i].opId) {
          log := log + [Row(user, device, ops[i])];
          accepted := accepted + 1;
        }
      }
      assert ops[..|ops|] == ops;
      return Accepted(accepted);
    }
  }
}
