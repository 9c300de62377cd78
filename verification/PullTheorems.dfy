/** What pulls amount to: the tables and clock they leave, and when they succeed. */
module PullTheorems {
  import opened Basics
  import opened Hlc
  import opened Tables
  import opened SyncServer
  import opened PullSpec

  /** One more merge extends the run of the clock by one step. */
  lemma MergesNext(h: HlcTimestamp, ops: seq<Incoming>, inc: Incoming, clock: nat -> u64)
    ensures ClockRun(h, PullMerges(Stamps(ops + [inc]), clock))
         == match ClockRun(h, PullMerges(Stamps(ops), clock))
            case None => None
            case Some(mid) => Merge(mid, FromU64(AsU64(inc.ts), 0), clock(|ops|))
  {
    var es := PullMerges(Stamps(ops + [inc]), clock);
    assert es[..|ops|] == PullMerges(Stamps(ops), clock);
    assert es[|ops|] == MergeWith(FromU64(AsU64(inc.ts), 0), clock(|ops|));
  }


  /** Nothing was merged or applied yet. */
  predicate Fresh(s: Spot) {
    s.merges == 0 && s.applied == 0
  }

  /** Taking rows is merging and applying the foreign ones among them: it is not stopped if and only if
      all of them apply and no merge overflows the clock, and then it leaves the tables and the clock
      that this leaves, and has counted right. */
  lemma {:induction false} TakingMeans(p: Pull, s0: Spot, rows: seq<RemoteOp>)
    requires Fresh(s0)
    ensures var ops, (s, stop) := Foreign(rows, p.device), TakeRows(p, s0, rows);
            var all, clock := ApplyAll(p.books, s0.tables, ops), ClockRun(s0.hlc, PullMerges(Stamps(ops), p.clock));
            && (stop == None <==> all.1 == |ops| && clock.Some?)
            && (stop == None ==> s.tables == all.0 && s.hlc == clock.value && s.merges == |ops|
                                 && s.applied == NumApplied(p.books, s0.tables, ops))
    decreases |rows|
  {
    if rows != [] {
      var init, x := rows[..|rows| - 1], rows[|rows| - 1];
      TakingMeans(p, s0, init);
      if x.op.device != p.device {
        var ops, inc := Foreign(init, p.device), Incoming(x.op.payload, x.op.ts);
        MergesNext(s0.hlc, ops, inc, p.clock);
        if ApplyAll(p.books, s0.tables, ops).1 == |ops| {
          AppliesNext(p.books, s0.tables, ops, inc);
        } else if ApplyAll(p.books, s0.tables, ops + [inc]).1 == |ops| + 1 {
          FrontApplies(p.books, s0.tables, ops, inc);
        }
      }
    }
  }

  /** Where a pull stands in a log, it holds the tables and the clock after exactly the foreign operations
      between the old position and its own, in order, none of which failed. */
  lemma StandingMeans(p: Pull, s0: Spot, log: seq<ServerOp>, s: Spot)
    requires Fresh(s0) && At(p, s0, log, s)
    ensures var ops := Taken(log, p.user, p.device, s0.cursor, s.cursor);
            && ApplyAll(p.books, s0.tables, ops) == (s.tables, |ops|)
            && s.merges == |ops| && s.applied == NumApplied(p.books, s0.tables, ops)
            && ClockRun(s0.hlc, PullMerges(Stamps(ops), p.clock)) == Some(s.hlc)
  {
    TakingMeans(p, s0, Between(log, p.user, s0.cursor, s.cursor));
  }

  /** Where an operation has stopped a pull, everything before it was applied and merged. One that
      overflows the clock leaves the clock alone; one that is refused was merged, but leaves the tables
      alone. */
  lemma StoppingMeans(p: Pull, s0: Spot, log: seq<ServerOp>, s: Spot, stop: Stop)
    requires Fresh(s0) && StoppedAt(p, s0, log, s, stop)
    ensures var ops, x := Taken(log, p.user, p.device, s0.cursor, s.cursor), Rows(log, p.user, s.cursor)[0];
            var merges, merged := PullMerges(Stamps(ops), p.clock),
                                  ClockRun(s0.hlc, PullMerges(Stamps(ops + [Incoming(x.op.payload, x.op.ts)]), p.clock));
            && x.op.device != p.device
            && ApplyAll(p.books, s0.tables, ops) == (s.tables, |ops|)
            && (stop == Overflow ==> merged == None && ClockRun(s0.hlc, merges) == Some(s.hlc))
            && (stop == Refused ==> merged == Some(s.hlc) && ApplyRemote(p.books, s.tables, x.op.payload, x.op.ts) == (s.tables, Failed))
  {
    var ops, x := Taken(log, p.user, p.device, s0.cursor, s.cursor), Rows(log, p.user, s.cursor)[0];
    TakingMeans(p, s0, Between(log, p.user, s0.cursor, s.cursor));
    MergesNext(s0.hlc, ops, Incoming(x.op.payload, x.op.ts), p.clock);
  }

  // ---------- Rows of the log that a pull cannot pass ----------

  /** A row of the log at which a pull of tables `t` has to stop: a foreign operation of the user that is
      malformed, or a progress write for a book that is not registered, stamped above what is stored. */
  predicate Blocks(p: Pull, t: Tables, x: ServerOp) {
    x.user == p.user && x.device != p.device && (x.payload.Malformed? || Orphan(p.books, t, x.payload.op, x.ts))
  }

  /** The foreign operations are exactly those of the rows of other devices. */
  lemma {:induction false} ForeignExact(rows: seq<RemoteOp>, device: string)
    ensures forall o :: o in Foreign(rows, device) <==>
              exists i :: 0 <= i < |rows| && rows[i].op.device != device && o == Incoming(rows[i].op.payload, rows[i].op.ts)
    decreases |rows|
  {
    if rows != [] {
      var init, x := rows[..|rows| - 1], rows[|rows| - 1].op;
      ForeignExact(init, device);
      forall o ensures o in Foreign(rows, device) <==>
                 exists i :: 0 <= i < |rows| && rows[i].op.device != device && o == Incoming(rows[i].op.payload, rows[i].op.ts)
      {
        assert forall i :: 0 <= i < |init| ==> rows[i] == init[i];
        if x.device != device && o == Incoming(x.payload, x.ts) {
          assert rows[|rows| - 1].op.device != device;
        } else {
          assert o in Foreign(rows, device) <==> o in Foreign(init, device);
        }
      }
    }
  }

  lemma ForeignComesFrom(rows: seq<RemoteOp>, device: string, o: Incoming) returns (j: nat)
    requires o in Foreign(rows, device)
    ensures j < |rows| && rows[j].op.device != device && o == Incoming(rows[j].op.payload, rows[j].op.ts)
  {
    ForeignExact(rows, device);
    j :| 0 <= j < |rows| && rows[j].op.device != device && o == Incoming(rows[j].op.payload, rows[j].op.ts);
  }

  lemma RowIsLogged(log: seq<ServerOp>, user: string, c: nat, j: nat)
    requires j < |Rows(log, user, c)|
    ensures var r := Rows(log, user, c)[j]; c <= r.seqNo - 1 < |log| && r.op == log[r.seqNo - 1] && r.op.user == user
  {
    RowsExact(log, user, c);
  }

  /** An operation that stops comes from a row that blocks. */
  lemma StopIsBlock(p: Pull, t: Tables, log: seq<ServerOp>, c: nat, o: Incoming)
    requires o in Foreign(Rows(log, p.user, c), p.device) && Stops(p.books, t, o)
    ensures exists n :: c <= n < |log| && Blocks(p, t, log[n])
  {
    var j := ForeignComesFrom(Rows(log, p.user, c), p.device, o);
    RowIsLogged(log, p.user, c, j);
    assert Blocks(p, t, log[Rows(log, p.user, c)[j].seqNo - 1]);
  }

  /** A row that blocks becomes an operation that stops. */
  lemma BlockIsStop(p: Pull, t: Tables, log: seq<ServerOp>, c: nat, n: nat)
    requires c <= n < |log| && Blocks(p, t, log[n])
    ensures var o := Incoming(log[n].payload, log[n].ts); o in Foreign(Rows(log, p.user, c), p.device) && Stops(p.books, t, o)
  {
    RowsExact(log, p.user, c);
    ForeignExact(Rows(log, p.user, c), p.device);
    assert RemoteOp(n + 1, log[n]) in Rows(log, p.user, c);
  }

  /** The operations behind position `c` of a log go through if and only if no row there blocks. */
  lemma NoneBlocksIff(p: Pull, t: Tables, log: seq<ServerOp>, c: nat)
    ensures var ops := Foreign(Rows(log, p.user, c), p.device);
            ApplyAll(p.books, t, ops).1 == |ops| <==> forall n :: c <= n < |log| ==> !Blocks(p, t, log[n])
  {
    var ops := Foreign(Rows(log, p.user, c), p.device);
    AllApplyIff(p.books, t, ops);
    if i :| 0 <= i < |ops| && Stops(p.books, t, ops[i]) { StopIsBlock(p, t, log, c, ops[i]); }
    if n :| c <= n < |log| && Blocks(p, t, log[n]) { BlockIsStop(p, t, log, c, n); }
  }

  lemma {:induction false} NoneLeft(log: seq<ServerOp>, user: string, c: nat)
    requires Rows(log, user, c) == []
    ensures forall n :: c <= n < |log| ==> log[n].user != user
  {
    RowsExact(log, user, c);
  }

  lemma {:induction false} NextIsNext(log: seq<ServerOp>, user: string, c: nat)
    requires Rows(log, user, c) != []
    ensures var n := Rows(log, user, c)[0].seqNo - 1;
            c <= n < |log| && Rows(log, user, c)[0].op == log[n] && log[n].user == user && forall i :: c <= i < n ==> log[i].user != user
  {
    RowsExact(log, user, c);
  }

  /** A pull has passed no row that blocks. */
  lemma PassedNone(p: Pull, s0: Spot, log: seq<ServerOp>, m: nat)
    requires Fresh(s0) && TakeRows(p, s0, Between(log, p.user, s0.cursor, m)).1 == None
    ensures forall n :: s0.cursor <= n < m && n < |log| ==> !Blocks(p, s0.tables, log[n])
  {
    TakingMeans(p, s0, Between(log, p.user, s0.cursor, m));
    NoneBlocksIff(p, s0.tables, UpTo(log, m), s0.cursor);
    assert forall n :: 0 <= n < m && n < |log| ==> UpTo(log, m)[n] == log[n];
  }

  /** A pull that was stopped by an operation it cannot apply stands in front of the first row that blocks. */
  lemma {:induction false} StoppedInFront(p: Pull, s0: Spot, log: seq<ServerOp>, s: Spot)
    requires Fresh(s0) && StoppedAt(p, s0, log, s, Refused)
    ensures var n := Rows(log, p.user, s.cursor)[0].seqNo - 1;
            && s.cursor <= n < |log| && Blocks(p, s0.tables, log[n])
            && forall i :: s0.cursor <= i < n ==> !Blocks(p, s0.tables, log[i])
  {
    var ops, x := Taken(log, p.user, p.device, s0.cursor, s.cursor), Rows(log, p.user, s.cursor)[0];
    StoppingMeans(p, s0, log, s, Refused);
    NextIsNext(log, p.user, s.cursor);
    PassedNone(p, s0, log, s.cursor);
    FailingStops(p.books, s0.tables, ops, Incoming(x.op.payload, x.op.ts));
  }

  /** No operation is passed over: no row of the log behind the old cursor and in front of the saved one
      blocks. A pull that succeeds has met none in the whole log last served; one that ends at an operation
      it cannot apply has saved a position in front of the first. */
  ghost predicate PassesNone(p: Pull, t: Tables, from: nat, log: seq<ServerOp>, outcome: PullOutcome, saved: nat) {
    && (forall n :: from <= n < saved && n < |log| ==> !Blocks(p, t, log[n]))
    && (outcome.PullDone? ==> forall n :: from <= n < |log| ==> !Blocks(p, t, log[n]))
    && (outcome.ApplyFailed? ==>
          exists n :: from <= n < |log| && saved <= n && Blocks(p, t, log[n]) && forall i :: from <= i < n ==> !Blocks(p, t, log[i]))
  }

  lemma PullPassesNone(p: Pull, s0: Spot, replies: seq<Option<seq<ServerOp>>>, saves: nat -> bool, e: PullEnd)
    requires Fresh(s0) && EndsRight(p, s0, replies, saves, e)
    ensures PassesNone(p, s0.tables, s0.cursor, LogServed(replies, e.served), e.outcome, e.cursor)
  {
    var log := LogServed(replies, e.served);
    PassedNone(p, s0, log, e.spot.cursor);
    if e.outcome.PullDone? {
      NoneLeft(log, p.user, e.spot.cursor);
    }
    if e.outcome.ApplyFailed? {
      StoppedInFront(p, s0, log, e.spot);
      var n := Rows(log, p.user, e.spot.cursor)[0].seqNo - 1;
      assert Blocks(p, s0.tables, log[n]);
    }
  }

  /** The end of a pull whose last page could not be kept. */
  predicate Unsaved(e: PullEnd) {
    e.outcome.SaveFailed? || e.outcome.ClockPanic?
  }

  /** A position that cannot be saved, and a clock that overflows, leave the saved cursor where it would be if the
      last request had not been answered: they lose exactly its page. */
  lemma {:induction false} LastPageUnsaved(p: Pull, s: Spot, replies: seq<Option<seq<ServerOp>>>, saves: nat -> bool, k: nat)
    requires k <= |replies| && Unsaved(PullFrom(p, s, replies, saves, k))
    ensures var e := PullFrom(p, s, replies, saves, k);
            && k < e.served <= |replies|
            && var missed := PullFrom(p, s, replies[..e.served - 1], saves, k);
               missed.outcome == TransportFailed && missed.served == e.served - 1 && missed.cursor == e.cursor
    decreases |replies| - k
  {
    var (end, next) := AfterRequest(p, s, replies, saves, k);
    if end.None? {
      LastPageUnsaved(p, next, replies, saves, k + 1);
      FirstRequest(p, s, replies, saves, k, PullFrom(p, next, replies, saves, k + 1).served - 1);
    } else {
      EndsUnsaved(p, s, replies, saves, k);
      Missed(p, s, replies[..k], saves);
    }
  }

  lemma EndsUnsaved(p: Pull, s: Spot, replies: seq<Option<seq<ServerOp>>>, saves: nat -> bool, k: nat)
    requires !Unanswered(replies, k) && AfterRequest(p, s, replies, saves, k).0.Some?
    ensures var e := AfterRequest(p, s, replies, saves, k).0.value; e.served == k + 1 && (Unsaved(e) ==> e.cursor == s.cursor)
  {
  }

  lemma Missed(p: Pull, s: Spot, replies: seq<Option<seq<ServerOp>>>, saves: nat -> bool)
    ensures PullFrom(p, s, replies, saves, |replies|) == PullEnd(TransportFailed, |replies|, s.cursor, s)
  {
  }

  /** The first request of a pull that is answered, when only the first `m` may be. */
  lemma FirstRequest(p: Pull, s: Spot, replies: seq<Option<seq<ServerOp>>>, saves: nat -> bool, k: nat, m: nat)
    requires k < m <= |replies| && !Unanswered(replies, k) && AfterRequest(p, s, replies, saves, k).0.None?
    ensures PullFrom(p, s, replies[..m], saves, k) == PullFrom(p, AfterRequest(p, s, replies, saves, k).1, replies[..m], saves, k + 1)
  {
    assert replies[..m][k] == replies[k];
  }

  function OutcomeOf(s: Spot, stop: Option<Stop>): PullOutcome {
    match stop
    case None => PullDone(s.applied)
    case Some(Overflow) => ClockPanic
    case Some(Refused) => ApplyFailed
  }

  /** A page of a log, and what is left behind it. */
  lemma PageAndRest(log: seq<ServerOp>, user: string, cursor: nat)
    ensures var page, rows := PullPage(log, user, cursor, PAGE_SIZE), Rows(log, user, cursor);
            && page.operations <= rows
            && (page.operations == [] <==> rows == []) && (page.hasMore <==> page.operations != rows)
            && (page.hasMore ==>
                  && page.operations != [] && page.nextCursor == page.operations[|page.operations| - 1].seqNo
                  && rows == page.operations + Rows(log, user, page.nextCursor)
                  && Pages(log, user, cursor, PAGE_SIZE) == [page.operations] + Pages(log, user, page.nextCursor, PAGE_SIZE))
            && (!page.hasMore ==> |Pages(log, user, cursor, PAGE_SIZE)| == 1)
  {
    PageServed(log, user, cursor);
    var page, rows := PullPage(log, user, cursor, PAGE_SIZE), Rows(log, user, cursor);
    if page.hasMore { RowsAdvance(log, user, cursor, |page.operations| - 1); }
  }

  /** The end of a pull that takes `rows` from `s` on, the last of them on page `k`. */
  ghost predicate EndsWith(e: PullEnd, end: Spot, stop: Option<Stop>) {
    && e.spot == end && e.outcome == OutcomeOf(end, stop)
    && (stop != Some(Overflow) ==> e.cursor == end.cursor)
  }

  lemma LastPage(p: Pull, s: Spot, log: seq<ServerOp>, replies: seq<Option<seq<ServerOp>>>, saves: nat -> bool, k: nat)
    requires k < |replies| && replies[k] == Some(log) && saves(k) && !PullPage(log, p.user, s.cursor, PAGE_SIZE).hasMore
    ensures var e, (end, stop) := PullFrom(p, s, replies, saves, k), TakeRows(p, s, Rows(log, p.user, s.cursor));
            EndsWith(e, end, stop) && e.served == k + 1
  {
    PageAndRest(log, p.user, s.cursor);
    assert TakeRows(p, s, []) == (s, None);
  }

  lemma PageWithMore(p: Pull, s: Spot, log: seq<ServerOp>, replies: seq<Option<seq<ServerOp>>>, saves: nat -> bool, k: nat)
    requires k < |replies| && replies[k] == Some(log) && saves(k) && PullPage(log, p.user, s.cursor, PAGE_SIZE).hasMore
    ensures var (next, stop) := TakeRows(p, s, PullPage(log, p.user, s.cursor, PAGE_SIZE).operations);
            var e, all := PullFrom(p, s, replies, saves, k), TakeRows(p, s, Rows(log, p.user, s.cursor));
            if stop.Some? then all == (next, stop) && EndsWith(e, next, stop)
            else
              && e == PullFrom(p, next, replies, saves, k + 1) && all == TakeRows(p, next, Rows(log, p.user, next.cursor))
              && |Pages(log, p.user, s.cursor, PAGE_SIZE)| == 1 + |Pages(log, p.user, next.cursor, PAGE_SIZE)|
  {
    PageAndRest(log, p.user, s.cursor);
    var page := PullPage(log, p.user, s.cursor, PAGE_SIZE);
    TakeRowsConcat(p, s, page.operations, Rows(log, p.user, page.nextCursor));
    if TakeRows(p, s, page.operations).1 == None { TakenToTheLast(p, s, page.operations); }
  }

  /** A pull of a log that does not change meanwhile, with every request answered and every save
      succeeding, takes the rows of the whole log up to the first that stops it. If none does, it takes
      exactly as many requests as there are pages. */
  lemma {:induction false} PullOfFixedLog(p: Pull, s: Spot, log: seq<ServerOp>, replies: seq<Option<seq<ServerOp>>>,
                                          saves: nat -> bool, k: nat)
    requires forall i :: k <= i < |replies| ==> replies[i] == Some(log) && saves(i)
    requires k + |Pages(log, p.user, s.cursor, PAGE_SIZE)| <= |replies|
    ensures var e, (end, stop) := PullFrom(p, s, replies, saves, k), TakeRows(p, s, Rows(log, p.user, s.cursor));
            EndsWith(e, end, stop) && (stop == None ==> e.served == k + |Pages(log, p.user, s.cursor, PAGE_SIZE)|)
    decreases |Pages(log, p.user, s.cursor, PAGE_SIZE)|
  {
    PageAndRest(log, p.user, s.cursor);
    var page := PullPage(log, p.user, s.cursor, PAGE_SIZE);
    if page.hasMore {
      PageWithMore(p, s, log, replies, saves, k);
      var (next, stop) := TakeRows(p, s, page.operations);
      if stop == None { PullOfFixedLog(p, next, log, replies, saves, k + 1); }
    } else {
      LastPage(p, s, log, replies, saves, k);
    }
  }

  /** Such a pull succeeds if and only if no row of the log behind the saved cursor blocks, and no merge
      overflows the clock. Then it takes `max(1, ceil(n / 100))` requests for `n` operations, saves
      the position behind the last of them, and leaves the tables with all the foreign ones applied. */
  lemma PullSucceedsIff(p: Pull, s: Spot, log: seq<ServerOp>, replies: seq<Option<seq<ServerOp>>>, saves: nat -> bool)
    requires Fresh(s)
    requires forall i :: 0 <= i < |replies| ==> replies[i] == Some(log) && saves(i)
    requires |Pages(log, p.user, s.cursor, PAGE_SIZE)| <= |replies|
    ensures var e, rows := PullFrom(p, s, replies, saves, 0), Rows(log, p.user, s.cursor);
            var ops := Foreign(rows, p.device);
            && (e.outcome.PullDone? <==>
                  (forall n :: s.cursor <= n < |log| ==> !Blocks(p, s.tables, log[n]))
                  && ClockRun(s.hlc, PullMerges(Stamps(ops), p.clock)).Some?)
            && (e.outcome.PullDone? ==>
                  && RequestsFor(e.served, |rows|, 100)
                  && e.cursor == (if rows == [] then s.cursor else rows[|rows| - 1].seqNo)
                  && e.spot.tables == ApplyAll(p.books, s.tables, ops).0
                  && e.outcome.applied == NumApplied(p.books, s.tables, ops))
  {
    var rows := Rows(log, p.user, s.cursor);
    PullOfFixedLog(p, s, log, replies, saves, 0);
    TakingMeans(p, s, rows);
    NoneBlocksIff(p, s.tables, log, s.cursor);
    PagesCoverTheLog(log, p.user, s.cursor, PAGE_SIZE);
    if rows != [] && TakeRows(p, s, rows).1 == None { TakenToTheLast(p, s, rows); }
  }
}
