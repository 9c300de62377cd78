/** Convergence of the tables that are not last-writer-wins: bookmarks and annotations. */
module MarkConvergence {
  import opened Basics
  import opened Tables
  import opened SyncServer
  import opened PullSpec
  import opened SyncRuns
  import opened Convergence

  /** What the last write to `k` in the user's log leaves; nothing if there is none. */
  function LastEffect(log: seq<ServerOp>, user: string, k: Key): Option<Write>
    decreases |log|
  {
    if log == [] then None
    else
      var n := |log| - 1;
      if WriteAt(log, n, user, k) then Effect(Write(log[n].payload.op, log[n].ts))
      else LastEffect(log[..n], user, k)
  }

  ghost predicate NoneFrom(log: seq<ServerOp>, user: string, k: Key, m: nat) {
    forall n: nat :: m <= n < |log| ==> !WriteAt(log, n, user, k)
  }

  lemma {:induction false} LastEffectIgnores(log: seq<ServerOp>, user: string, k: Key, m: nat)
    requires m <= |log| && NoneFrom(log, user, k, m)
    ensures LastEffect(log, user, k) == LastEffect(log[..m], user, k)
    decreases |log|
  {
    if m < |log| {
      var front := log[..|log| - 1];
      assert !WriteAt(log, |log| - 1, user, k);
      forall n: nat | m <= n < |front| ensures !WriteAt(front, n, user, k) {
        assert !WriteAt(log, n, user, k);
      }
      LastEffectIgnores(front, user, k, m);
      assert front[..m] == log[..m];
    } else {
      assert log[..m] == log;
    }
  }

  lemma LastEffectAt(log: seq<ServerOp>, user: string, k: Key, n: nat)
    requires WriteAt(log, n, user, k) && NoneFrom(log, user, k, n + 1)
    ensures LastEffect(log, user, k) == Effect(Write(log[n].payload.op, log[n].ts))
  {
    LastEffectIgnores(log, user, k, n + 1);
    assert WriteAt(log[..n + 1], n, user, k);
  }

  /** Every write of the user, here or in the log, names a registered book. */
  ghost predicate BooksKnown(log: seq<ServerOp>, r: Replica) {
    && (forall p: nat :: p < |r.opLog| ==> BookKnown(r.books, r.opLog[p].op))
    && (forall n :: 0 <= n < |log| && log[n].user == r.user ==> log[n].payload.Json? && BookKnown(r.books, log[n].payload.op))
  }

  /** A row that no operation ahead of the replica will touch again, and whose own writes have all
      left, is the effect of the last write in the log. */
  ghost predicate Follows(log: seq<ServerOp>, r: Replica, k: Key) {
    (NoneFrom(log, r.user, k, Position(r)) && (forall p: nat :: p < |r.opLog| && KeyOf(r.opLog[p].op) == k ==> InLog(log, r, p)))
    ==> Cell(r.tables, k) == LastEffect(log, r.user, k)
  }

  ghost predicate Marked(log: seq<ServerOp>, r: Replica) {
    BooksKnown(log, r) && forall k :: !IsLww(k) ==> Follows(log, r, k)
  }

  lemma MarkedLocal(log: seq<ServerOp>, r: Replica, op: Operation, ts: u64)
    requires Marked(log, r) && Pushing(log, r)
    ensures Marked(log, Act(log, r, Local(op, ts)).value.1)
  {
    var q := Act(log, r, Local(op, ts)).value.1;
    LocalOnCells(r.books, r.tables, op, ts, KeyOf(op));
    forall p: nat ensures InLog(log, q, p) <==> InLog(log, r, p) {}
    forall k | !IsLww(k) ensures Follows(log, q, k) {
      LocalOnCells(r.books, r.tables, op, ts, k);
      assert Follows(log, r, k);
      if |q.opLog| > |r.opLog| && k == KeyOf(op) {
        assert q.opLog[|r.opLog|].op == op;
        assert !InLog(log, r, |r.opLog|);
      }
      forall p: nat | p < |r.opLog| ensures q.opLog[p] == r.opLog[p] {}
    }
  }

  /** Growth of the log, by whomever, as long as its rows under the replica's device are its entries. */
  lemma MarkedGrows(log: seq<ServerOp>, more: seq<ServerOp>, r: Replica)
    requires Marked(log, r) && Position(r) <= |log| && Extends(more, log) && Pushing(more, r)
    requires forall n :: |log| <= n < |more| && more[n].user == r.user ==> more[n].payload.Json? && BookKnown(r.books, more[n].payload.op)
    ensures Marked(more, r)
  {
    assert forall n :: 0 <= n < |log| ==> more[n] == log[n];
    forall k | !IsLww(k) && NoneFrom(more, r.user, k, Position(r)) && (forall p: nat :: p < |r.opLog| && KeyOf(r.opLog[p].op) == k ==> InLog(more, r, p))
      ensures Cell(r.tables, k) == LastEffect(more, r.user, k)
    {
      forall n: nat | Position(r) <= n < |log| ensures !WriteAt(log, n, r.user, k) {
        assert !WriteAt(more, n, r.user, k);
      }
      forall p: nat | p < |r.opLog| && KeyOf(r.opLog[p].op) == k ensures InLog(log, r, p) {
        var n :| 0 <= n < |more| && more[n].user == r.user && more[n].device == r.device && more[n].src == p;
        assert OfEntry(r, PushOp(more[n].opId, more[n].payload, more[n].ts, more[n].src));
        assert WriteAt(more, n, r.user, k);
        assert n < |log|;
      }
      assert Follows(log, r, k);
      LastEffectIgnores(more, r.user, k, |log|);
    }
  }

  /** The same tables and entries, at the same position or an earlier one. */
  lemma MarkedCarries(log: seq<ServerOp>, r: Replica, q: Replica)
    requires Marked(log, r) && SameIdentity(q, r) && q.tables == r.tables && |q.opLog| == |r.opLog|
    requires forall p: nat :: p < |r.opLog| ==> q.opLog[p].op == r.opLog[p].op
    requires Position(q) <= Position(r)
    ensures Marked(log, q)
  {
    forall p: nat ensures InLog(log, q, p) <==> InLog(log, r, p) {}
    forall k | !IsLww(k) ensures Follows(log, q, k) {
      assert Follows(log, r, k);
    }
  }

  lemma MarkedNext(log: seq<ServerOp>, r: Replica)
    requires Marked(log, r) && Pulling(log, r) && Act(log, r, TakeNext).Some?
    requires forall n :: 0 <= n < |log| && log[n].user == r.user ==> log[n].device != r.engineDevice
    ensures Marked(log, Act(log, r, TakeNext).value.1)
  {
    var q := Act(log, r, TakeNext).value.1;
    var m, x := r.pull.at, r.pull.page[0];
    assert Rows(log, r.user, m)[0] == x;
    TakenRange(log, r.user, m);
    var w := Write(x.op.payload.op, x.op.ts);
    ApplyOnCells(r.books, r.tables, w, KeyOf(w.op));
    forall p: nat ensures InLog(log, q, p) <==> InLog(log, r, p) {}
    forall k | !IsLww(k) && Position(q) == x.seqNo ensures Follows(log, q, k) {
      ApplyOnCells(r.books, r.tables, w, k);
      assert Follows(log, r, k);
      if NoneFrom(log, r.user, k, x.seqNo) {
        if k == KeyOf(w.op) {
          LastEffectAt(log, r.user, k, x.seqNo - 1);
        } else {
          forall n: nat | m <= n < |log| ensures !WriteAt(log, n, r.user, k) {
            if n < x.seqNo && log[n].user == r.user { assert n + 1 == x.seqNo; }
          }
        }
      }
    }
  }

  lemma MarkedStep(log: seq<ServerOp>, r: Replica, a: Action)
    requires Marked(log, r) && Pulling(log, r) && Pushing(log, r) && Act(log, r, a).Some? && !a.Torn?
    requires Pushing(Act(log, r, a).value.0, Act(log, r, a).value.1)
    requires forall n :: 0 <= n < |log| && log[n].user == r.user ==> log[n].device != r.engineDevice
    ensures Marked(Act(log, r, a).value.0, Act(log, r, a).value.1)
  {
    var (log', r') := Act(log, r, a).value;
    if a.Local? {
      MarkedLocal(log, r, a.op, a.ts);
    } else if a.TakeNext? {
      MarkedNext(log, r);
    } else {
      MarkedCarries(log, r, r');
      if a.SendBatch? {
        SentBooksKnown(log, r);
        MarkedGrows(log, log', r');
      }
    }
  }

  /** A batch carries entries of its replica, so their books are known. */
  lemma SentBooksKnown(log: seq<ServerOp>, r: Replica)
    requires BooksKnown(log, r) && Pushing(log, r) && Act(log, r, SendBatch).Some?
    ensures var log' := Act(log, r, SendBatch).value.0;
            forall n :: |log| <= n < |log'| ==> log'[n].payload.Json? && BookKnown(r.books, log'[n].payload.op)
  {
    var (log', r') := Act(log, r, SendBatch).value;
    var batch := r'.push.batch;
    PushAdds(log, r.user, r.device, batch);
    forall n | |log| <= n < |log'| ensures log'[n].payload.Json? && BookKnown(r.books, log'[n].payload.op) {
      var l :| 0 <= l < |batch| && log'[n] == Row(r.user, r.device, batch[l]);
      assert batch[l] == Outstanding(r)[l];
      assert OfEntry(r, Outstanding(r)[l]);
    }
  }

  const MARK_DEMANDS := Demands(true, true, false)

  ghost predicate SameBooks(s: System) {
    forall i, j :: 0 <= i < |s.reps| && 0 <= j < |s.reps| && s.reps[i].user == s.reps[j].user ==> s.reps[i].books == s.reps[j].books
  }

  ghost predicate AllMarked(s: System) {
    forall i :: 0 <= i < |s.reps| ==> Marked(s.log, s.reps[i])
  }

  lemma NothingSkipped(s: System, i: nat)
    requires Originated(s) && SkipsNothing(s) && i < |s.reps|
    ensures forall n :: 0 <= n < |s.log| ==> s.log[n].device != s.reps[i].engineDevice
  {
    forall n | 0 <= n < |s.log| ensures s.log[n].device != s.reps[i].engineDevice {
      var j :| 0 <= j < |s.reps| && s.reps[j].user == s.log[n].user && s.reps[j].device == s.log[n].device;
    }
  }

  /** What one replica adds to the log leaves the marks of another alone. */
  lemma OtherMarked(s: System, t: System, who: nat, i: nat)
    requires who < |s.reps| == |t.reps| && i < |s.reps| && i != who && t.reps[i] == s.reps[i] && SameBooks(s)
    requires Marked(s.log, s.reps[i]) && Pulling(s.log, s.reps[i]) && Pushing(t.log, t.reps[i]) && Extends(t.log, s.log)
    requires forall n :: |s.log| <= n < |t.log| ==>
               t.log[n].user == s.reps[who].user && t.log[n].payload.Json? && BookKnown(s.reps[who].books, t.log[n].payload.op)
    ensures Marked(t.log, t.reps[i])
  {
    MarkedGrows(s.log, t.log, s.reps[i]);
  }

  lemma AllMarkedStep(s: System, e: Event)
    requires AllMarked(s) && AllPushing(s) && Originated(s) && SkipsNothing(s) && SameBooks(s)
    requires forall i :: 0 <= i < |s.reps| ==> Pulling(s.log, s.reps[i])
    requires Step(s, e.who, e.action).Some? && !e.action.Torn? && AllPushing(Step(s, e.who, e.action).value)
    ensures AllMarked(Step(s, e.who, e.action).value)
  {
    var r, t := s.reps[e.who], Step(s, e.who, e.action).value;
    NothingSkipped(s, e.who);
    assert Pushing(t.log, t.reps[e.who]);
    MarkedStep(s.log, r, e.action);
    LogOnlyGrows(s.log, r, e.action);
    if e.action.SendBatch? { SentBooksKnown(s.log, r); }
    forall i | 0 <= i < |t.reps| && i != e.who ensures Marked(t.log, t.reps[i]) {
      OtherMarked(s, t, e.who, i);
    }
  }

  lemma {:induction false} AlwaysMarked(s: System, es: seq<Event>)
    requires Initial(s) && SkipsNothing(s) && SameBooks(s) && GoodRun(MARK_DEMANDS, s, es)
    ensures Exec(s, es).Some? && AllMarked(Exec(s, es).value)
    decreases |es|
  {
    if es != [] {
      var init := es[..|es| - 1];
      AlwaysMarked(s, init);
      IdentityIsFixed(MARK_DEMANDS, s, init);
      NoLostOp(MARK_DEMANDS, s, init);
      MarkedIsInLog(MARK_DEMANDS, s, init);
      MarkedIsInLog(MARK_DEMANDS, s, es);
      AllMarkedStep(Exec(s, init).value, es[|es| - 1]);
    } else {
      forall i, k | 0 <= i < |s.reps| ensures Cell(s.reps[i].tables, k) == None {}
    }
  }

  /** Convergence of bookmarks and annotations, which have no conflict resolution at all. In every
      run with crashes, lost replies and retries, of engines that skip nothing and replicas of a user
      with the same registered books: at rest every row is the effect of the last write to it in the
      user's log, on every replica. */
  lemma MarkIsLastLogged(s: System, es: seq<Event>, user: string, i: nat, k: Key)
    requires Initial(s) && SkipsNothing(s) && SameBooks(s) && GoodRun(MARK_DEMANDS, s, es) && !IsLww(k)
    requires i < |s.reps| && s.reps[i].user == user
    ensures Exec(s, es).Some? && i < |Exec(s, es).value.reps|
    ensures var t := Exec(s, es).value;
            Quiescent(t, user) ==> Cell(t.reps[i].tables, k) == LastEffect(t.log, user, k)
  {
    AlwaysMarked(s, es);
    IdentityIsFixed(MARK_DEMANDS, s, es);
    NoLostOp(MARK_DEMANDS, s, es);
    MarkedIsInLog(MARK_DEMANDS, s, es);
    var t := Exec(s, es).value;
    var r := t.reps[i];
    if Quiescent(t, user) {
      RowsExact(t.log, user, r.cursor);
      assert Pulling(t.log, r) && Pushing(t.log, r) && Marked(t.log, r);
      assert Follows(t.log, r, k);
    }
  }

  /** So the user's replicas hold equal bookmark and annotation tables. */
  lemma MarkTablesConverge(s: System, es: seq<Event>, user: string, i: nat, j: nat)
    requires Initial(s) && SkipsNothing(s) && SameBooks(s) && GoodRun(MARK_DEMANDS, s, es)
    requires Exec(s, es).Some? && Quiescent(Exec(s, es).value, user)
    requires i < |s.reps| && s.reps[i].user == user && j < |s.reps| && s.reps[j].user == user
    ensures var reps := Exec(s, es).value.reps;
            && i < |reps| && j < |reps|
            && reps[i].tables.bookmarks == reps[j].tables.bookmarks
            && reps[i].tables.annotations == reps[j].tables.annotations
  {
    IdentityIsFixed(MARK_DEMANDS, s, es);
    var t, u := Exec(s, es).value.reps[i].tables, Exec(s, es).value.reps[j].tables;
    forall k ensures Cell(t.(progress := map[], preferences := map[]), k) == Cell(u.(progress := map[], preferences := map[]), k) {
      if !IsLww(k) {
        MarkIsLastLogged(s, es, user, i, k);
        MarkIsLastLogged(s, es, user, j, k);
        assert Cell(t, k) == Cell(u, k);
      }
    }
    CellsDetermineTables(t.(progress := map[], preferences := map[]), u.(progress := map[], preferences := map[]));
  }
}
