/** When replicas agree on the last-writer-wins tables: convergence of progress and preferences over all
    runs, with its exact condition. */
module Convergence {
  import opened Basics
  import opened Tables
  import opened SyncServer
  import opened PullSpec
  import opened SyncRuns

  // ---------- Quiescence and agreement ----------

  /** Every replica of the user has pushed everything and pulled to the end of the log. */
  ghost predicate Quiescent(s: System, user: string) {
    forall i :: 0 <= i < |s.reps| && s.reps[i].user == user ==>
      var r := s.reps[i];
      && (forall p: nat :: p < |r.opLog| ==> r.opLog[p].synced)
      && Rows(s.log, user, r.cursor) == []
  }

  ghost predicate AgreeOn(s: System, user: string, k: Key) {
    forall i, j :: 0 <= i < |s.reps| && 0 <= j < |s.reps| && s.reps[i].user == user && s.reps[j].user == user
      ==> Cell(s.reps[i].tables, k) == Cell(s.reps[j].tables, k)
  }

  /** No engine skips operations of another replica of its user: its device id is its own, or, like
      the constant used by the FFI layer, nobody's. */
  ghost predicate SkipsOnlyOwn(s: System) {
    forall i, j :: 0 <= i < |s.reps| && 0 <= j < |s.reps| && i != j && s.reps[i].user == s.reps[j].user
      ==> s.reps[i].engineDevice != s.reps[j].device
  }

  /** No engine skips anything. */
  ghost predicate SkipsNothing(s: System) {
    forall i, j :: 0 <= i < |s.reps| && 0 <= j < |s.reps| ==> s.reps[i].engineDevice != s.reps[j].device
  }

  /** Row `n` of the log is a write of the user to key `k`. */
  predicate WriteAt(log: seq<ServerOp>, n: nat, user: string, k: Key) {
    n < |log| && log[n].user == user && log[n].payload.Json? && KeyOf(log[n].payload.op) == k
  }

  ghost predicate TopAt(log: seq<ServerOp>, n: nat, user: string, k: Key) {
    WriteAt(log, n, user, k) && forall m: nat :: WriteAt(log, m, user, k) ==> log[m].ts <= log[n].ts
  }

  /** The writes to `k` that carry the largest stamp are all the same write. */
  ghost predicate UniqueTop(log: seq<ServerOp>, user: string, k: Key) {
    forall n: nat, m: nat :: TopAt(log, n, user, k) && TopAt(log, m, user, k) ==> log[n].payload == log[m].payload
  }

  // ---------- Last-writer-wins: the invariant ----------

  /** A write a replica has seen: one of its own, or one it has applied. */
  ghost predicate Seen(log: seq<ServerOp>, r: Replica, w: Write) {
    || (exists p: nat :: p < |r.opLog| && Write(r.opLog[p].op, r.opLog[p].ts) == w)
    || (exists q :: q in r.applied && 1 <= q <= |log| && log[q - 1].payload == Json(w.op) && log[q - 1].ts == w.ts)
  }

  /** No seen write carries a larger stamp than its cell. */
  ghost predicate Dominating(log: seq<ServerOp>, r: Replica) {
    forall w :: Seen(log, r, w) && IsLww(KeyOf(w.op)) ==> w.ts <= Stamp(Cell(r.tables, KeyOf(w.op)))
  }

  /** A cell holds a seen write, with a positive stamp. */
  ghost predicate HoldingSeen(log: seq<ServerOp>, r: Replica) {
    forall k :: IsLww(k) && Cell(r.tables, k).Some? ==> Seen(log, r, Cell(r.tables, k).value) && 0 < Cell(r.tables, k).value.ts
  }

  /** An own write gives way only to a strictly larger stamp. */
  ghost predicate KeepingOwn(r: Replica) {
    forall p: nat :: p < |r.opLog| && IsLww(KeyOf(r.opLog[p].op)) ==>
      var w := Write(r.opLog[p].op, r.opLog[p].ts);
      Kept(Cell(r.tables, KeyOf(w.op)), w)
  }

  predicate Kept(c: Option<Write>, w: Write) {
    c.Some? && (c.value == w || w.ts < c.value.ts)
  }

  /** Each cell holds a seen write with the largest seen stamp, the first such one if it is an own one. */
  ghost predicate Winning(log: seq<ServerOp>, r: Replica) {
    Dominating(log, r) && HoldingSeen(log, r) && KeepingOwn(r)
  }

  /** The cells of `q` are those of `r`, but `w` takes its cell if its stamp beats the stored one. */
  ghost predicate CellsTake(r: Replica, q: Replica, w: Write) {
    forall k :: IsLww(k) ==>
      Cell(q.tables, k) == if k == KeyOf(w.op) && w.ts > Stamp(Cell(r.tables, k)) then Some(w) else Cell(r.tables, k)
  }

  lemma OwnTakes(r: Replica, q: Replica, w: Write)
    requires KeepingOwn(r) && CellsTake(r, q, w)
    requires forall p: nat :: p < |q.opLog| ==>
               || (p < |r.opLog| && q.opLog[p] == r.opLog[p])
               || (Write(q.opLog[p].op, q.opLog[p].ts) == w && (IsLww(KeyOf(w.op)) ==> w.ts > Stamp(Cell(r.tables, KeyOf(w.op)))))
    ensures KeepingOwn(q)
  {
    forall p: nat | p < |q.opLog| && IsLww(KeyOf(q.opLog[p].op))
      ensures var v := Write(q.opLog[p].op, q.opLog[p].ts);
              Kept(Cell(q.tables, KeyOf(v.op)), v)
    {
      var k := KeyOf(q.opLog[p].op);
      assert Cell(q.tables, k) == if k == KeyOf(w.op) && w.ts > Stamp(Cell(r.tables, k)) then Some(w) else Cell(r.tables, k);
    }
  }

  /** One more write is seen. It takes its cell if its stamp beats the stored one, and no own write
      is added that does not. */
  lemma WinningTakes(log: seq<ServerOp>, r: Replica, q: Replica, w: Write)
    requires Winning(log, r) && CellsTake(r, q, w)
    requires forall v :: Seen(log, q, v) <==> Seen(log, r, v) || v == w
    requires forall p: nat :: p < |q.opLog| ==>
               || (p < |r.opLog| && q.opLog[p] == r.opLog[p])
               || (Write(q.opLog[p].op, q.opLog[p].ts) == w && (IsLww(KeyOf(w.op)) ==> w.ts > Stamp(Cell(r.tables, KeyOf(w.op)))))
    ensures Winning(log, q)
  {
    OwnTakes(r, q, w);
    forall v | Seen(log, q, v) && IsLww(KeyOf(v.op)) ensures v.ts <= Stamp(Cell(q.tables, KeyOf(v.op))) {
      assert v == w || v.ts <= Stamp(Cell(r.tables, KeyOf(v.op)));
    }
    assert HoldingSeen(log, q);
  }

  lemma WinningLocal(log: seq<ServerOp>, r: Replica, op: Operation, ts: u64)
    requires Winning(log, r) && Pulling(log, r)
    requires IsLww(KeyOf(op)) ==> AsI64(ts) > Stamp(Cell(r.tables, KeyOf(op)))
    ensures Winning(log, Act(log, r, Local(op, ts)).value.1)
  {
    var (t, res) := LocalWrite(r.books, r.tables, op, ts);
    var q := Act(log, r, Local(op, ts)).value.1;
    var mine := Write(op, AsI64(ts));
    forall k ensures Cell(t, k) == if res.Logged? && k == KeyOf(op) then Effect(mine) else Cell(r.tables, k) {
      LocalOnCells(r.books, r.tables, op, ts, k);
    }
    if res.Logged? {
      LocalSeen(log, r, q, mine);
      assert CellsTake(r, q, mine);
      WinningTakes(log, r, q, mine);
    } else {
      CellsDetermineTables(t, r.tables);
      WinningCarries(log, log, r, q);
    }
  }

  lemma LocalSeen(log: seq<ServerOp>, r: Replica, q: Replica, w: Write)
    requires |q.opLog| == |r.opLog| + 1 && q.opLog[..|r.opLog|] == r.opLog
    requires Write(q.opLog[|r.opLog|].op, q.opLog[|r.opLog|].ts) == w && q.applied == r.applied
    ensures forall v :: Seen(log, q, v) <==> Seen(log, r, v) || v == w
    ensures forall p: nat :: p < |r.opLog| ==> q.opLog[p] == r.opLog[p]
  {
    forall p: nat | p < |r.opLog| ensures q.opLog[p] == r.opLog[p] {
      assert q.opLog[..|r.opLog|][p] == r.opLog[p];
    }
    forall v | Seen(log, r, v) ensures Seen(log, q, v) {
      if exists p: nat :: p < |r.opLog| && Write(r.opLog[p].op, r.opLog[p].ts) == v {
        var p: nat :| p < |r.opLog| && Write(r.opLog[p].op, r.opLog[p].ts) == v;
        assert Write(q.opLog[p].op, q.opLog[p].ts) == v;
      }
    }
  }

  lemma WinningApply(log: seq<ServerOp>, r: Replica, q: Replica, n: nat)
    requires Winning(log, r) && n < |log|
    requires !ApplyRemote(r.books, r.tables, log[n].payload, log[n].ts).1.Failed?
    requires q.tables == ApplyRemote(r.books, r.tables, log[n].payload, log[n].ts).0
    requires q.opLog == r.opLog && q.applied == r.applied + {n + 1}
    ensures Winning(log, q)
  {
    var w := Write(log[n].payload.op, log[n].ts);
    ApplyOnCells(r.books, r.tables, w, KeyOf(w.op));
    assert CellsTake(r, q, w) by {
      forall k | IsLww(k)
        ensures Cell(q.tables, k) == if k == KeyOf(w.op) && w.ts > Stamp(Cell(r.tables, k)) then Some(w) else Cell(r.tables, k)
      {
        ApplyOnCells(r.books, r.tables, w, k);
      }
    }
    forall v ensures Seen(log, q, v) <==> Seen(log, r, v) || v == w {
      assert n + 1 in q.applied && log[(n + 1) - 1] == log[n];
    }
    WinningTakes(log, r, q, w);
  }

  /** The invariant depends on the tables, the entries and the applied rows only. */
  lemma WinningCarries(log: seq<ServerOp>, more: seq<ServerOp>, r: Replica, q: Replica)
    requires Winning(log, r) && Pulling(log, r) && Extends(more, log)
    requires q.tables == r.tables && q.applied == r.applied && |q.opLog| == |r.opLog|
    requires forall p: nat :: p < |r.opLog| ==> q.opLog[p].op == r.opLog[p].op && q.opLog[p].ts == r.opLog[p].ts
    ensures Winning(more, q)
  {
    forall w ensures Seen(more, q, w) <==> Seen(log, r, w) {
      assert forall x :: x in r.applied ==> more[x - 1] == log[x - 1];
      if Seen(log, r, w) && !(exists p: nat :: p < |r.opLog| && Write(r.opLog[p].op, r.opLog[p].ts) == w) {
        var x :| x in r.applied && 1 <= x <= |log| && log[x - 1].payload == Json(w.op) && log[x - 1].ts == w.ts;
        assert more[x - 1] == log[x - 1];
      } else if Seen(log, r, w) {
        var p: nat :| p < |r.opLog| && Write(r.opLog[p].op, r.opLog[p].ts) == w;
        assert Write(q.opLog[p].op, q.opLog[p].ts) == w;
      }
      if exists p: nat :: p < |q.opLog| && Write(q.opLog[p].op, q.opLog[p].ts) == w {
        var p: nat :| p < |q.opLog| && Write(q.opLog[p].op, q.opLog[p].ts) == w;
        assert Write(r.opLog[p].op, r.opLog[p].ts) == w;
      }
    }
    forall p: nat | p < |q.opLog| ensures Write(q.opLog[p].op, q.opLog[p].ts) == Write(r.opLog[p].op, r.opLog[p].ts) {}
  }

  lemma WinningNext(log: seq<ServerOp>, r: Replica)
    requires Winning(log, r) && Pulling(log, r) && Act(log, r, TakeNext).Some?
    ensures Winning(log, Act(log, r, TakeNext).value.1)
  {
    var r' := Act(log, r, TakeNext).value.1;
    var x := r.pull.page[0];
    assert Rows(log, r.user, r.pull.at)[0] == x;
    RowsExact(log, r.user, r.pull.at);
    if x.op.device != r.engineDevice && !ApplyRemote(r.books, r.tables, x.op.payload, x.op.ts).1.Failed? {
      WinningApply(log, r, r', x.seqNo - 1);
    } else {
      WinningCarries(log, log, r, r');
    }
  }

  lemma WinningStep(log: seq<ServerOp>, r: Replica, a: Action)
    requires Winning(log, r) && Pulling(log, r) && Act(log, r, a).Some? && !a.Torn?
    requires a.Local? && IsLww(KeyOf(a.op)) ==> AsI64(a.ts) > Stamp(Cell(r.tables, KeyOf(a.op)))
    ensures Winning(Act(log, r, a).value.0, Act(log, r, a).value.1)
  {
    if a.Local? {
      WinningLocal(log, r, a.op, a.ts);
    } else if a.TakeNext? {
      WinningNext(log, r);
    } else {
      LogOnlyGrows(log, r, a);
      WinningCarries(log, Act(log, r, a).value.0, r, Act(log, r, a).value.1);
    }
  }

  const LWW_DEMANDS := Demands(true, true, true)

  lemma {:induction false} AlwaysWinning(s: System, es: seq<Event>)
    requires Initial(s) && GoodRun(LWW_DEMANDS, s, es)
    ensures Exec(s, es).Some?
    ensures forall i :: 0 <= i < |Exec(s, es).value.reps| ==> Winning(Exec(s, es).value.log, Exec(s, es).value.reps[i])
    decreases |es|
  {
    if es != [] {
      var init := es[..|es| - 1];
      AlwaysWinning(s, init);
      NoLostOp(LWW_DEMANDS, s, init);
      var mid, e := Exec(s, init).value, es[|es| - 1];
      var t := Exec(s, es).value;
      WinningStep(mid.log, mid.reps[e.who], e.action);
      LogOnlyGrows(mid.log, mid.reps[e.who], e.action);
      forall i | 0 <= i < |t.reps| ensures Winning(t.log, t.reps[i]) {
        if i != e.who { WinningCarries(mid.log, t.log, mid.reps[i], mid.reps[i]); }
      }
    } else {
      forall i | 0 <= i < |s.reps| ensures Winning(s.log, s.reps[i]) {
        assert forall k :: Cell(s.reps[i].tables, k) == None;
      }
    }
  }

  // ---------- Last-writer-wins: convergence ----------

  /** A quiescent state with everything the runs have been shown to keep. */
  ghost predicate Settled(s: System, user: string) {
    && Quiescent(s, user) && SkipsOnlyOwn(s) && AllPushing(s) && Originated(s)
    && (forall i :: 0 <= i < |s.reps| ==> Pulling(s.log, s.reps[i]) && Winning(s.log, s.reps[i]))
  }

  /** At rest, a replica has seen exactly the user's writes that are in the log. */
  lemma SeenIsLogged(s: System, user: string, i: nat, w: Write)
    requires Settled(s, user) && i < |s.reps| && s.reps[i].user == user
    ensures Seen(s.log, s.reps[i], w) <==> exists n: nat :: WriteAt(s.log, n, user, KeyOf(w.op)) && s.log[n].payload == Json(w.op) && s.log[n].ts == w.ts
  {
    var r := s.reps[i];
    if Seen(s.log, r, w) {
      if p: nat :| p < |r.opLog| && Write(r.opLog[p].op, r.opLog[p].ts) == w {
        assert InLog(s.log, r, p);
        var n :| 0 <= n < |s.log| && s.log[n].user == r.user && s.log[n].device == r.device && s.log[n].src == p;
        assert OfEntry(r, PushOp(s.log[n].opId, s.log[n].payload, s.log[n].ts, s.log[n].src));
        assert WriteAt(s.log, n, user, KeyOf(w.op));
      } else {
        var q :| q in r.applied && 1 <= q <= |s.log| && s.log[q - 1].payload == Json(w.op) && s.log[q - 1].ts == w.ts;
        assert WriteAt(s.log, q - 1, user, KeyOf(w.op));
      }
    }
    if n: nat :| WriteAt(s.log, n, user, KeyOf(w.op)) && s.log[n].payload == Json(w.op) && s.log[n].ts == w.ts {
      LoggedIsSeen(s, user, i, n);
    }
  }

  lemma LoggedIsSeen(s: System, user: string, i: nat, n: nat)
    requires Settled(s, user) && i < |s.reps| && s.reps[i].user == user
    requires n < |s.log| && s.log[n].user == user && s.log[n].payload.Json?
    ensures Seen(s.log, s.reps[i], Write(s.log[n].payload.op, s.log[n].ts))
  {
    var r := s.reps[i];
    RowsExact(s.log, user, r.cursor);
    assert n + 1 <= r.cursor;
    if n + 1 in r.applied {
      assert s.log[(n + 1) - 1] == s.log[n];
    } else {
      var j :| 0 <= j < |s.reps| && s.reps[j].user == s.log[n].user && s.reps[j].device == s.log[n].device;
      assert j == i;
      assert OfEntry(r, PushOp(s.log[n].opId, s.log[n].payload, s.log[n].ts, s.log[n].src));
    }
  }

  /** At rest, a cell holds a top write of the log, if there is a write with a positive stamp. */
  lemma CellIsTop(s: System, user: string, i: nat, k: Key, n: nat)
    requires Settled(s, user) && i < |s.reps| && s.reps[i].user == user && IsLww(k)
    requires WriteAt(s.log, n, user, k)
    ensures s.log[n].ts <= Stamp(Cell(s.reps[i].tables, k))
  {
    LoggedIsSeen(s, user, i, n);
  }

  lemma CellIsLogged(s: System, user: string, i: nat, k: Key) returns (n: nat)
    requires Settled(s, user) && i < |s.reps| && s.reps[i].user == user && IsLww(k)
    requires Cell(s.reps[i].tables, k).Some?
    ensures TopAt(s.log, n, user, k)
    ensures Cell(s.reps[i].tables, k) == Some(Write(s.log[n].payload.op, s.log[n].ts)) && s.log[n].ts > 0
  {
    var w := Cell(s.reps[i].tables, k).value;
    SeenIsLogged(s, user, i, w);
    n :| WriteAt(s.log, n, user, KeyOf(w.op)) && s.log[n].payload == Json(w.op) && s.log[n].ts == w.ts;
    forall m: nat | WriteAt(s.log, m, user, k) ensures s.log[m].ts <= s.log[n].ts {
      CellIsTop(s, user, i, k, m);
    }
  }

  lemma UniqueTopAgrees(s: System, user: string, k: Key, i: nat, j: nat)
    requires Settled(s, user) && IsLww(k) && UniqueTop(s.log, user, k)
    requires i < |s.reps| && s.reps[i].user == user && j < |s.reps| && s.reps[j].user == user
    ensures Cell(s.reps[i].tables, k) == Cell(s.reps[j].tables, k)
  {
    if Cell(s.reps[i].tables, k).Some? {
      var n := CellIsLogged(s, user, i, k);
      CellIsTop(s, user, j, k, n);
      var m := CellIsLogged(s, user, j, k);
      assert s.log[n].payload == s.log[m].payload;
    } else if Cell(s.reps[j].tables, k).Some? {
      var m := CellIsLogged(s, user, j, k);
      CellIsTop(s, user, i, k, m);
    }
  }

  /** The replica that made a top write still holds it. */
  lemma AuthorKeepsTop(s: System, user: string, k: Key, n: nat) returns (i: nat)
    requires Settled(s, user) && IsLww(k) && TopAt(s.log, n, user, k)
    ensures i < |s.reps| && s.reps[i].user == user
    ensures Cell(s.reps[i].tables, k) == Some(Write(s.log[n].payload.op, s.log[n].ts))
  {
    i :| 0 <= i < |s.reps| && s.reps[i].user == s.log[n].user && s.reps[i].device == s.log[n].device;
    var r := s.reps[i];
    assert OfEntry(r, PushOp(s.log[n].opId, s.log[n].payload, s.log[n].ts, s.log[n].src));
    var w := Write(r.opLog[s.log[n].src].op, r.opLog[s.log[n].src].ts);
    assert Kept(Cell(r.tables, KeyOf(w.op)), w);
    var m := CellIsLogged(s, user, i, k);
    assert s.log[m].ts <= s.log[n].ts;
  }

  /** At rest, the replicas of a user agree on a progress or preference key exactly when the user's
      log does not hold two different writes to it under one largest stamp. */
  lemma SettledAgreement(s: System, user: string, k: Key)
    requires Settled(s, user) && IsLww(k)
    ensures AgreeOn(s, user, k) <==> UniqueTop(s.log, user, k)
  {
    if UniqueTop(s.log, user, k) {
      forall i, j | 0 <= i < |s.reps| && 0 <= j < |s.reps| && s.reps[i].user == user && s.reps[j].user == user
        ensures Cell(s.reps[i].tables, k) == Cell(s.reps[j].tables, k)
      {
        UniqueTopAgrees(s, user, k, i, j);
      }
    }
    if AgreeOn(s, user, k) {
      forall n: nat, m: nat | TopAt(s.log, n, user, k) && TopAt(s.log, m, user, k)
        ensures s.log[n].payload == s.log[m].payload
      {
        var i := AuthorKeepsTop(s, user, k, n);
        var j := AuthorKeepsTop(s, user, k, m);
        assert Cell(s.reps[i].tables, k) == Cell(s.reps[j].tables, k);
      }
    }
  }

  /** Convergence of the last-writer-wins tables. In every run of any number of replicas, with
      crashes, lost requests, lost replies and retries, in which local writes are stamped above the
      stored row: once everything is pushed and pulled, the user's replicas agree on a key if and
      only if no two different writes to it share the largest stamp. No assumption on the registered
      books is needed: an engine that cannot apply a progress write never gets past it. */
  lemma LwwConvergence(s: System, es: seq<Event>, user: string, k: Key)
    requires Initial(s) && SkipsOnlyOwn(s) && GoodRun(LWW_DEMANDS, s, es) && IsLww(k)
    ensures Exec(s, es).Some?
    ensures var t := Exec(s, es).value;
            Quiescent(t, user) ==> (AgreeOn(t, user, k) <==> UniqueTop(t.log, user, k))
  {
    IdentityIsFixed(LWW_DEMANDS, s, es);
    NoLostOp(LWW_DEMANDS, s, es);
    MarkedIsInLog(LWW_DEMANDS, s, es);
    AlwaysWinning(s, es);
    var t := Exec(s, es).value;
    if Quiescent(t, user) {
      assert SkipsOnlyOwn(t);
      SettledAgreement(t, user, k);
    }
  }

  /** In particular, when no two different writes of the user's log share a key and a stamp, the
      quiescent replicas hold equal progress and preference tables. */
  lemma LwwTablesConverge(s: System, es: seq<Event>, user: string, i: nat, j: nat)
    requires Initial(s) && SkipsOnlyOwn(s) && GoodRun(LWW_DEMANDS, s, es)
    requires Exec(s, es).Some? && Quiescent(Exec(s, es).value, user)
    requires forall n: nat, m: nat, k :: var log := Exec(s, es).value.log;
               WriteAt(log, n, user, k) && WriteAt(log, m, user, k) && log[n].ts == log[m].ts ==> log[n].payload == log[m].payload
    requires i < |s.reps| && s.reps[i].user == user && j < |s.reps| && s.reps[j].user == user
    ensures var reps := Exec(s, es).value.reps;
            && i < |reps| && j < |reps|
            && reps[i].tables.progress == reps[j].tables.progress
            && reps[i].tables.preferences == reps[j].tables.preferences
  {
    IdentityIsFixed(LWW_DEMANDS, s, es);
    var t := Exec(s, es).value;
    forall k | IsLww(k) ensures Cell(t.reps[i].tables, k) == Cell(t.reps[j].tables, k) {
      LwwConvergence(s, es, user, k);
      assert UniqueTop(t.log, user, k);
    }
    EqualLwwTables(t.reps[i].tables, t.reps[j].tables);
  }

  lemma EqualLwwTables(t: Tables, u: Tables)
    requires forall k :: IsLww(k) ==> Cell(t, k) == Cell(u, k)
    ensures t.progress == u.progress && t.preferences == u.preferences
  {
    CellsDetermineTables(t.(bookmarks := map[], annotations := map[]), u.(bookmarks := map[], annotations := map[])) by {
      forall k
        ensures Cell(t.(bookmarks := map[], annotations := map[]), k) == Cell(u.(bookmarks := map[], annotations := map[]), k)
      {
        assert IsLww(k) ==> Cell(t, k) == Cell(u, k);
      }
    }
  }
}
