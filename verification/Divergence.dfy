/** Exactly when the demands of the convergence theorems are missed to the replicas' harm: the general
    form of the runs in `FailingRuns`. */
module Divergence {
  import opened Basics
  import opened Tables
  import opened SyncServer
  import opened SyncRuns
  import opened Convergence
  import opened RunSteps

  // ---------- Operation ids ----------

  /** A retry duplicates an entry if and only if it sends it under another id than the one it has in the
      log. */
  lemma EntriesStayUniqueIff(log: seq<ServerOp>, r: Replica, ops: seq<PushOp>)
    requires UniqueEntries(log)
    requires forall k, l :: 0 <= k < l < |ops| ==> ops[k].src != ops[l].src && ops[k].opId != ops[l].opId
    requires forall k, n :: 0 <= k < |ops| && 0 <= n < |log| && log[n].user == r.user && log[n].opId == ops[k].opId
               ==> log[n].device == r.device && log[n].src == ops[k].src
    ensures UniqueEntries(PushAll(log, r.user, r.device, ops))
       <==> forall k, n :: 0 <= k < |ops| && 0 <= n < |log| && SameEntry(log[n], r, ops[k]) ==> log[n].opId == ops[k].opId
  {
    if k, n :| 0 <= k < |ops| && 0 <= n < |log| && SameEntry(log[n], r, ops[k]) && log[n].opId != ops[k].opId {
      SecondCopy(log, r, ops, k, n);
    } else {
      PushKeepsEntriesUnique(log, r, ops);
    }
  }

  lemma SecondCopy(log: seq<ServerOp>, r: Replica, ops: seq<PushOp>, k: nat, n: nat)
    requires k < |ops| && n < |log| && SameEntry(log[n], r, ops[k]) && log[n].opId != ops[k].opId && UniqueEntries(log)
    requires forall l :: 0 <= l < |ops| && l != k ==> ops[l].opId != ops[k].opId
    requires forall m :: 0 <= m < |log| && log[m].user == r.user && log[m].opId == ops[k].opId ==> SameEntry(log[m], r, ops[k])
    ensures !UniqueEntries(PushAll(log, r.user, r.device, ops))
  {
    var all := PushAll(log, r.user, r.device, ops);
    PushAdds(log, r.user, r.device, ops);
    assert all[n] == log[n];
    assert Known(all, r.user, ops[k].opId);
    var j :| 0 <= j < |all| && all[j].user == r.user && all[j].opId == ops[k].opId;
    if j >= |log| { assert FromBatch(all[j], r.user, r.device, ops); }
    assert SameEntry(all[j], r, ops[k]);
  }

  // ---------- Torn writes ----------

  /** A crash between a row and its op-log entry, in a state where the user's replicas are at rest and
      agree: they stay at rest, and they still agree on a key if and only if the row was not written, is
      not that key's, or is the one that was there. */
  lemma TornWriteAgreesIff(s: System, i: nat, j: nat, op: Operation, ts: u64, k: Key)
    requires i < |s.reps| && j < |s.reps| && i != j && s.reps[j].user == s.reps[i].user
    requires Quiescent(s, s.reps[i].user) && AgreeOn(s, s.reps[i].user, k)
    ensures Step(s, i, Torn(op, ts)).Some?
    ensures var t, user := Step(s, i, Torn(op, ts)).value, s.reps[i].user;
            && Quiescent(t, user)
            && (AgreeOn(t, user, k) <==>
                  (LocalWrite(s.reps[i].books, s.reps[i].tables, op, ts).1.Logged? && k == KeyOf(op)
                   ==> Effect(Write(op, AsI64(ts))) == Cell(s.reps[i].tables, k)))
  {
    LocalOnCells(s.reps[i].books, s.reps[i].tables, op, ts, k);
    TornStaysAtRest(s, i, op, ts);
    var t, user := Step(s, i, Torn(op, ts)).value, s.reps[i].user;
    assert forall x :: 0 <= x < |s.reps| && x != i ==> t.reps[x] == s.reps[x];
    assert Cell(t.reps[j].tables, k) == Cell(s.reps[i].tables, k);
    if AgreeOn(t, user, k) {
      assert Cell(t.reps[i].tables, k) == Cell(t.reps[j].tables, k);
    }
  }

  lemma TornStaysAtRest(s: System, i: nat, op: Operation, ts: u64)
    requires i < |s.reps| && Quiescent(s, s.reps[i].user)
    ensures Step(s, i, Torn(op, ts)).Some? && Quiescent(Step(s, i, Torn(op, ts)).value, s.reps[i].user)
  {
    var t := Step(s, i, Torn(op, ts)).value;
    assert t.reps[i].opLog == s.reps[i].opLog && t.reps[i].cursor == s.reps[i].cursor && t.reps[i].user == s.reps[i].user;
    assert forall x :: 0 <= x < |s.reps| && x != i ==> t.reps[x] == s.reps[x];
  }

  // ---------- Stamps ----------

  /** Two replicas agree on a progress or preference key; one writes it, the other applies the write: they
      still agree if and only if the write is stamped above the stored row or repeats it. */
  lemma WriteAgreesIff(books: set<string>, others: set<string>, t: Tables, u: Tables, op: Operation, ts: u64)
    requires IsLww(KeyOf(op)) && Cell(t, KeyOf(op)) == Cell(u, KeyOf(op)) && BookKnown(books, op) && BookKnown(others, op)
    ensures Cell(LocalWrite(books, t, op, ts).0, KeyOf(op)) == Cell(ApplyRemote(others, u, Json(op), AsI64(ts)).0, KeyOf(op))
       <==> AsI64(ts) > Stamp(Cell(t, KeyOf(op))) || Cell(t, KeyOf(op)) == Some(Write(op, AsI64(ts)))
  {
    LocalOnCells(books, t, op, ts, KeyOf(op));
    ApplyOnCells(others, u, Write(op, AsI64(ts)), KeyOf(op));
  }

  // ---------- Whole rounds ----------

  /** What a round leaves alone: who the replicas are, and all of every replica but `i` and `j`. */
  ghost predicate RoundOf(s: System, t: System, i: nat, j: nat) {
    && |t.reps| == |s.reps|
    && forall x :: 0 <= x < |s.reps| ==> SameIdentity(t.reps[x], s.reps[x]) && (x != i && x != j ==> t.reps[x] == s.reps[x])
  }

  /** Two replicas of one user at rest, neither skipping the other's operations. */
  ghost predicate Pair(s: System, i: nat, j: nat) {
    && i < |s.reps| && j < |s.reps| && i != j && s.reps[j].user == s.reps[i].user
    && AtRest(s.log, s.reps[i]) && AtRest(s.log, s.reps[j])
    && s.reps[j].engineDevice != s.reps[i].device && s.reps[i].engineDevice != s.reps[j].device
  }

  /** Replica `i` may write: the write is logged, under a new operation id, and meets the demands. */
  ghost predicate Writes(d: Demands, s: System, i: nat, op: Operation, ts: u64, id: string) {
    && i < |s.reps| && !Known(s.log, s.reps[i].user, id)
    && LocalWrite(s.reps[i].books, s.reps[i].tables, op, ts).1.Logged? && (d.stamped ==> StampedAbove(s, i, Local(op, ts)))
  }

  lemma OneWritePulled(d: Demands, start: System, before: seq<Event>, s: System, i: nat, j: nat, op: Operation, ts: u64, id: string)
    returns (es: seq<Event>, t: System)
    requires Reaches(d, start, before, s) && Pair(s, i, j) && Writes(d, s, i, op, ts, id) && NeverFails(s.reps[j], op)
    ensures Reaches(d, start, es, t) && t.log == s.log + [RowOf(s.reps[i], id, op, ts)] && RoundOf(s, t, i, j) && Pair(t, i, j)
    ensures var rows, r := [RemoteOp(|s.log| + 1, RowOf(s.reps[i], id, op, ts))], AfterWrite(s.reps[i], op, ts);
            t.reps[i].tables == AfterRows(r, r.tables, rows) && t.reps[j].tables == AfterRows(s.reps[j], s.reps[j].tables, rows)
  {
    var row := RowOf(s.reps[i], id, op, ts);
    var rows := [RemoteOp(|s.log| + 1, row)];
    LocalOnCells(s.reps[i].books, s.reps[i].tables, op, ts, KeyOf(op));
    NewRow(s.log, s.reps[i].user, s.reps[i].cursor, row);
    NewRow(s.log, s.reps[j].user, s.reps[j].cursor, row);
    var es1, pushed := WriteAndPush(d, start, before, s, i, op, ts, id);
    var es2, pulled := PullToRest(d, start, es1, pushed, j, rows);
    es, t := PullToRest(d, start, es2, pulled, i, rows);
  }

  /** One write of a replica at rest, pushed and pulled by another one and by itself: both are at rest
      again, the writer holds the effect of the write, and the other what applying it leaves.

      So they agree on a bookmark or annotation if and only if the reader knows the book or holds the row
      already; and on a progress or preference key on which they agreed before if and only if the write
      is stamped above the stored row or repeats it. */
  lemma OneWriteTravels(d: Demands, start: System, before: seq<Event>, s: System, i: nat, j: nat, op: Operation, ts: u64, id: string)
    returns (es: seq<Event>, t: System)
    requires Reaches(d, start, before, s) && Pair(s, i, j) && Writes(d, s, i, op, ts, id) && NeverFails(s.reps[j], op)
    ensures Reaches(d, start, es, t) && t.log == s.log + [RowOf(s.reps[i], id, op, ts)] && RoundOf(s, t, i, j) && Pair(t, i, j)
    ensures var k, w := KeyOf(op), Write(op, AsI64(ts));
            var a, c := Cell(s.reps[i].tables, k), Cell(s.reps[j].tables, k);
            && Cell(t.reps[i].tables, k) == Effect(w)
            && Cell(t.reps[j].tables, k) == CellApply(s.reps[j].books, c, w).0
            && (!IsLww(k) ==>
                  (Cell(t.reps[i].tables, k) == Cell(t.reps[j].tables, k) <==> BookKnown(s.reps[j].books, op) || c == Effect(w)))
            && (IsLww(k) && a == c ==>
                  (Cell(t.reps[i].tables, k) == Cell(t.reps[j].tables, k) <==> AsI64(ts) > Stamp(a) || a == Some(w)))
  {
    var r, q, k, w := AfterWrite(s.reps[i], op, ts), s.reps[j], KeyOf(op), Write(op, AsI64(ts));
    var x := RemoteOp(|s.log| + 1, RowOf(s.reps[i], id, op, ts));
    LocalOnCells(s.reps[i].books, s.reps[i].tables, op, ts, k);
    es, t := OneWritePulled(d, start, before, s, i, j, op, ts, id);
    AfterOne(q, q.tables, x);
    AfterOne(r, r.tables, x);
    ApplyOnCells(q.books, q.tables, w, k);
    ApplyOnCells(r.books, r.tables, w, k);
  }

  /** Two replicas may write at the same time. */
  ghost predicate BothWrite(d: Demands, s: System, i: nat, j: nat, one: Operation, two: Operation, ts1: u64, ts2: u64, id1: string, id2: string) {
    && Pair(s, i, j) && id1 != id2 && Writes(d, s, i, one, ts1, id1) && Writes(d, s, j, two, ts2, id2)
    && NeverFails(s.reps[j], one) && NeverFails(s.reps[i], two)
  }

  lemma BothWriteAndPush(d: Demands, start: System, before: seq<Event>, s: System, i: nat, j: nat, one: Operation, two: Operation,
                         ts1: u64, ts2: u64, id1: string, id2: string)
    returns (es: seq<Event>, t: System)
    requires Reaches(d, start, before, s) && BothWrite(d, s, i, j, one, two, ts1, ts2, id1, id2)
    ensures Reaches(d, start, es, t)
    ensures t == System(s.log + [RowOf(s.reps[i], id1, one, ts1)] + [RowOf(s.reps[j], id2, two, ts2)],
                        s.reps[i := AfterWrite(s.reps[i], one, ts1)][j := AfterWrite(s.reps[j], two, ts2)])
  {
    var es1, s1 := WriteAndPush(d, start, before, s, i, one, ts1, id1);
    StillUnknown(s.log, RowOf(s.reps[i], id1, one, ts1), id2);
    es, t := WriteAndPush(d, start, es1, s1, j, two, ts2, id2);
  }

  /** The rows of two concurrent writes. */
  function BothRows(s: System, i: nat, j: nat, one: Operation, two: Operation, ts1: u64, ts2: u64, id1: string, id2: string): seq<RemoteOp>
    requires i < |s.reps| && j < |s.reps|
  {
    [RemoteOp(|s.log| + 1, RowOf(s.reps[i], id1, one, ts1)), RemoteOp(|s.log| + 2, RowOf(s.reps[j], id2, two, ts2))]
  }

  lemma BothSee(d: Demands, s: System, i: nat, j: nat, one: Operation, two: Operation, ts1: u64, ts2: u64, id1: string, id2: string)
    requires BothWrite(d, s, i, j, one, two, ts1, ts2, id1, id2)
    ensures var rows := BothRows(s, i, j, one, two, ts1, ts2, id1, id2);
            forall r :: r in {s.reps[i], s.reps[j]} ==>
              Rows(s.log + [rows[0].op] + [rows[1].op], r.user, r.cursor) == rows && Applicable(r, rows)
  {
    var rows := BothRows(s, i, j, one, two, ts1, ts2, id1, id2);
    NewRows(s.log, s.reps[i].user, s.reps[i].cursor, rows[0].op, rows[1].op);
    NewRows(s.log, s.reps[j].user, s.reps[j].cursor, rows[0].op, rows[1].op);
    LocalOnCells(s.reps[i].books, s.reps[i].tables, one, ts1, KeyOf(one));
    LocalOnCells(s.reps[j].books, s.reps[j].tables, two, ts2, KeyOf(two));
  }

  /** Two replicas at rest write before either sees the other's write, `i` pushes first, and then both
      pull both rows: both are at rest again. */
  lemma BothPull(d: Demands, start: System, before: seq<Event>, s: System, i: nat, j: nat, one: Operation, two: Operation,
                 ts1: u64, ts2: u64, id1: string, id2: string)
    returns (es: seq<Event>, t: System)
    requires Reaches(d, start, before, s) && BothWrite(d, s, i, j, one, two, ts1, ts2, id1, id2)
    ensures Reaches(d, start, es, t) && RoundOf(s, t, i, j) && Pair(t, i, j)
    ensures t.log == s.log + [RowOf(s.reps[i], id1, one, ts1)] + [RowOf(s.reps[j], id2, two, ts2)]
    ensures var rows, r, q := BothRows(s, i, j, one, two, ts1, ts2, id1, id2), AfterWrite(s.reps[i], one, ts1), AfterWrite(s.reps[j], two, ts2);
            t.reps[i].tables == AfterRows(r, r.tables, rows) && t.reps[j].tables == AfterRows(q, q.tables, rows)
  {
    var rows := BothRows(s, i, j, one, two, ts1, ts2, id1, id2);
    BothSee(d, s, i, j, one, two, ts1, ts2, id1, id2);
    assert s.reps[i] in {s.reps[i], s.reps[j]} && s.reps[j] in {s.reps[i], s.reps[j]};
    var es2, s2 := BothWriteAndPush(d, start, before, s, i, j, one, two, ts1, ts2, id1, id2);
    var es3, s3 := PullToRest(d, start, es2, s2, i, rows);
    es, t := PullToRest(d, start, es3, s3, j, rows);
  }

  /** What the rows of two writes to one key do to its cell. */
  lemma AfterTwoRows(r: Replica, t: Tables, x: RemoteOp, y: RemoteOp, k: Key)
    requires x.op.payload.Json? && y.op.payload.Json? && KeyOf(x.op.payload.op) == k && KeyOf(y.op.payload.op) == k
    ensures var first := if x.op.device == r.engineDevice then Cell(t, k)
                         else CellApply(r.books, Cell(t, k), Write(x.op.payload.op, x.op.ts)).0;
            Cell(AfterRows(r, t, [x, y]), k) == if y.op.device == r.engineDevice then first
                                                else CellApply(r.books, first, Write(y.op.payload.op, y.op.ts)).0
  {
    AfterBoth(r, t, x, y);
    AfterOne(r, t, x);
    AfterOne(r, AfterRows(r, t, [x]), y);
    ApplyOnCells(r.books, t, Write(x.op.payload.op, x.op.ts), k);
    ApplyOnCells(r.books, AfterRows(r, t, [x]), Write(y.op.payload.op, y.op.ts), k);
  }

  lemma BothCells(d: Demands, start: System, before: seq<Event>, s: System, i: nat, j: nat, one: Operation, two: Operation,
                  ts1: u64, ts2: u64, id1: string, id2: string)
    returns (es: seq<Event>, t: System)
    requires Reaches(d, start, before, s) && BothWrite(d, s, i, j, one, two, ts1, ts2, id1, id2) && KeyOf(one) == KeyOf(two)
    ensures Reaches(d, start, es, t) && RoundOf(s, t, i, j) && Pair(t, i, j)
    ensures t.log == s.log + [RowOf(s.reps[i], id1, one, ts1)] + [RowOf(s.reps[j], id2, two, ts2)]
    ensures var k, v, w := KeyOf(one), Write(one, AsI64(ts1)), Write(two, AsI64(ts2));
            var r, q := s.reps[i], s.reps[j];
            var again := if r.device == r.engineDevice then Effect(v) else CellApply(r.books, Effect(v), v).0;
            var taken := CellApply(q.books, Effect(w), v).0;
            && Cell(t.reps[i].tables, k) == CellApply(r.books, again, w).0
            && Cell(t.reps[j].tables, k) == if q.device == q.engineDevice then taken else CellApply(q.books, taken, w).0
  {
    var r, q, k := AfterWrite(s.reps[i], one, ts1), AfterWrite(s.reps[j], two, ts2), KeyOf(one);
    var rows := BothRows(s, i, j, one, two, ts1, ts2, id1, id2);
    LocalOnCells(s.reps[i].books, s.reps[i].tables, one, ts1, k);
    LocalOnCells(s.reps[j].books, s.reps[j].tables, two, ts2, k);
    es, t := BothPull(d, start, before, s, i, j, one, two, ts1, ts2, id1, id2);
    AfterTwoRows(r, r.tables, rows[0], rows[1], k);
    AfterTwoRows(q, q.tables, rows[0], rows[1], k);
  }

  /** Two replicas at rest with the same books write the same bookmark or annotation before either sees the
      other's write; `i` pushes first, both pull everything, and both are at rest again. The first holds
      the effect of the second write. The second holds it too if its engine does not skip its own
      operations, else it holds the effect of the first: so they agree if and only if it does not skip
      them, or the two effects are the same. */
  lemma ConcurrentMarksAgreeIff(d: Demands, start: System, before: seq<Event>, s: System, i: nat, j: nat, one: Operation, two: Operation,
                                ts1: u64, ts2: u64, id1: string, id2: string)
    returns (es: seq<Event>, t: System)
    requires Reaches(d, start, before, s) && BothWrite(d, s, i, j, one, two, ts1, ts2, id1, id2)
    requires KeyOf(one) == KeyOf(two) && !IsLww(KeyOf(one)) && s.reps[i].books == s.reps[j].books
    ensures Reaches(d, start, es, t) && RoundOf(s, t, i, j) && Pair(t, i, j)
    ensures var k, first, second := KeyOf(one), Effect(Write(one, AsI64(ts1))), Effect(Write(two, AsI64(ts2)));
            && Cell(t.reps[i].tables, k) == second
            && (Cell(t.reps[i].tables, k) == Cell(t.reps[j].tables, k)
                <==> s.reps[j].engineDevice != s.reps[j].device || first == second)
  {
    LocalOnCells(s.reps[i].books, s.reps[i].tables, one, ts1, KeyOf(one));
    LocalOnCells(s.reps[j].books, s.reps[j].tables, two, ts2, KeyOf(two));
    es, t := BothCells(d, start, before, s, i, j, one, two, ts1, ts2, id1, id2);
  }

  /** Two replicas at rest write the same progress or preference key before either sees the other's write,
      and both pull everything, whoever pushes first: they agree if and only if the stamps differ or the
      writes are the same. Each holds its own write, unless the other's is stamped above it. */
  lemma ConcurrentWritesAgreeIff(d: Demands, start: System, before: seq<Event>, s: System, i: nat, j: nat, one: Operation, two: Operation,
                                 ts1: u64, ts2: u64, id1: string, id2: string)
    returns (es: seq<Event>, t: System)
    requires Reaches(d, start, before, s) && BothWrite(d, s, i, j, one, two, ts1, ts2, id1, id2)
    requires KeyOf(one) == KeyOf(two) && IsLww(KeyOf(one))
    ensures Reaches(d, start, es, t) && RoundOf(s, t, i, j) && Pair(t, i, j)
    ensures t.log == s.log + [RowOf(s.reps[i], id1, one, ts1)] + [RowOf(s.reps[j], id2, two, ts2)]
    ensures var k, v, w := KeyOf(one), Write(one, AsI64(ts1)), Write(two, AsI64(ts2));
            && Cell(t.reps[i].tables, k) == Some(if w.ts > v.ts then w else v)
            && Cell(t.reps[j].tables, k) == Some(if v.ts > w.ts then v else w)
            && (Cell(t.reps[i].tables, k) == Cell(t.reps[j].tables, k) <==> ts1 != ts2 || one == two)
  {
    es, t := BothCells(d, start, before, s, i, j, one, two, ts1, ts2, id1, id2);
    LocalOnCells(s.reps[i].books, s.reps[i].tables, one, ts1, KeyOf(one));
    LocalOnCells(s.reps[j].books, s.reps[j].tables, two, ts2, KeyOf(two));
  }
}
