/** What holds in every reachable state of the machine holds wherever the engine's loops end. */
module EngineKeeps {
  import opened Basics
  import opened SyncServer
  import opened LocalStore
  import opened PullSpec
  import opened SyncEngine
  import opened SyncRuns
  import opened Convergence
  import MarkConvergence
  import opened EngineRuns

  /** What the runs have been shown to keep for replica `i`. */
  ghost predicate KeptByRuns(d: Demands, log: seq<ServerOp>, r: Replica) {
    && Pulling(log, r) && AllTaken(log, r, r.cursor)
    && (d.honest ==> Pushing(log, r))
    && (d == LWW_DEMANDS ==> Winning(log, r))
  }

  lemma RunsKeep(d: Demands, s: System, es: seq<Event>, t: System, i: nat)
    requires Initial(s) && Reaches(d, s, es, t) && i < |t.reps|
    ensures KeptByRuns(d, t.log, t.reps[i])
    ensures d == MarkConvergence.MARK_DEMANDS && SkipsNothing(s) && MarkConvergence.SameBooks(s) ==> MarkConvergence.Marked(t.log, t.reps[i])
  {
    NoLostOp(d, s, es);
    if d.honest { MarkedIsInLog(d, s, es); }
    if d == LWW_DEMANDS { AlwaysWinning(s, es); }
    if d == MarkConvergence.MARK_DEMANDS && SkipsNothing(s) && MarkConvergence.SameBooks(s) { MarkConvergence.AlwaysMarked(s, es); }
  }

  /** After a good run from the start and a pull of the engine of replica `i`, while the others go on with
      good runs, the replica with the tables and the saved cursor the engine leaves has everything that
      runs keep: whatever way the pull ends. */
  lemma PullKeeps(d: Demands, start: System, before: seq<Event>, s: System, p: Pull, i: nat, others: seq<seq<Event>>,
                  replies: seq<Option<seq<ServerOp>>>, saves: nat -> bool, at: Spot)
    returns (es: seq<Event>, t: System)
    requires Initial(start) && Reaches(d, start, before, s)
    requires i < |s.reps| && s.reps[i].pull.Idle? && PullsFor(p, s.reps[i])
    requires at.cursor == s.reps[i].cursor && at.tables == s.reps[i].tables
    requires OthersMake(d, s, i, others, replies, PullFrom(p, at, replies, saves, 0).served)
    ensures Reaches(d, start, es, t) && i < |t.reps|
    ensures var e := PullFrom(p, at, replies, saves, 0);
            Moved(s.reps[i], t.reps[i], e.cursor, e.spot.tables, Idle) && KeptByRuns(d, t.log, t.reps[i])
    ensures d == MarkConvergence.MARK_DEMANDS && SkipsNothing(start) && MarkConvergence.SameBooks(start)
            ==> MarkConvergence.Marked(t.log, t.reps[i])
  {
    var e := PullFrom(p, at, replies, saves, 0);
    var es1, q := PullIsReachable(d, p, s, i, others, replies, saves, at);
    t := System(Before(s, others, e.served).value.log, Before(s, others, e.served).value.reps[i := q]);
    Continue(d, start, before, s, es1, t);
    es := before + es1;
    RunsKeep(d, start, es, t, i);
  }

  /** The same after a push of the engine of replica `i`, whatever way it ends. */
  lemma PushKeeps(d: Demands, start: System, before: seq<Event>, s: System, i: nat, us: seq<UnsyncedOp>, ids: nat -> string,
                  batches: nat, arrived: nat)
    returns (es: seq<Event>, t: System)
    requires Initial(start) && Reaches(d, start, before, s)
    requires i < |s.reps| && s.reps[i].push.Quiet? && IsUnsyncedList(s.reps[i].opLog, us)
    requires d.honest ==> HonestIds(s.log, s.reps[i], Payloads(us, ids))
    requires arrived == batches || (arrived == batches + 1 && InBatches(batches, |us|) < |us|)
    ensures Reaches(d, start, es, t)
    ensures var r := s.reps[i];
            t == System(PushAll(s.log, r.user, r.device, Payloads(us, ids)[..InBatches(arrived, |us|)]),
                        s.reps[i := r.(opLog := MarkSynced(r.opLog, Positions(us)[..InBatches(batches, |us|)]))])
    ensures forall j :: 0 <= j < |t.reps| ==> KeptByRuns(d, t.log, t.reps[j])
  {
    var r := s.reps[i];
    var es1 := PushIsReachable(d, s, i, us, ids, batches, arrived);
    t := System(PushAll(s.log, r.user, r.device, Payloads(us, ids)[..InBatches(arrived, |us|)]),
                s.reps[i := r.(opLog := MarkSynced(r.opLog, Positions(us)[..InBatches(batches, |us|)]))]);
    Continue(d, start, before, s, es1, t);
    es := before + es1;
    forall j | 0 <= j < |t.reps| ensures KeptByRuns(d, t.log, t.reps[j]) {
      RunsKeep(d, start, es, t, j);
    }
  }
}
