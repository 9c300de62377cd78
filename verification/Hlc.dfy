/** The hybrid logical clock: stamps, their 64-bit encoding, and runs of the clock. */
module Hlc {
  import opened Basics

  datatype HlcTimestamp = HlcTimestamp(wall: u64, counter: u16, node: u32)

  /** The causal order: wall time first, then the logical counter. The node is not part of it,
      because the encoding that travels between devices drops the node. */
  predicate Before(a: HlcTimestamp, b: HlcTimestamp) {
    a.wall < b.wall || (a.wall == b.wall && a.counter < b.counter)
  }

  /** Wall time in the upper 48 bits, counter in the lower 16. The shift drops the high bits of a
      wall time that does not fit. */
  function ToU64(h: HlcTimestamp): u64 {
    (h.wall * 0x1_0000) % TWO_64 + h.counter
  }

  function FromU64(v: u64, node: u32): HlcTimestamp {
    HlcTimestamp(v / 0x1_0000, v % 0x1_0000, node)
  }

  /** `checked_add(1)`; `None` is the panic. */
  function Bump(c: u16): Option<u16> {
    if c == 0xFFFF then None else Some(c + 1)
  }

  function WithCounter(wall: u64, counter: Option<u16>, node: u32): Option<HlcTimestamp> {
    match counter
    case None => None
    case Some(c) => Some(HlcTimestamp(wall, c, node))
  }

  function Tick(h: HlcTimestamp, now: u64): Option<HlcTimestamp> {
    if now > h.wall then Some(HlcTimestamp(now, 0, h.node))
    else WithCounter(h.wall, Bump(h.counter), h.node)
  }

  function Merge(h: HlcTimestamp, remote: HlcTimestamp, now: u64): Option<HlcTimestamp> {
    var wall: u64 := Max(Max(now, h.wall), remote.wall);
    var counter :=
      if wall == h.wall && wall == remote.wall then Bump(Max(h.counter, remote.counter))
      else if wall == h.wall then Bump(h.counter)
      else if wall == remote.wall then Bump(remote.counter)
      else Some(0);
    WithCounter(wall, counter, h.node)
  }

  // ---------- What ticks and merges compute ----------

  /** A tick gives the wall time, when that is ahead of the clock, and else the least stamp above the clock;
      it panics if and only if that would need a counter above 65535. */
  lemma TickIsLeast(h: HlcTimestamp, now: u64)
    ensures var r := Tick(h, now);
            if now > h.wall then r == Some(HlcTimestamp(now, 0, h.node))
            else
              && (r == None <==> h.counter == 65535)
              && (r.Some? ==> r.value.node == h.node && Before(h, r.value) && forall x :: Before(h, x) ==> !Before(x, r.value))
  {
  }

  /** The later of two stamps. */
  function Later(a: HlcTimestamp, b: HlcTimestamp): HlcTimestamp {
    if Before(a, b) then b else a
  }

  /** A merge gives the wall time, when that is ahead of both stamps, and else the least stamp above both;
      it panics if and only if that would need a counter above 65535. */
  lemma MergeIsLeast(h: HlcTimestamp, remote: HlcTimestamp, now: u64)
    ensures var r := Merge(h, remote, now);
            if now > h.wall && now > remote.wall then r == Some(HlcTimestamp(now, 0, h.node))
            else
              && (r == None <==> Later(h, remote).counter == 65535)
              && (r.Some? ==>
                    && r.value.node == h.node && r.value.wall >= now && r.value.wall in {now, h.wall, remote.wall}
                    && Before(h, r.value) && Before(remote, r.value)
                    && forall x :: Before(h, x) && Before(remote, x) ==> !Before(x, r.value))
  {
  }

  // ---------- Runs of the clock ----------

  datatype ClockEvent = TickAt(now: u64) | MergeWith(remote: HlcTimestamp, now: u64)

  function ClockStep(h: HlcTimestamp, e: ClockEvent): Option<HlcTimestamp> {
    match e
    case TickAt(now) => Tick(h, now)
    case MergeWith(remote, now) => Merge(h, remote, now)
  }

  /** The clock after a run, or `None` when some event overflowed the counter. */
  function ClockRun(h: HlcTimestamp, es: seq<ClockEvent>): Option<HlcTimestamp>
    decreases |es|
  {
    if es == [] then Some(h)
    else match ClockRun(h, es[..|es| - 1])
      case None => None
      case Some(mid) => ClockStep(mid, es[|es| - 1])
  }

  /** One event moves the clock strictly past its old value and past the stamp it merged. */
  lemma StepIncreases(h: HlcTimestamp, e: ClockEvent)
    requires ClockStep(h, e).Some?
    ensures Before(h, ClockStep(h, e).value)
    ensures e.MergeWith? ==> Before(e.remote, ClockStep(h, e).value)
    ensures ClockStep(h, e).value.node == h.node
  {
  }

  /** Along every run of ticks and merges the clock strictly increases and ends above every
      stamp that was merged on the way. */
  lemma {:induction false} RunIncreases(h: HlcTimestamp, es: seq<ClockEvent>)
    requires ClockRun(h, es).Some?
    ensures es != [] ==> Before(h, ClockRun(h, es).value)
    ensures forall i :: 0 <= i < |es| && es[i].MergeWith? ==> Before(es[i].remote, ClockRun(h, es).value)
    decreases |es|
  {
    if es != [] {
      var init := es[..|es| - 1];
      RunIncreases(h, init);
      StepIncreases(ClockRun(h, init).value, es[|es| - 1]);
      assert forall i :: 0 <= i < |init| ==> es[i] == init[i];
    }
  }

  /** The run never panics while the largest counter it starts from, plus its length, fits 16 bits. */
  lemma {:induction false} RunDoesNotOverflow(h: HlcTimestamp, es: seq<ClockEvent>, top: nat)
    requires h.counter <= top
    requires forall i :: 0 <= i < |es| && es[i].MergeWith? ==> es[i].remote.counter <= top
    requires top + |es| <= 0xFFFF
    ensures ClockRun(h, es).Some? && ClockRun(h, es).value.counter <= top + |es|
    decreases |es|
  {
    if es != [] {
      var init := es[..|es| - 1];
      assert forall i :: 0 <= i < |init| ==> es[i] == init[i];
      RunDoesNotOverflow(h, init, top);
    }
  }

  /** The bound is tight: merging the largest counter at the largest wall time panics at once. */
  lemma OverflowPanics(h: HlcTimestamp, now: u64)
    requires h.counter == 0xFFFF && now <= h.wall
    ensures Tick(h, now) == None
    ensures forall r: HlcTimestamp :: r.wall <= h.wall ==> Merge(h, r, now) == None
  {
  }

  // ---------- The encoding ----------

  /** Decoding then encoding is the identity; encoding then decoding is, exactly when the wall
      time fits in 48 bits. */
  lemma EncodingRoundTrip(h: HlcTimestamp, v: u64)
    ensures ToU64(FromU64(v, h.node)) == v
    ensures FromU64(ToU64(h), h.node) == h <==> h.wall < TWO_48
  {
  }

  /** On walls below 2^48 the encoding preserves and reflects the causal order. */
  lemma EncodingKeepsOrder(a: HlcTimestamp, b: HlcTimestamp)
    requires a.wall < TWO_48 && b.wall < TWO_48
    ensures Before(a, b) <==> ToU64(a) < ToU64(b)
  {
  }

  /** The encoding drops the node: stamps of different nodes encode alike if and only if their walls and
      counters are the same. */
  lemma NodeIsDropped(a: HlcTimestamp, b: HlcTimestamp)
    requires a.wall < TWO_48 && b.wall < TWO_48
    ensures ToU64(a) == ToU64(b) <==> a.wall == b.wall && a.counter == b.counter
  {
  }

  /** So two clocks that tick when the wall clock is ahead of both give the same stamp, whatever their nodes. */
  lemma SameTickSameStamp(a: HlcTimestamp, b: HlcTimestamp, now: u64)
    requires a.wall < now && b.wall < now
    ensures Tick(a, now).Some? && Tick(b, now).Some? && ToU64(Tick(a, now).value) == ToU64(Tick(b, now).value)
  {
  }

  /** The engine's statement of last-writer-wins, on unsigned stamps. */
  predicate LwwResolve(local: u64, remote: u64) {
    remote > local
  }

  /** Storage compares the stamps as signed numbers. For different stamps it decides like
      `LwwResolve` exactly when both lie on the same side of 2^63. */
  lemma StorageAgreesWithLwwResolve(local: u64, remote: u64)
    ensures (AsI64(remote) > AsI64(local)) == LwwResolve(local, remote)
      <==> (local == remote || (local < TWO_63 <==> remote < TWO_63))
  {
  }

  /** Stamps of walls below 2^47 are on the lower side, so there the two decisions agree. */
  lemma SmallWallsAreSigned(h: HlcTimestamp)
    requires h.wall < TWO_48 / 2
    ensures AsI64(ToU64(h)) == ToU64(h)
  {
  }

  /** The merges that a pull performs for the stamps `ts`, the `i`-th at wall time `clock(i)`. */
  function PullMerges(ts: seq<i64>, clock: nat -> u64): (es: seq<ClockEvent>)
    ensures |es| == |ts|
  {
    seq(|ts|, i requires 0 <= i < |ts| => MergeWith(FromU64(AsU64(ts[i]), 0), clock(i)))
  }

  /** A write stamped by `tick` after a pull beats, in storage's signed comparison, every write
      that the pull brought in. */
  lemma TickAfterPullWins(h: HlcTimestamp, ts: seq<i64>, clock: nat -> u64, tickNow: u64, i: nat)
    requires i < |ts|
    requires ClockRun(h, PullMerges(ts, clock)).Some?
    requires Tick(ClockRun(h, PullMerges(ts, clock)).value, tickNow).Some?
    requires Tick(ClockRun(h, PullMerges(ts, clock)).value, tickNow).value.wall < TWO_48 / 2
    ensures AsI64(ToU64(Tick(ClockRun(h, PullMerges(ts, clock)).value, tickNow).value)) > ts[i]
  {
    var es := PullMerges(ts, clock);
    var mid := ClockRun(h, es).value;
    var stamp := Tick(mid, tickNow).value;
    RunIncreases(h, es);
    StepIncreases(mid, TickAt(tickNow));
    assert es[i].MergeWith?;
    assert Before(es[i].remote, stamp);
    EncodingKeepsOrder(es[i].remote, stamp);
    EncodingRoundTrip(HlcTimestamp(0, 0, 0), AsU64(ts[i]));
    SmallWallsAreSigned(stamp);
  }
}
