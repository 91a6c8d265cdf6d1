/**
 Pacing of a replay against the wall clock, with exact sleeps and any delays in
 between.  The dashboard paces each fill after the previous one and gives up
 lost time when it is more than a second behind; the replayer paces every fill
 after the first one and never gives up lost time.
 */
module Pacing {
  import opened Reals

  /**
   One paced run: timestamps in milliseconds, the effective speed at each fill,
   the clock before the loop, the time that passes between an emission and the
   next look at the clock, and between the two looks of a resync.
   */
  datatype Trace = Trace(ts: seq<int>, speed: seq<real>, now0: real, delay: seq<real>, lag: seq<real>) {
    ghost predicate WellFormed() {
      && |speed| == |ts| && |delay| == |ts| && |lag| == |ts|
      && (forall k :: 0 <= k < |ts| ==> delay[k] >= 0.0 && lag[k] >= 0.0)
    }

    ghost predicate AlwaysPaced() {
      forall k :: 0 <= k < |speed| ==> speed[k] > 0.0
    }
  }

  /** The schedule variable next_emit, and the moment a fill is emitted. */
  datatype Tick = Tick(nextEmit: real, emit: real)

  /** Seconds of wall time a gap between two fills should take. */
  function Gap(prev: int, next: int, speed: real): real
    requires speed != 0.0
  {
    (next - prev) as real / 1000.0 / speed
  }

  /** One turn of the ingest loop at clock reading now. */
  function Pace(nextEmit: real, now: real, lag: real): Tick {
    var slp := nextEmit - now;
    if slp > 0.0 then Tick(nextEmit, nextEmit)
    else if slp < -1.0 then Tick(now + lag, now + lag)
    else Tick(nextEmit, now)
  }

  function TickAt(r: Trace, k: nat): Tick
    requires r.WellFormed() && k < |r.ts|
  {
    if k == 0 then Tick(r.now0, r.now0 + r.delay[0])
    else
      var before := TickAt(r, k - 1);
      var now := before.emit + r.delay[k];
      if r.speed[k] > 0.0 then Pace(before.nextEmit + Gap(r.ts[k - 1], r.ts[k], r.speed[k]), now, r.lag[k])
      else Tick(before.nextEmit, now)
  }

  /** Wall time the data from the first fill to fill k should take. */
  function Due(r: Trace, k: nat): real
    requires r.WellFormed() && r.AlwaysPaced() && k < |r.ts|
  {
    if k == 0 then 0.0 else Due(r, k - 1) + Gap(r.ts[k - 1], r.ts[k], r.speed[k])
  }

  /** A fill is never emitted before its slot, and only the first can be more than a second after it. */
  lemma SlotBounds(r: Trace, k: nat)
    requires r.WellFormed() && r.AlwaysPaced() && k < |r.ts|
    ensures TickAt(r, k).nextEmit <= TickAt(r, k).emit
    ensures k > 0 ==> TickAt(r, k).emit <= TickAt(r, k).nextEmit + 1.0
    ensures k == 0 ==> TickAt(r, k).emit == TickAt(r, k).nextEmit + r.delay[0]
  {
    hide Gap;
  }

  /** The schedule only ever slips later. */
  lemma {:induction false} ScheduleSlips(r: Trace, i: nat, j: nat)
    requires r.WellFormed() && r.AlwaysPaced() && i <= j < |r.ts|
    ensures Due(r, j) - Due(r, i) <= TickAt(r, j).nextEmit - TickAt(r, i).nextEmit
  {
    hide Gap;
    if i < j {
      ScheduleSlips(r, i, j - 1);
    }
  }

  /** When fill k comes up for emission, after the delays since the one before it. */
  function Arrival(r: Trace, k: nat): real
    requires r.WellFormed() && 0 < k < |r.ts|
  {
    TickAt(r, k - 1).emit + r.delay[k]
  }

  /** When fill k is due by the schedule. */
  function Slot(r: Trace, k: nat): real
    requires r.WellFormed() && r.AlwaysPaced() && 0 < k < |r.ts|
  {
    TickAt(r, k - 1).nextEmit + Gap(r.ts[k - 1], r.ts[k], r.speed[k])
  }

  /** A fill waits for its slot or goes out on arrival; only one more than a second late moves the schedule. */
  lemma PacedTick(r: Trace, k: nat)
    requires r.WellFormed() && r.AlwaysPaced() && 0 < k < |r.ts|
    ensures Arrival(r, k) <= Slot(r, k) ==> TickAt(r, k) == Tick(Slot(r, k), Slot(r, k))
    ensures Slot(r, k) <= Arrival(r, k) <= Slot(r, k) + 1.0 ==> TickAt(r, k) == Tick(Slot(r, k), Arrival(r, k))
    ensures Arrival(r, k) > Slot(r, k) + 1.0 ==>
              TickAt(r, k) == Tick(Arrival(r, k) + r.lag[k], Arrival(r, k) + r.lag[k])
  {
    hide Gap;
  }

  /** At speed 0 or less a fill goes out on arrival and the schedule stands still. */
  lemma UnpacedTick(r: Trace, k: nat)
    requires r.WellFormed() && 0 < k < |r.ts| && r.speed[k] <= 0.0
    ensures TickAt(r, k) == Tick(TickAt(r, k - 1).nextEmit, Arrival(r, k))
  {
    hide Gap;
  }

  ghost predicate InTime(r: Trace, k: nat)
    requires r.WellFormed() && r.AlwaysPaced() && 0 < k < |r.ts|
  {
    Arrival(r, k) <= Slot(r, k) + 1.0
  }

  /** The schedule keeps pace with the data exactly while no fill is more than a second late; else it slips by more. */
  lemma {:induction false} ScheduleKept(r: Trace, i: nat, j: nat)
    requires r.WellFormed() && r.AlwaysPaced() && i <= j < |r.ts|
    ensures var slip := TickAt(r, j).nextEmit - TickAt(r, i).nextEmit - (Due(r, j) - Due(r, i));
            && (slip == 0.0 <==> forall k :: i < k <= j ==> InTime(r, k))
            && (slip == 0.0 || slip > 1.0)
  {
    hide Gap, TickAt, InTime;
    if i < j {
      ScheduleKept(r, i, j - 1);
      PacedTick(r, j);
      InTimeMeans(r, j);
      assert (forall k :: i < k <= j ==> InTime(r, k)) <==>
             (forall k :: i < k <= j - 1 ==> InTime(r, k)) && InTime(r, j);
    }
  }

  lemma InTimeMeans(r: Trace, k: nat)
    requires r.WellFormed() && r.AlwaysPaced() && 0 < k < |r.ts|
    ensures InTime(r, k) <==> Arrival(r, k) <= Slot(r, k) + 1.0
  {
  }

  /** How far data may run ahead, counted from fill i: a second, or the start-up delay from the first fill. */
  function Slack(r: Trace, i: nat): real
    requires r.WellFormed() && i < |r.ts|
  {
    if i == 0 then Max(1.0, r.delay[0]) else 1.0
  }

  /**
   Between any two emissions the replayed data is ahead of the wall clock by at
   most a second, or by the start-up delay when counted from the first fill;
   across any resyncs, speed changes and processing delays.
   */
  lemma DataNeverRunsAhead(r: Trace, i: nat, j: nat)
    requires r.WellFormed() && r.AlwaysPaced() && i <= j < |r.ts|
    ensures var wall := TickAt(r, j).emit - TickAt(r, i).emit;
            Due(r, j) - Due(r, i) <= wall + Slack(r, i)
  {
    hide TickAt, Due;
    ScheduleSlips(r, i, j);
    SlotBounds(r, i);
    SlotBounds(r, j);
  }

  /** The bound of DataNeverRunsAhead on a list of emissions. */
  ghost predicate BoundedLead(r: Trace, emits: seq<real>)
    requires r.WellFormed() && r.AlwaysPaced() && |emits| == |r.ts|
  {
    forall i, j :: 0 <= i <= j < |emits| ==> Due(r, j) - Due(r, i) <= emits[j] - emits[i] + Slack(r, i)
  }

  lemma TicksBoundLead(r: Trace, emits: seq<real>)
    requires r.WellFormed() && r.AlwaysPaced() && |emits| == |r.ts|
    requires forall k :: 0 <= k < |emits| ==> emits[k] == TickAt(r, k).emit
    ensures BoundedLead(r, emits)
  {
    hide TickAt, Due, Slack;
    forall i, j | 0 <= i <= j < |emits| ensures Due(r, j) - Due(r, i) <= emits[j] - emits[i] + Slack(r, i) {
      DataNeverRunsAhead(r, i, j);
    }
  }

  /** The pacing loop of the ingest process: when each fill is emitted, and how far data can run ahead. */
  method PaceIngest(r: Trace) returns (emits: seq<real>)
    requires r.WellFormed()
    ensures |emits| == |r.ts|
    ensures forall k :: 0 <= k < |emits| ==> emits[k] == TickAt(r, k).emit
    ensures r.AlwaysPaced() ==> BoundedLead(r, emits)
  {
    hide Gap, BoundedLead;
    emits := [];
    var nextEmit, clock := r.now0, r.now0;
    for k := 0 to |r.ts|
      invariant |emits| == k
      invariant forall j :: 0 <= j < k ==> emits[j] == TickAt(r, j).emit
      invariant k == 0 ==> nextEmit == r.now0 && clock == r.now0
      invariant k > 0 ==> Tick(nextEmit, clock) == TickAt(r, k - 1)
    {
      clock := clock + r.delay[k];
      if k > 0 && r.speed[k] > 0.0 {
        nextEmit := nextEmit + Gap(r.ts[k - 1], r.ts[k], r.speed[k]);
        var slp := nextEmit - clock;
        if slp > 0.0 {
          clock := clock + slp;
        } else if slp < -1.0 {
          clock := clock + r.lag[k];
          nextEmit := clock;
        }
      }
      emits := emits + [clock];
    }
    if r.AlwaysPaced() {
      TicksBoundLead(r, emits);
    }
  }

  ghost predicate ConstantSpeed(r: Trace, speed: real) {
    speed > 0.0 && forall k :: 0 <= k < |r.speed| ==> r.speed[k] == speed
  }

  lemma {:induction false} DueAtConstantSpeed(r: Trace, speed: real, k: nat)
    requires r.WellFormed() && ConstantSpeed(r, speed) && k < |r.ts|
    ensures r.AlwaysPaced() && speed * Due(r, k) == (r.ts[k] - r.ts[0]) as real / 1000.0
  {
    if k > 0 {
      DueAtConstantSpeed(r, speed, k - 1);
      GapTimesSpeed(r.ts[k - 1], r.ts[k], speed);
      assert speed * Due(r, k) == speed * Due(r, k - 1) + speed * Gap(r.ts[k - 1], r.ts[k], speed);
    }
  }

  lemma GapTimesSpeed(prev: int, next: int, speed: real)
    requires speed > 0.0
    ensures speed * Gap(prev, next, speed) == (next - prev) as real / 1000.0
  {
  }

  /** The bound itself: data seconds within speed times (wall seconds plus one). */
  ghost predicate PaceBound(r: Trace, speed: real, i: nat, j: nat)
    requires r.WellFormed() && i <= j < |r.ts|
  {
    (r.ts[j] - r.ts[i]) as real / 1000.0 <= speed * (TickAt(r, j).emit - TickAt(r, i).emit + 1.0)
  }

  /** The pacing bound, for any two emissions of which the earlier is not the first, or starts on time. */
  lemma PaceBoundHolds(r: Trace, speed: real, i: nat, j: nat)
    requires r.WellFormed() && ConstantSpeed(r, speed) && i <= j < |r.ts|
    requires i > 0 || r.delay[0] <= 1.0
    ensures PaceBound(r, speed, i, j)
  {
    hide TickAt, Due;
    DueAtConstantSpeed(r, speed, i);
    DueAtConstantSpeed(r, speed, j);
    DataNeverRunsAhead(r, i, j);
    Scale(speed, Due(r, j) - Due(r, i), TickAt(r, j).emit - TickAt(r, i).emit + 1.0);
  }

  lemma Scale(c: real, x: real, y: real)
    requires c > 0.0 && x <= y
    ensures c * x <= c * y
  {
  }

  /** The first fill emitted late by delay0 seconds, the next one due just after that at the given speed. */
  function LateStart(speed: real, delay0: real): Trace {
    Trace([0, (1000.0 * (speed * delay0)).Floor + 1], [speed, speed], 0.0, [delay0, 0.0], [0.0, 0.0])
  }

  /** At every speed, a start-up delay above one second does break the bound. */
  lemma LateStartBreaksBound(speed: real, delay0: real)
    requires speed > 0.0 && delay0 > 1.0
    ensures LateStart(speed, delay0).WellFormed() && ConstantSpeed(LateStart(speed, delay0), speed)
    ensures !PaceBound(LateStart(speed, delay0), speed, 0, 1)
  {
    hide Gap;
    var r := LateStart(speed, delay0);
    var n := r.ts[1];
    var gap := Gap(0, n, speed);
    assert n as real > 1000.0 * (speed * delay0);
    GapTimesSpeed(0, n, speed);
    assert speed * gap > speed * delay0;
    Cancel(speed, delay0, gap);
    assert TickAt(r, 0) == Tick(0.0, delay0);
    assert TickAt(r, 1) == Tick(gap, gap);
    Cancel(speed, gap - delay0 + 1.0, gap);
  }

  lemma Cancel(c: real, x: real, y: real)
    requires c > 0.0
    ensures c * x < c * y <==> x < y
  {
    assert c * y - c * x == c * (y - x);
  }

  /**
   At every speed, exactly when the bound holds from the first fill on, over all
   runs with a given start-up delay: when that delay is at most one second.
   */
  lemma StartupCondition(speed: real, delay0: real)
    requires speed > 0.0 && delay0 >= 0.0
    ensures delay0 <= 1.0 <==>
            forall r: Trace, j: nat ::
              r.WellFormed() && ConstantSpeed(r, speed) && j < |r.ts| && r.delay[0] == delay0 ==>
                PaceBound(r, speed, 0, j)
  {
    hide TickAt, PaceBound;
    if delay0 <= 1.0 {
      forall r: Trace, j: nat | r.WellFormed() && ConstantSpeed(r, speed) && j < |r.ts| && r.delay[0] == delay0
        ensures PaceBound(r, speed, 0, j)
      {
        PaceBoundHolds(r, speed, 0, j);
      }
    } else {
      LateStartBreaksBound(speed, delay0);
      assert LateStart(speed, delay0).delay[0] == delay0;
    }
  }

  // ---------- the replayer ----------

  /** The replayer emits a fill on arrival, or when its offset from the first one has passed. */
  ghost predicate OnSchedule(ts: seq<int>, speed: real, wallStart: real, delay: seq<real>, emits: seq<real>, k: nat)
    requires speed > 0.0 && k < |emits| <= |ts| == |delay|
  {
    var arrived := (if k == 0 then wallStart else emits[k - 1]) + delay[k];
    emits[k] == Max(arrived, wallStart + Gap(ts[0], ts[k], speed))
  }

  ghost predicate AllOnSchedule(ts: seq<int>, speed: real, wallStart: real, delay: seq<real>, emits: seq<real>) {
    && speed > 0.0 && |emits| == |ts| == |delay|
    && forall k :: 0 <= k < |emits| ==> OnSchedule(ts, speed, wallStart, delay, emits, k)
  }

  /** The replay loop at a positive speed. */
  method PaceReplay(ts: seq<int>, speed: real, wallStart: real, delay: seq<real>) returns (emits: seq<real>)
    requires speed > 0.0 && |delay| == |ts|
    requires forall k :: 0 <= k < |delay| ==> delay[k] >= 0.0
    ensures AllOnSchedule(ts, speed, wallStart, delay, emits)
  {
    hide Gap;
    emits := [];
    var clock := wallStart;
    var dataStart := 0;
    for k := 0 to |ts|
      invariant |emits| == k
      invariant k > 0 ==> dataStart == ts[0] && clock == emits[k - 1]
      invariant k == 0 ==> clock == wallStart
      invariant forall j :: 0 <= j < k ==> OnSchedule(ts, speed, wallStart, delay, emits, j)
    {
      if k == 0 {
        dataStart := ts[0];
      }
      var target := Gap(dataStart, ts[k], speed);
      clock := clock + delay[k];
      var now := clock - wallStart;
      if target > now {
        clock := clock + (target - now);
      }
      ghost var before := emits;
      emits := emits + [clock];
      forall j | 0 <= j < k ensures OnSchedule(ts, speed, wallStart, delay, emits, j) {
        assert OnSchedule(ts, speed, wallStart, delay, before, j);
      }
    }
  }

  /** The wall-clock moment at which fill k is due. */
  function SlotAt(ts: seq<int>, speed: real, wallStart: real, k: nat): real
    requires speed > 0.0 && k < |ts|
  {
    wallStart + Gap(ts[0], ts[k], speed)
  }

  /** The delays from index i up to and including k. */
  function Delays(delay: seq<real>, i: nat, k: nat): real
    requires k < |delay|
  {
    if k < i then 0.0 else if k == 0 then delay[0] else Delays(delay, i, k - 1) + delay[k]
  }

  /**
   Exactly how late the replayer runs: fill k is emitted at the latest moment,
   over all earlier fills i, of i's slot plus the delays since; or after all the
   delays from the start, if those leave it no slack at all.
   */
  lemma {:induction false} ReplayLateness(ts: seq<int>, speed: real, wallStart: real, delay: seq<real>,
                                          emits: seq<real>, k: nat)
    requires AllOnSchedule(ts, speed, wallStart, delay, emits) && k < |emits|
    ensures wallStart + Delays(delay, 0, k) <= emits[k]
    ensures forall i :: 0 <= i <= k ==> SlotAt(ts, speed, wallStart, i) + Delays(delay, i + 1, k) <= emits[k]
    ensures emits[k] == wallStart + Delays(delay, 0, k) ||
            exists i :: 0 <= i <= k && emits[k] == SlotAt(ts, speed, wallStart, i) + Delays(delay, i + 1, k)
  {
    hide Gap, SlotAt;
    assert OnSchedule(ts, speed, wallStart, delay, emits, k);
    var before := if k == 0 then wallStart else emits[k - 1];
    assert emits[k] == Max(before + delay[k], SlotAt(ts, speed, wallStart, k)) by {
      SlotMeans(ts, speed, wallStart, k);
    }
    if k > 0 {
      ReplayLateness(ts, speed, wallStart, delay, emits, k - 1);
      if emits[k] != SlotAt(ts, speed, wallStart, k) && emits[k - 1] != wallStart + Delays(delay, 0, k - 1) {
        var i :| 0 <= i <= k - 1 && emits[k - 1] == SlotAt(ts, speed, wallStart, i) + Delays(delay, i + 1, k - 1);
        assert emits[k] == SlotAt(ts, speed, wallStart, i) + Delays(delay, i + 1, k);
      }
    }
  }

  lemma SlotMeans(ts: seq<int>, speed: real, wallStart: real, k: nat)
    requires speed > 0.0 && k < |ts|
    ensures SlotAt(ts, speed, wallStart, k) == wallStart + Gap(ts[0], ts[k], speed)
  {
  }

  /** So, measured from its start, the replayer is never ahead of the data. */
  lemma ReplayNeverAhead(ts: seq<int>, speed: real, wallStart: real, delay: seq<real>, emits: seq<real>, k: nat)
    requires AllOnSchedule(ts, speed, wallStart, delay, emits) && k < |emits|
    ensures (ts[k] - ts[0]) as real / 1000.0 <= speed * (emits[k] - wallStart)
  {
    hide Gap, SlotAt, OnSchedule;
    ReplayAfterSlot(ts, speed, wallStart, delay, emits, k);
    SlotMeans(ts, speed, wallStart, k);
    GapTimesSpeed(ts[0], ts[k], speed);
    Scale(speed, Gap(ts[0], ts[k], speed), emits[k] - wallStart);
  }

  lemma ReplayAfterSlot(ts: seq<int>, speed: real, wallStart: real, delay: seq<real>, emits: seq<real>, k: nat)
    requires AllOnSchedule(ts, speed, wallStart, delay, emits) && k < |emits|
    ensures SlotAt(ts, speed, wallStart, k) <= emits[k]
  {
    hide Gap, SlotAt, OnSchedule;
    ReplayLateness(ts, speed, wallStart, delay, emits, k);
    assert Delays(delay, k + 1, k) == 0.0;
  }

  /** On a time-ordered stream it is behind its slot by no more than the delays since its start. */
  lemma ReplayLagIsDelays(ts: seq<int>, speed: real, wallStart: real, delay: seq<real>, emits: seq<real>, k: nat)
    requires AllOnSchedule(ts, speed, wallStart, delay, emits) && k < |emits|
    requires forall j :: 0 <= j < |delay| ==> delay[j] >= 0.0
    requires forall i :: 0 <= i <= k ==> ts[i] <= ts[k]
    ensures SlotAt(ts, speed, wallStart, k) <= emits[k] <= SlotAt(ts, speed, wallStart, k) + Delays(delay, 0, k)
  {
    hide Gap, SlotAt, OnSchedule, Delays;
    ReplayAfterSlot(ts, speed, wallStart, delay, emits, k);
    ReplayLateness(ts, speed, wallStart, delay, emits, k);
    SlotsInOrder(ts, speed, wallStart, 0, k);
    SlotOfFirst(ts, speed, wallStart);
    forall i | 0 <= i <= k
      ensures SlotAt(ts, speed, wallStart, i) + Delays(delay, i + 1, k) <=
              SlotAt(ts, speed, wallStart, k) + Delays(delay, 0, k)
    {
      SlotsInOrder(ts, speed, wallStart, i, k);
      FewerDelays(delay, i + 1, k);
    }
  }

  lemma SlotsInOrder(ts: seq<int>, speed: real, wallStart: real, i: nat, k: nat)
    requires speed > 0.0 && i < |ts| && k < |ts| && ts[i] <= ts[k]
    ensures SlotAt(ts, speed, wallStart, i) <= SlotAt(ts, speed, wallStart, k)
  {
    hide Gap;
    GapMonotone(ts[0], ts[i], ts[k], speed);
  }

  lemma SlotOfFirst(ts: seq<int>, speed: real, wallStart: real)
    requires speed > 0.0 && ts != []
    ensures SlotAt(ts, speed, wallStart, 0) == wallStart
  {
    hide Gap;
    NoGap(ts[0], speed);
  }

  lemma NoGap(t: int, speed: real)
    requires speed > 0.0
    ensures Gap(t, t, speed) == 0.0
  {
  }

  lemma GapMonotone(t0: int, t: int, u: int, speed: real)
    requires speed > 0.0 && t <= u
    ensures Gap(t0, t, speed) <= Gap(t0, u, speed)
  {
    hide Gap;
    GapTimesSpeed(t0, t, speed);
    GapTimesSpeed(t0, u, speed);
    Cancel(speed, Gap(t0, u, speed), Gap(t0, t, speed));
  }

  lemma {:induction false} FewerDelays(delay: seq<real>, i: nat, k: nat)
    requires k < |delay| && forall j :: 0 <= j < |delay| ==> delay[j] >= 0.0
    ensures 0.0 <= Delays(delay, i, k) <= Delays(delay, 0, k)
  {
    if k > 0 {
      FewerDelays(delay, i, k - 1);
    }
  }
}
