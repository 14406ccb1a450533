/**
 Whole runs of the timer: an arbitrary sequence of steps, each at an arbitrary
 clock stamp. A stopwatch that only remembers which spans of time it has
 credited is the reference; the timer record refines it.
 */
module TimerRuns {
  import opened Wrappers
  import opened JsonValues
  import opened ClockDomain
  import opened Timers

  datatype Event =
    | Start(seconds: real, freshId: Uuid)
    | Checkpoint
    | Pause(interrupted: bool)
    | Resume(resumeId: Uuid)
    | Restore
    | Expire

  datatype Tick = Tick(event: Event, now: ClockStamp)

  /** One step and whether its action fired; a step that raises leaves the record as it was. */
  function Step(t: TimerRecord, tick: Tick): (TimerRecord, bool) {
    match tick.event
    case Start(seconds, id) =>
      (match StartTimer(seconds, tick.now, id) case Success(started) => started case Failure(_) => t, false)
    case Checkpoint => (CheckpointTimer(t, tick.now), false)
    case Pause(interrupted) => (PauseTimer(t, tick.now, interrupted), false)
    case Resume(id) =>
      (match ResumeTimer(t, tick.now, id) case Success(resumed) => resumed case Failure(_) => t, false)
    case Restore => (RestoreRecord(t), false)
    case Expire => ExpireTimer(t, tick.now)
  }

  function Run(t: TimerRecord, ticks: seq<Tick>): TimerRecord
    decreases |ticks|
  {
    if ticks == [] then t else Run(Step(t, ticks[0]).0, ticks[1..])
  }

  /** Which steps of the run fired. */
  function FireSignals(t: TimerRecord, ticks: seq<Tick>): (fires: seq<bool>)
    ensures |fires| == |ticks|
    decreases |ticks|
  {
    if ticks == [] then [] else [Step(t, ticks[0]).1] + FireSignals(Step(t, ticks[0]).0, ticks[1..])
  }

  // ---------------------------------------------------------------- the reference stopwatch

  datatype Span = Span(from: ClockStamp, to: ClockStamp)

  function Total(spans: seq<Span>): real {
    if spans == [] then 0.0
    else Total(spans[..|spans| - 1]) + (spans[|spans| - 1].to.monotonic - spans[|spans| - 1].from.monotonic)
  }

  lemma {:induction false} TotalAppend(spans: seq<Span>, last: Span)
    ensures Total(spans + [last]) == Total(spans) + (last.to.monotonic - last.from.monotonic)
  {
    assert (spans + [last])[..|spans|] == spans;
  }

  datatype Phase = Off | Ticking(since: ClockStamp) | Held | Rung

  /** A duration and the spans credited against it since it was last started. */
  datatype Stopwatch = Stopwatch(phase: Phase, budget: real, spans: seq<Span>)

  const STOPPED_WATCH := Stopwatch(Off, 0.0, [])

  /** Take the watch to `phase`, crediting the open span when time provably passed; else hold without credit. */
  function Credit(w: Stopwatch, now: ClockStamp, phase: Phase): Stopwatch
    requires w.phase.Ticking?
  {
    if Continuous(w.phase.since, now) then w.(phase := phase, spans := w.spans + [Span(w.phase.since, now)])
    else w.(phase := Held)
  }

  function WatchStep(w: Stopwatch, tick: Tick): (Stopwatch, bool) {
    match tick.event
    case Start(seconds, _) =>
      (if seconds >= 0.0 && Known(tick.now) then Stopwatch(Ticking(tick.now), seconds, []) else w, false)
    case Checkpoint => (if w.phase.Ticking? then Credit(w, tick.now, Ticking(tick.now)) else w, false)
    case Pause(interrupted) =>
      (if !w.phase.Ticking? then w
       else if interrupted then w.(phase := Held)
       else Credit(w, tick.now, Held), false)
    case Resume(_) => (if w.phase.Held? && Known(tick.now) then w.(phase := Ticking(tick.now)) else w, false)
    case Restore => (if w.phase.Ticking? then w.(phase := Held) else w, false)
    case Expire =>
      if w.phase.Ticking? && Continuous(w.phase.since, tick.now) &&
         w.budget <= Total(w.spans + [Span(w.phase.since, tick.now)])
      then (Credit(w, tick.now, Rung), true)
      else (w, false)
  }

  function WatchRun(w: Stopwatch, ticks: seq<Tick>): Stopwatch
    decreases |ticks|
  {
    if ticks == [] then w else WatchRun(WatchStep(w, ticks[0]).0, ticks[1..])
  }

  /** Every credited span lies inside one generation and hides no long suspend. */
  ghost predicate Creditable(spans: seq<Span>) {
    forall i | 0 <= i < |spans| :: Continuous(spans[i].from, spans[i].to)
  }

  /** The record shows what the watch has left. */
  ghost predicate Shows(t: TimerRecord, w: Stopwatch) {
    && Creditable(w.spans)
    && (match w.phase
        case Off => t.state == Stopped
        case Ticking(since) => t.state == Running && t.checkpoint == Some(since)
        case Held => t.state == Paused || t.state == Interrupted
        case Rung => t.state == Expired && w.budget <= Total(w.spans))
    && (w.phase.Ticking? || w.phase.Held? ==> t.remaining == Some(Max(0.0, w.budget - Total(w.spans))))
    && Admissible(t)
  }

  /** While ticking, the record's remaining time at `now` is what the watch would have left after one more span. */
  lemma {:induction false} TickingRemaining(t: TimerRecord, w: Stopwatch, now: ClockStamp)
    requires Shows(t, w) && w.phase.Ticking?
    ensures RemainingSeconds(t, now) ==
            if Continuous(w.phase.since, now)
            then Some(Max(0.0, w.budget - Total(w.spans + [Span(w.phase.since, now)]))) else None
  {
    TotalAppend(w.spans, Span(w.phase.since, now));
    AgeMeaning(w.phase.since, now);
  }

  lemma {:induction false} StepRefines(t: TimerRecord, w: Stopwatch, tick: Tick)
    requires Shows(t, w)
    ensures Shows(Step(t, tick).0, WatchStep(w, tick).0)
    ensures Step(t, tick).1 == WatchStep(w, tick).1
  {
    match tick.event
    case Start(seconds, _) =>
      assert Total([]) == 0.0;
    case Checkpoint => CheckpointRefines(t, w, tick.now);
    case Pause(interrupted) => PauseRefines(t, w, tick.now, interrupted);
    case Resume(_) =>
    case Restore =>
    case Expire => ExpireRefines(t, w, tick.now);
  }

  lemma {:induction false} CreditKeepsCreditable(w: Stopwatch, now: ClockStamp)
    requires Creditable(w.spans) && w.phase.Ticking? && Continuous(w.phase.since, now)
    ensures Creditable(w.spans + [Span(w.phase.since, now)])
  {
  }

  lemma {:induction false} CheckpointRefines(t: TimerRecord, w: Stopwatch, now: ClockStamp)
    requires Shows(t, w)
    ensures Shows(CheckpointTimer(t, now), WatchStep(w, Tick(Checkpoint, now)).0)
  {
    if w.phase.Ticking? {
      TickingRemaining(t, w, now);
      if Continuous(w.phase.since, now) {
        CreditKeepsCreditable(w, now);
      }
    }
  }

  lemma {:induction false} PauseRefines(t: TimerRecord, w: Stopwatch, now: ClockStamp, interrupted: bool)
    requires Shows(t, w)
    ensures Shows(PauseTimer(t, now, interrupted), WatchStep(w, Tick(Pause(interrupted), now)).0)
  {
    if w.phase.Ticking? {
      TickingRemaining(t, w, now);
      if Continuous(w.phase.since, now) {
        CreditKeepsCreditable(w, now);
      }
    }
  }

  lemma {:induction false} ExpireRefines(t: TimerRecord, w: Stopwatch, now: ClockStamp)
    requires Shows(t, w)
    ensures Shows(ExpireTimer(t, now).0, WatchStep(w, Tick(Expire, now)).0)
    ensures ExpireTimer(t, now).1 == WatchStep(w, Tick(Expire, now)).1
  {
    if w.phase.Ticking? {
      TickingRemaining(t, w, now);
      if Continuous(w.phase.since, now) {
        CreditKeepsCreditable(w, now);
      }
    }
  }

  /** The timer is the stopwatch: over every run it shows what is left of the duration after the credited spans. */
  lemma {:induction false} RunRefines(t: TimerRecord, w: Stopwatch, ticks: seq<Tick>)
    requires Shows(t, w)
    ensures Shows(Run(t, ticks), WatchRun(w, ticks))
    decreases |ticks|
  {
    if ticks != [] {
      StepRefines(t, w, ticks[0]);
      RunRefines(Step(t, ticks[0]).0, WatchStep(w, ticks[0]).0, ticks[1..]);
    }
  }

  /**
   Conservation: after any run from a stopped timer, what remains is the duration
   last started minus the credited spans, each inside one generation and free of a
   long suspend; and the action fires only when those spans cover the duration.
   */
  lemma {:induction false} Conservation(ticks: seq<Tick>, now: ClockStamp)
    ensures var t, w := Run(DEFAULT_TIMER, ticks), WatchRun(STOPPED_WATCH, ticks);
            && Creditable(w.spans)
            && (t.state.Running? || t.state.Paused? || t.state.Interrupted? ==>
                  t.remaining == Some(Max(0.0, w.budget - Total(w.spans))))
            && (t.state.Expired? ==> w.budget <= Total(w.spans))
    ensures var t, w := Run(DEFAULT_TIMER, ticks), WatchRun(STOPPED_WATCH, ticks);
            ExpireTimer(t, now).1 <==>
            w.phase.Ticking? && Continuous(w.phase.since, now) &&
            w.budget <= Total(w.spans) + (now.monotonic - w.phase.since.monotonic)
  {
    assert Total([]) == 0.0;
    RunRefines(DEFAULT_TIMER, STOPPED_WATCH, ticks);
    ShownIsConserved(Run(DEFAULT_TIMER, ticks), WatchRun(STOPPED_WATCH, ticks), now);
  }

  lemma {:induction false} ShownIsConserved(t: TimerRecord, w: Stopwatch, now: ClockStamp)
    requires Shows(t, w)
    ensures Creditable(w.spans)
    ensures t.state.Running? || t.state.Paused? || t.state.Interrupted? ==>
              t.remaining == Some(Max(0.0, w.budget - Total(w.spans)))
    ensures t.state.Expired? ==> w.budget <= Total(w.spans)
    ensures ExpireTimer(t, now).1 <==>
            w.phase.Ticking? && Continuous(w.phase.since, now) &&
            w.budget <= Total(w.spans) + (now.monotonic - w.phase.since.monotonic)
  {
    StepRefines(t, w, Tick(Expire, now));
    if w.phase.Ticking? {
      TotalAppend(w.spans, Span(w.phase.since, now));
    }
  }

  // ---------------------------------------------------------------- no second is credited twice

  /** Within each generation the monotonic clock never steps back along the run. */
  ghost predicate ForwardClock(ticks: seq<Tick>) {
    forall i, j | 0 <= i < j < |ticks| ::
      SameGeneration(ticks[i].now, ticks[j].now) ==> ticks[i].now.monotonic <= ticks[j].now.monotonic
  }

  /** `a` ended before `b` began, or the two lie in different generations. */
  predicate Before(a: ClockStamp, b: ClockStamp) {
    SameGeneration(a, b) ==> a.monotonic <= b.monotonic
  }

  ghost predicate Disjoint(w: Stopwatch) {
    && (forall i, j | 0 <= i < j < |w.spans| :: Before(w.spans[i].to, w.spans[j].from))
    && (w.phase.Ticking? ==> forall i | 0 <= i < |w.spans| :: Before(w.spans[i].to, w.phase.since))
  }

  /** Every stamp the watch remembers lies before `now`. */
  ghost predicate Past(w: Stopwatch, now: ClockStamp) {
    && (forall i | 0 <= i < |w.spans| :: Before(w.spans[i].to, now))
    && (w.phase.Ticking? ==> Before(w.phase.since, now))
  }

  lemma {:induction false} WatchStepDisjoint(w: Stopwatch, tick: Tick, later: seq<Tick>)
    requires Disjoint(w) && Past(w, tick.now)
    requires forall j | 0 <= j < |later| :: Past(w, later[j].now) && Before(tick.now, later[j].now)
    ensures Disjoint(WatchStep(w, tick).0)
    ensures forall j | 0 <= j < |later| :: Past(WatchStep(w, tick).0, later[j].now)
  {
  }

  /** With a forward clock the credited spans of a run never overlap, so no second is consumed twice. */
  lemma {:induction false} SpansNeverOverlap(w: Stopwatch, ticks: seq<Tick>)
    requires ForwardClock(ticks) && Disjoint(w)
    requires forall j | 0 <= j < |ticks| :: Past(w, ticks[j].now)
    ensures Disjoint(WatchRun(w, ticks))
    decreases |ticks|
  {
    if ticks != [] {
      WatchStepDisjoint(w, ticks[0], ticks[1..]);
      SpansNeverOverlap(WatchStep(w, ticks[0]).0, ticks[1..]);
    }
  }

  // ---------------------------------------------------------------- firing

  function Count(flags: seq<bool>): nat {
    if flags == [] then 0 else (if flags[0] then 1 else 0) + Count(flags[1..])
  }

  /** Which steps armed the timer: a start or a resume that did not raise. */
  function Armings(t: TimerRecord, ticks: seq<Tick>): (arms: seq<bool>)
    ensures |arms| == |ticks|
    decreases |ticks|
  {
    if ticks == [] then []
    else
      var tick := ticks[0];
      var armed := match tick.event
        case Start(seconds, id) => StartTimer(seconds, tick.now, id).Success?
        case Resume(id) => ResumeTimer(t, tick.now, id).Success?
        case _ => false;
      [armed] + Armings(Step(t, tick).0, ticks[1..])
  }

  /** Over any run the action fires at most once per arming, and an armed timer still has one firing in hand. */
  lemma {:induction false} FiresAtMostOncePerArming(t: TimerRecord, ticks: seq<Tick>)
    requires Admissible(t)
    ensures Count(FireSignals(t, ticks)) + (if Run(t, ticks).armed then 1 else 0)
         <= Count(Armings(t, ticks)) + (if t.armed then 1 else 0)
    decreases |ticks|
  {
    if ticks != [] {
      FiresAtMostOncePerArming(Step(t, ticks[0]).0, ticks[1..]);
    }
  }

  // ---------------------------------------------------------------- wall time is a label

  function EraseStamp(s: ClockStamp): ClockStamp {
    s.(wall := 0.0)
  }

  /** The record without its wall labels. */
  function Erase(t: TimerRecord): TimerRecord {
    t.(checkpoint := if t.checkpoint.Some? then Some(EraseStamp(t.checkpoint.value)) else None,
    startedWall := None, pausedWall := None, projectedEndWall := None)
  }

  function EraseTicks(ticks: seq<Tick>): seq<Tick> {
    seq(|ticks|, i requires 0 <= i < |ticks| => ticks[i].(now := EraseStamp(ticks[i].now)))
  }

  lemma {:induction false} StepIgnoresWall(t: TimerRecord, u: TimerRecord, a: Tick, b: Tick)
    requires Admissible(t) && Admissible(u)
    requires Erase(t) == Erase(u) && a.(now := EraseStamp(a.now)) == b.(now := EraseStamp(b.now))
    ensures Admissible(Step(t, a).0) && Admissible(Step(u, b).0)
    ensures Erase(Step(t, a).0) == Erase(Step(u, b).0) && Step(t, a).1 == Step(u, b).1
  {
    ErasedFields(t, u);
    assert EraseStamp(a.now) == EraseStamp(b.now);
    RemainingIgnoresWall(t, u, a.now, b.now);
    match a.event
    case Start(seconds, id) => StartIgnoresWall(seconds, a.now, b.now, id);
    case Checkpoint => CheckpointIgnoresWall(t, u, a.now, b.now);
    case Pause(_) =>
    case Resume(id) =>
      if t.remaining.Some? {
        StartIgnoresWall(t.remaining.value, a.now, b.now, id);
      }
    case Restore =>
    case Expire =>
  }

  lemma {:induction false} ErasedFields(t: TimerRecord, u: TimerRecord)
    requires Erase(t) == Erase(u)
    ensures t.timerId == u.timerId && t.state == u.state && t.remaining == u.remaining && t.armed == u.armed
    ensures t.checkpoint.Some? <==> u.checkpoint.Some?
    ensures t.checkpoint.Some? ==> EraseStamp(t.checkpoint.value) == EraseStamp(u.checkpoint.value)
  {
    assert Erase(t).checkpoint == Erase(u).checkpoint;
  }

  lemma {:induction false} RemainingIgnoresWall(t: TimerRecord, u: TimerRecord, a: ClockStamp, b: ClockStamp)
    requires Erase(t) == Erase(u) && EraseStamp(a) == EraseStamp(b)
    ensures RemainingSeconds(t, a) == RemainingSeconds(u, b)
  {
    ErasedFields(t, u);
  }

  lemma {:induction false} StartIgnoresWall(seconds: real, a: ClockStamp, b: ClockStamp, id: Uuid)
    requires EraseStamp(a) == EraseStamp(b)
    ensures match (StartTimer(seconds, a, id), StartTimer(seconds, b, id))
            case (Success(t), Success(u)) => Erase(t) == Erase(u) && Admissible(t) && Admissible(u)
            case (Failure(e), Failure(f)) => e == f
            case (_, _) => false
  {
  }

  lemma {:induction false} CheckpointIgnoresWall(t: TimerRecord, u: TimerRecord, a: ClockStamp, b: ClockStamp)
    requires Admissible(t) && Admissible(u) && Erase(t) == Erase(u) && EraseStamp(a) == EraseStamp(b)
    ensures Admissible(CheckpointTimer(t, a)) && Admissible(CheckpointTimer(u, b))
    ensures Erase(CheckpointTimer(t, a)) == Erase(CheckpointTimer(u, b))
  {
    ErasedFields(t, u);
    RemainingIgnoresWall(t, u, a, b);
  }

  /** Two runs whose stamps differ only in wall time agree on every record up to labels, and on every firing. */
  lemma {:induction false} WallTimeIsALabel(t: TimerRecord, u: TimerRecord, a: seq<Tick>, b: seq<Tick>)
    requires Admissible(t) && Admissible(u) && Erase(t) == Erase(u)
    requires EraseTicks(a) == EraseTicks(b)
    ensures Erase(Run(t, a)) == Erase(Run(u, b))
    ensures FireSignals(t, a) == FireSignals(u, b)
    decreases |a|
  {
    assert |a| == |EraseTicks(a)| == |b|;
    if a != [] {
      assert EraseTicks(a)[0] == EraseTicks(b)[0];
      StepIgnoresWall(t, u, a[0], b[0]);
      forall i | 0 <= i < |a| - 1
        ensures EraseTicks(a[1..])[i] == EraseTicks(b[1..])[i]
      {
        assert EraseTicks(a[1..])[i] == EraseTicks(a)[i + 1] == EraseTicks(b)[i + 1];
      }
      assert EraseTicks(a[1..]) == EraseTicks(b[1..]);
      WallTimeIsALabel(Step(t, a[0]).0, Step(u, b[0]).0, a[1..], b[1..]);
    }
  }

  // ---------------------------------------------------------------- checkpoints are transparent

  function Checkpoints(stamps: seq<ClockStamp>): seq<Tick> {
    seq(|stamps|, i requires 0 <= i < |stamps| => Tick(Checkpoint, stamps[i]))
  }

  /** Stamps of one generation, in order, with nondecreasing monotonic time and suspend offset. */
  ghost predicate Steady(from: ClockStamp, stamps: seq<ClockStamp>, last: ClockStamp)
    decreases |stamps|
  {
    var next := if stamps == [] then last else stamps[0];
    && SameGeneration(from, next)
    && from.monotonic <= next.monotonic
    && from.suspendOffset.value <= next.suspendOffset.value <= from.suspendOffset.value + CONTROL_DISCONTINUITY_SECONDS
    && (stamps != [] ==> Steady(stamps[0], stamps[1..], last))
  }

  /** Checkpointing at each of a steady run of stamps loses nothing and gains nothing. */
  lemma {:induction false} CheckpointsKeepTime(t: TimerRecord, stamps: seq<ClockStamp>, last: ClockStamp)
    requires Admissible(t) && t.state.Running? && Steady(t.checkpoint.value, stamps, last)
    ensures var checked := Run(t, Checkpoints(stamps));
            && checked.state.Running? && checked.armed
            && RemainingSeconds(checked, last) ==
               Some(Max(0.0, t.remaining.value - (last.monotonic - t.checkpoint.value.monotonic)))
    decreases |stamps|
  {
    if stamps != [] {
      AgeMeaning(t.checkpoint.value, stamps[0]);
      var next := CheckpointTimer(t, stamps[0]);
      assert Checkpoints(stamps)[0] == Tick(Checkpoint, stamps[0]);
      assert Checkpoints(stamps)[1..] == Checkpoints(stamps[1..]);
      SteadyOrder(stamps[0], stamps[1..], last);
      CheckpointsKeepTime(next, stamps[1..], last);
    } else {
      AgeMeaning(t.checkpoint.value, last);
    }
  }

  lemma {:induction false} SteadyOrder(from: ClockStamp, stamps: seq<ClockStamp>, last: ClockStamp)
    requires Steady(from, stamps, last)
    ensures SameGeneration(from, last) && from.monotonic <= last.monotonic
    ensures from.suspendOffset.value <= last.suspendOffset.value
    decreases |stamps|
  {
    if stamps != [] {
      SteadyOrder(stamps[0], stamps[1..], last);
    }
  }

  /**
   A later reading sees no difference between a checkpointed timer and one left
   alone exactly when the direct age is still known; otherwise only the
   checkpointed timer still has an answer.
   */
  lemma {:induction false} CheckpointsAreTransparent(t: TimerRecord, stamps: seq<ClockStamp>, last: ClockStamp)
    requires Admissible(t) && t.state.Running? && Steady(t.checkpoint.value, stamps, last)
    ensures var checked, from := Run(t, Checkpoints(stamps)), t.checkpoint.value;
            && Known(from) && Known(last)
            && (RemainingSeconds(checked, last) == RemainingSeconds(t, last) <==>
                last.suspendOffset.value - from.suspendOffset.value <= CONTROL_DISCONTINUITY_SECONDS)
    ensures var checked := Run(t, Checkpoints(stamps));
            AgeAt(t.checkpoint.value, last).Some? ==> ExpireTimer(checked, last).1 == ExpireTimer(t, last).1
  {
    CheckpointsKeepTime(t, stamps, last);
    SteadyOrder(t.checkpoint.value, stamps, last);
    AgeMeaning(t.checkpoint.value, last);
  }

  predicate Follows(a: ClockStamp, b: ClockStamp) {
    SameGeneration(a, b) && a.monotonic <= b.monotonic && a.suspendOffset.value <= b.suspendOffset.value
  }

  /** The steadiness assumption comes for free when the direct age is known and the clocks only move forward. */
  lemma {:induction false} KnownAgeIsSteady(from: ClockStamp, stamps: seq<ClockStamp>, last: ClockStamp)
    requires AgeAt(from, last).Some?
    requires forall i | 0 <= i < |stamps| :: Follows(from, stamps[i]) && Follows(stamps[i], last)
    requires forall i, j | 0 <= i < j < |stamps| :: Follows(stamps[i], stamps[j])
    requires Follows(from, last)
    ensures Steady(from, stamps, last)
    decreases |stamps|
  {
    if stamps != [] {
      KnownAgeIsSteady(stamps[0], stamps[1..], last);
    }
  }
}
