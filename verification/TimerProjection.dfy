/**
 The one public view of the timer, computed by reader processes from the
 durable record, the controller's heartbeat and the reader's own clock stamp.
 */
module TimerProjection {
  import opened Wrappers
  import opened JsonValues
  import opened ClockDomain
  import opened Timers

  const DURATION_STALE_AFTER_S: real := 15.0

  datatype TimerPayload = TimerPayload(
    timerId: Option<Uuid>,
    state: TimerState,
    remaining: Option<real>,
    current: bool,
    startedWall: Option<real>,
    projectedEndWall: Option<real>,
    keepWarm: bool,
    shutdown: bool)

  function ProjectTimerStatus(
    timerData: Json, keepWarm: bool, shutdown: bool, current: Option<ClockStamp>, heartbeat: Option<ClockStamp>)
    : TimerPayload
  {
    match ParseTimer(timerData)
    case Failure(_) => TimerPayload(None, Interrupted, None, false, None, None, keepWarm, shutdown)
    case Success(t) =>
      var age := QualifiedStampAge(t.checkpoint, heartbeat, current, DURATION_STALE_AFTER_S);
      var isCurrent := age.Some? && age.value <= DURATION_STALE_AFTER_S;
      var remaining := if t.state.Running? && isCurrent && t.remaining.Some?
                       then Some(Max(0.0, t.remaining.value - age.value)) else t.remaining;
      TimerPayload(
        Some(t.timerId), t.state, remaining, isCurrent, t.startedWall, t.projectedEndWall, keepWarm, shutdown)
  }

  /** The projection of a durable record, as a reader with no options sees it. */
  function View(t: TimerRecord, current: ClockStamp, heartbeat: ClockStamp): TimerPayload
    requires Admissible(t)
  {
    ProjectTimerStatus(EncodeTimer(t), false, false, Some(current), Some(heartbeat))
  }

  /** When a view is current: the heartbeat and the checkpoint are both fresh at the controller's own stamp. */
  predicate FreshFor(t: TimerRecord, current: ClockStamp, heartbeat: ClockStamp) {
    var own := ControllerStamp(current, heartbeat);
    && t.state.Running? && t.checkpoint.Some?
    && Continuous(heartbeat, own) && own.monotonic - heartbeat.monotonic <= 15.0
    && Continuous(t.checkpoint.value, own) && own.monotonic - t.checkpoint.value.monotonic <= 15.0
  }

  /**
   The projection agrees with the authority. A current view shows exactly the
   remaining time the controller would compute at the same instant, and shows
   zero exactly when the action would fire there. Any other view is the last
   checkpoint, which no known true remaining time exceeds.
   */
  lemma {:induction false} ProjectionAgrees(t: TimerRecord, current: ClockStamp, heartbeat: ClockStamp)
    requires Admissible(t)
    ensures View(t, current, heartbeat).current <==> FreshFor(t, current, heartbeat)
    ensures View(t, current, heartbeat).current ==>
              var own := ControllerStamp(current, heartbeat);
              && View(t, current, heartbeat).remaining == RemainingSeconds(t, own)
              && (View(t, current, heartbeat).remaining == Some(0.0) <==> ExpireTimer(t, own).1)
    ensures !View(t, current, heartbeat).current ==>
              && View(t, current, heartbeat).remaining == t.remaining
              && forall now :: RemainingSeconds(t, now).Some? ==>
                   t.remaining.Some? && RemainingSeconds(t, now).value <= t.remaining.value
  {
    ParseTimerRoundTrip(t);
    if t.checkpoint.Some? {
      QualifiedAgeMeaning(t.checkpoint.value, heartbeat, current, DURATION_STALE_AFTER_S);
      AgeMeaning(t.checkpoint.value, ControllerStamp(current, heartbeat));
    }
  }

  /**
   Between two current views of one record the shown time falls by exactly the
   monotonic time between them, down to zero.
   */
  lemma {:induction false} CurrentViewsCountDown(
    t: TimerRecord, first: ClockStamp, firstBeat: ClockStamp, second: ClockStamp, secondBeat: ClockStamp)
    requires Admissible(t) && first.monotonic <= second.monotonic
    requires View(t, first, firstBeat).current && View(t, second, secondBeat).current
    ensures var shown, later := View(t, first, firstBeat).remaining, View(t, second, secondBeat).remaining;
            && shown.Some? && later.Some?
            && later.value == Max(0.0, shown.value - (second.monotonic - first.monotonic))
            && later.value <= shown.value
  {
    ProjectionAgrees(t, first, firstBeat);
    ProjectionAgrees(t, second, secondBeat);
    AgeMeaning(t.checkpoint.value, ControllerStamp(first, firstBeat));
    AgeMeaning(t.checkpoint.value, ControllerStamp(second, secondBeat));
  }

  /** Whatever its age, a view names the record it shows, its state and labels, and the options as they are set. */
  lemma {:induction false} ViewShowsRecord(
    timerData: Json, keepWarm: bool, shutdown: bool, current: Option<ClockStamp>, heartbeat: Option<ClockStamp>)
    ensures var p := ProjectTimerStatus(timerData, keepWarm, shutdown, current, heartbeat);
            && p.keepWarm == keepWarm && p.shutdown == shutdown
            && match ParseTimer(timerData)
               case Success(t) =>
                 && p.timerId == Some(t.timerId) && p.state == t.state
                 && p.startedWall == t.startedWall && p.projectedEndWall == t.projectedEndWall
                 && (current.None? || heartbeat.None? ==> !p.current && p.remaining == t.remaining)
               case Failure(_) =>
                 && p.timerId == None && p.state == Interrupted && p.remaining == None && !p.current
                 && p.startedWall == None && p.projectedEndWall == None
  {
  }

  /** An unreadable record is shown as interrupted, with nothing known and nothing current. */
  lemma {:induction false} UnreadableIsNeverCurrent(
    timerData: Json, keepWarm: bool, shutdown: bool, current: Option<ClockStamp>, heartbeat: Option<ClockStamp>)
    ensures var p := ProjectTimerStatus(timerData, keepWarm, shutdown, current, heartbeat);
            && (p.current ==> ParseTimer(timerData).Success? && p.state.Running? && p.remaining.Some?)
            && (p.timerId.None? <==> ParseTimer(timerData).Failure?)
  {
    if ParseTimer(timerData).Success? {
      ParseTimerAdmits(timerData);
    }
  }
}
