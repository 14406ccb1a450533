/**
 Which operations of a list can have their turn, that is, for which some state
 exists from which all operations before them are accepted. The list alone shows
 it: a start with options never follows a pause of a timer that the list started.
 */
module ControlTurns {
  import opened Wrappers
  import opened JsonValues
  import opened JsonTrees
  import opened ClockDomain
  import opened Timers
  import opened ControlDeltas
  import opened ControlFootprints
  import opened ControlEnvelopes
  import opened ControlFailures
  import opened ControlMeanings

  /** From some state the operations before `i` are all accepted. */
  ghost predicate TurnCanCome(ops: seq<Op>, i: nat)
    requires i < |ops|
  {
    exists c, now, ids :: RunPrims(Performs(ops, ids)[..i], c, now).Done?
  }

  /** What a list of operations makes of the timer: nothing known, started, or started and paused. */
  datatype Stage = Idle | Counting | Holding

  function Advance(stage: Stage, op: Op): Stage {
    match op
    case TimerClear(_) => Idle
    case TimerPause(_) => if stage.Counting? then Holding else stage
    case TimerStartOrResume(_, _) => Counting
    case TimerStartWithOptions(_, _, _, _) => Counting
    case _ => stage
  }

  function StageAfter(ops: seq<Op>): Stage {
    if ops == [] then Idle else Advance(StageAfter(ops[..|ops| - 1]), ops[|ops| - 1])
  }

  /** No start with options follows a pause of a timer that the list itself started. */
  predicate NoHeldStart(ops: seq<Op>) {
    ops == [] ||
    (NoHeldStart(ops[..|ops| - 1]) &&
     !(ops[|ops| - 1].TimerStartWithOptions? && StageAfter(ops[..|ops| - 1]).Holding?))
  }

  // ---------------------------------------------------------------- what every accepted list shows

  /** The record is what the stage says, whatever it was before the list. */
  predicate Shows(stage: Stage, t: Option<TimerRecord>, now: ClockStamp) {
    match stage
    case Idle => true
    case Counting => t.Some? && t.value.state.Running? && t.value.checkpoint == Some(now) &&
                     t.value.remaining.Some? && Known(now)
    case Holding => t.Some? && t.value.state.Paused? && t.value.remaining.Some? && Known(now)
  }

  lemma {:induction false} TimerShowsStage(
    stage: Stage, t: Option<TimerRecord>, op: Op, now: ClockStamp, freshId: Uuid)
    requires op.IsTimer() && ValidOp(op) && Shows(stage, t, now) && !BlockedBy(t, op, now)
    requires t.Some? ==> Admissible(t.value)
    ensures !(op.TimerStartWithOptions? && stage.Holding?)
    ensures Shows(Advance(stage, op), Some(Next(t, op, now, freshId)), now)
    ensures stage.Idle? && t.Some? && t.value.state.Stopped? && Advance(stage, op).Idle? ==>
              Next(t, op, now, freshId).state.Stopped?
  {
    AgeMeaning(now, now);
  }

  lemma {:induction false} CurrentIsAdmissible(c: Dict)
    ensures Current(c).Some? ==> Admissible(Current(c).value)
  {
    if Current(c).Some? {
      ParseTimerAdmits(c["timer"]);
    }
  }

  /** Operations on other members leave the record alone, and are accepted where the notify list is one. */
  lemma {:induction false} OthersKeepTimer(c: Dict, op: Op, now: ClockStamp, freshId: Uuid)
    requires !op.IsTimer()
    ensures StoredTimer(ApplyOp(c, op, now, freshId).control) == StoredTimer(c)
    ensures Listed(c) ==> ApplyOp(c, op, now, freshId).Done? && Listed(ApplyOp(c, op, now, freshId).control)
  {
    var p := PerformOp(op, freshId);
    StepIsLocal(p, c, c, now);
    assert "timer" !in Keys(p);
  }

  lemma {:induction false} AcceptedShowsStage(ops: seq<Op>, c: Dict, now: ClockStamp, ids: nat -> Uuid)
    requires ValidOps(ops) && RunPrims(Performs(ops, ids), c, now).Done?
    ensures NoHeldStart(ops)
    ensures Shows(StageAfter(ops), Current(RunPrims(Performs(ops, ids), c, now).control), now)
    decreases |ops|
  {
    if ops != [] {
      var n := |ops| - 1;
      var op := ops[n];
      assert ops[..n + 1] == ops;
      PrefixRun(ops, n, c, now, ids);
      AcceptedShowsStage(ops[..n], c, now, ids);
      var before := RunPrims(Performs(ops[..n], ids), c, now).control;
      if op.IsTimer() {
        TimerOpRaises(before, op, now, ids(n));
        TimerOpIsStep(before, op, now, ids(n));
        CurrentIsAdmissible(before);
        TimerShowsStage(StageAfter(ops[..n]), Current(before), op, now, ids(n));
      } else {
        OthersKeepTimer(before, op, now, ids(n));
      }
    }
  }

  // ---------------------------------------------------------------- a state from which they are accepted

  /** The notify list is absent or a list. */
  predicate Listed(c: Dict) {
    "notify_data" in c ==> c["notify_data"].Arr?
  }

  const STOPPED_CONTROL: Dict := map["timer" := EncodeTimer(DEFAULT_TIMER)]

  const KNOWN_STAMP := ClockStamp(Some(NIL_UUID), NIL_UUID, 0.0, 0.0, Some(0.0))

  function NilIds(n: nat): Uuid {
    NIL_UUID
  }

  function FromStopped(ops: seq<Op>): Applied {
    RunPrims(Performs(ops, NilIds), STOPPED_CONTROL, KNOWN_STAMP)
  }

  /** A stopped timer that only the list can have started or paused is never interrupted. */
  predicate Meets(stage: Stage, c: Dict) {
    && Listed(c) && Current(c).Some? && Shows(stage, Current(c), KNOWN_STAMP)
    && (stage.Idle? ==> Current(c).value.state.Stopped?)
  }

  lemma {:induction false} StoppedAccepts(ops: seq<Op>)
    requires ValidOps(ops) && NoHeldStart(ops)
    ensures FromStopped(ops).Done? && Meets(StageAfter(ops), FromStopped(ops).control)
    decreases |ops|
  {
    if ops == [] {
      ParseTimerRoundTrip(DEFAULT_TIMER);
    } else {
      var n := |ops| - 1;
      assert ops[..n + 1] == ops;
      PrefixRun(ops, n, STOPPED_CONTROL, KNOWN_STAMP, NilIds);
      StoppedAccepts(ops[..n]);
      OneAccepted(StageAfter(ops[..n]), FromStopped(ops[..n]).control, ops[n]);
    }
  }

  lemma {:induction false} OneAccepted(stage: Stage, c: Dict, op: Op)
    requires ValidOp(op) && Meets(stage, c) && !(op.TimerStartWithOptions? && stage.Holding?)
    ensures ApplyOp(c, op, KNOWN_STAMP, NIL_UUID).Done?
    ensures Meets(Advance(stage, op), ApplyOp(c, op, KNOWN_STAMP, NIL_UUID).control)
  {
    if op.IsTimer() {
      TimerOpRaises(c, op, KNOWN_STAMP, NIL_UUID);
      TimerOpIsStep(c, op, KNOWN_STAMP, NIL_UUID);
      CurrentIsAdmissible(c);
      TimerShowsStage(stage, Current(c), op, KNOWN_STAMP, NIL_UUID);
      StepIsLocal(PerformOp(op, NIL_UUID), c, c, KNOWN_STAMP);
    } else {
      OthersKeepTimer(c, op, KNOWN_STAMP, NIL_UUID);
    }
  }

  // ---------------------------------------------------------------- the condition on the list

  lemma {:induction false} PrefixPerforms(ops: seq<Op>, i: nat, ids: nat -> Uuid)
    requires i <= |ops|
    ensures Performs(ops, ids)[..i] == Performs(ops[..i], ids)
  {
  }

  /**
   Of valid operations one can have its turn exactly when no start with options
   before it follows a pause of a timer that the list itself started.
   */
  lemma {:induction false} TurnComesExactly(ops: seq<Op>, i: nat)
    requires i < |ops| && ValidOps(ops)
    ensures TurnCanCome(ops, i) <==> NoHeldStart(ops[..i])
  {
    if TurnCanCome(ops, i) {
      var c, now, ids :| RunPrims(Performs(ops, ids)[..i], c, now).Done?;
      PrefixPerforms(ops, i, ids);
      AcceptedShowsStage(ops[..i], c, now, ids);
    }
    if NoHeldStart(ops[..i]) {
      PrefixPerforms(ops, i, NilIds);
      StoppedAccepts(ops[..i]);
      assert RunPrims(Performs(ops, NilIds)[..i], STOPPED_CONTROL, KNOWN_STAMP).Done?;
    }
  }
}
