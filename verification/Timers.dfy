/**
 The duration timer: a five-state record whose remaining time only the
 controller's monotonic clock may consume. Each step returns a new record;
 `uuid4()` is a parameter, and an exception is a `Failure`.
 */
module Timers {
  import opened Wrappers
  import opened JsonValues
  import opened ClockDomain

  const TIMER_SCHEMA_VERSION: int := 2

  datatype TimerState = Stopped | Running | Paused | Interrupted | Expired

  datatype TimerRecord = TimerRecord(
    timerId: Uuid,
    state: TimerState,
    remaining: Option<real>,
    checkpoint: Option<ClockStamp>,
    startedWall: Option<real>,
    pausedWall: Option<real>,
    projectedEndWall: Option<real>,
    armed: bool)

  datatype TimerError =
    | WrongFields | UnsupportedSchema | InvalidIdentity | InvalidState | InvalidRemaining | InvalidCheckpoint
    | ArmedButNotRunning | RunningIncomplete | TerminalWithTime | CheckpointWhileIdle | InvalidWall
    | InvalidDuration | UnknownClock | NotResumable

  const DEFAULT_TIMER := TimerRecord(NIL_UUID, Stopped, Some(0.0), None, None, None, None, false)

  /** What a durable record must satisfy. */
  predicate Admissible(t: TimerRecord) {
    && (t.remaining.Some? ==> t.remaining.value >= 0.0)
    && (t.armed <==> t.state.Running?)
    && (t.checkpoint.Some? <==> t.state.Running?)
    && (t.state.Running? ==> t.remaining.Some?)
    && (t.state.Stopped? || t.state.Expired? ==> t.remaining == Some(0.0))
  }

  // ---------------------------------------------------------------- durable records

  function StateName(s: TimerState): string {
    match s
    case Stopped => "stopped"
    case Running => "running"
    case Paused => "paused"
    case Interrupted => "interrupted"
    case Expired => "expired"
  }

  function StateOf(value: Json): Option<TimerState> {
    if value == Str("stopped") then Some(Stopped)
    else if value == Str("running") then Some(Running)
    else if value == Str("paused") then Some(Paused)
    else if value == Str("interrupted") then Some(Interrupted)
    else if value == Str("expired") then Some(Expired)
    else None
  }

  function EncodeReal(r: Option<real>): Json {
    if r.Some? then Real(r.value) else Null
  }

  function DecodeReal(value: Json): Option<real>
    requires value.Null? || value.IsNumber()
  {
    if value.Null? then None else Some(value.Numeric())
  }

  const TIMER_FIELDS := {"schema_version", "timer_id", "state", "remaining_s", "checkpoint",
                         "started_wall_s", "paused_wall_s", "projected_end_wall_s", "action_armed"}

  function EncodeTimer(t: TimerRecord): Json {
    Obj(map[
      "schema_version" := Int(TIMER_SCHEMA_VERSION),
      "timer_id" := Str(t.timerId),
      "state" := Str(StateName(t.state)),
      "remaining_s" := EncodeReal(t.remaining),
      "checkpoint" := if t.checkpoint.Some? then EncodeStamp(t.checkpoint.value) else Null,
      "started_wall_s" := EncodeReal(t.startedWall),
      "paused_wall_s" := EncodeReal(t.pausedWall),
      "projected_end_wall_s" := EncodeReal(t.projectedEndWall),
      "action_armed" := Bool(t.armed)
    ])
  }

  predicate Wall(value: Json) {
    value.Null? || value.IsNumber()
  }

  /** `parse_timer`: strict admission of current records. */
  function ParseTimer(value: Json): Result<TimerRecord, TimerError> {
    if !value.Obj? || value.members.Keys != TIMER_FIELDS then Failure(WrongFields)
    else
      var d := value.members;
      var identity, state, remaining := d["timer_id"], StateOf(d["state"]), d["remaining_s"];
      var checkpoint, armed := ParseStamp(d["checkpoint"]), d["action_armed"];
      if d["schema_version"] != Int(TIMER_SCHEMA_VERSION) then Failure(UnsupportedSchema)
      else if !(identity.Str? && CanonicalUuid(identity.text)) then Failure(InvalidIdentity)
      else if state.None? then Failure(InvalidState)
      else if !remaining.Null? && !(remaining.IsNumber() && remaining.Numeric() >= 0.0) then Failure(InvalidRemaining)
      else if !d["checkpoint"].Null? && checkpoint.None? then Failure(InvalidCheckpoint)
      else if !armed.Bool? || (armed.flag && !state.value.Running?) then Failure(ArmedButNotRunning)
      else if state.value.Running? && (checkpoint.None? || remaining.Null? || !armed.flag) then
        Failure(RunningIncomplete)
      else if (state.value.Stopped? || state.value.Expired?) && (remaining.Null? || remaining.Numeric() != 0.0) then
        Failure(TerminalWithTime)
      else if !state.value.Running? && checkpoint.Some? then Failure(CheckpointWhileIdle)
      else if !Wall(d["started_wall_s"]) || !Wall(d["paused_wall_s"]) || !Wall(d["projected_end_wall_s"]) then
        Failure(InvalidWall)
      else
        Success(TimerRecord(
                  identity.text, state.value, DecodeReal(remaining), checkpoint,
                  DecodeReal(d["started_wall_s"]), DecodeReal(d["paused_wall_s"]),
                  DecodeReal(d["projected_end_wall_s"]), armed.flag))
  }

  /** The parser accepts exactly the admissible records, and gives each back unchanged. */
  lemma {:induction false} ParseTimerRoundTrip(t: TimerRecord)
    ensures ParseTimer(EncodeTimer(t)).Success? <==> Admissible(t)
    ensures Admissible(t) ==> ParseTimer(EncodeTimer(t)) == Success(t)
  {
    EncodedFields(t);
    if t.checkpoint.Some? {
      StampRoundTrip(t.checkpoint.value);
    }
  }

  lemma {:induction false} EncodedFields(t: TimerRecord)
    ensures EncodeTimer(t).members.Keys == TIMER_FIELDS
  {
  }

  /** Whatever JSON the parser admits, its record is admissible: writing it back and parsing again changes nothing. */
  lemma {:induction false} ParseTimerAdmits(value: Json)
    requires ParseTimer(value).Success?
    ensures Admissible(ParseTimer(value).value)
    ensures ParseTimer(EncodeTimer(ParseTimer(value).value)) == ParseTimer(value)
  {
    var t := ParseTimer(value).value;
    assert ParseStamp(Null) == None;
    ParseTimerRoundTrip(t);
  }

  /** A dictionary that says what a timer record says, in exactly its nine fields. */
  predicate SpellsTimer(value: Json, t: TimerRecord) {
    && value.Obj?
    && var d := value.members;
    && d.Keys == {"schema_version", "timer_id", "state", "remaining_s", "checkpoint",
                  "started_wall_s", "paused_wall_s", "projected_end_wall_s", "action_armed"}
    && d["schema_version"] == Int(2) && d["timer_id"] == Str(t.timerId) && d["action_armed"] == Bool(t.armed)
    && d["state"] == Str(match t.state
                         case Stopped => "stopped"
                         case Running => "running"
                         case Paused => "paused"
                         case Interrupted => "interrupted"
                         case Expired => "expired")
    && SpellsOption(d["remaining_s"], t.remaining)
    && (if t.checkpoint.Some? then SpellsStamp(d["checkpoint"], t.checkpoint.value) else d["checkpoint"] == Null)
    && SpellsOption(d["started_wall_s"], t.startedWall) && SpellsOption(d["paused_wall_s"], t.pausedWall)
    && SpellsOption(d["projected_end_wall_s"], t.projectedEndWall)
  }

  lemma {:induction false} DecodeRealExactly(value: Json, r: Option<real>)
    requires Wall(value)
    ensures DecodeReal(value) == r <==> SpellsOption(value, r)
  {
  }

  /** Parsing takes exactly the dictionaries that spell an admissible record, and gives that record. */
  lemma {:induction false} ParseTimerExactly(value: Json, t: TimerRecord)
    ensures ParseTimer(value) == Success(t) <==> SpellsTimer(value, t) && Admissible(t)
  {
    if value.Obj? && value.members.Keys == TIMER_FIELDS {
      var m := value.members;
      forall k, r | k in m && Wall(m[k]) ensures DecodeReal(m[k]) == r <==> SpellsOption(m[k], r) {
        DecodeRealExactly(m[k], r);
      }
      forall s ensures ParseStamp(m["checkpoint"]) == Some(s) <==> SpellsStamp(m["checkpoint"], s) {
        ParseStampExactly(m["checkpoint"], s);
      }
    }
  }

  // ---------------------------------------------------------------- steps

  function Max(a: real, b: real): real {
    if a < b then b else a
  }

  function RemainingSeconds(t: TimerRecord, now: ClockStamp): Option<real> {
    if t.state.Stopped? || t.state.Expired? then Some(0.0)
    else if !t.state.Running? then t.remaining
    else if t.checkpoint.None? || t.remaining.None? then None
    else
      var age := AgeAt(t.checkpoint.value, now);
      if age.None? then None else Some(Max(0.0, t.remaining.value - age.value))
  }

  function StartTimer(seconds: real, now: ClockStamp, freshId: Uuid): Result<TimerRecord, TimerError> {
    if seconds < 0.0 then Failure(InvalidDuration)
    else if AgeAt(now, now).None? then Failure(UnknownClock)
    else
      Success(DEFAULT_TIMER.(
              timerId := freshId,
              state := Running,
              remaining := Some(seconds),
              checkpoint := Some(now),
              startedWall := Some(now.wall),
              projectedEndWall := Some(now.wall + seconds),
              armed := true))
  }

  function PauseTimer(t: TimerRecord, now: ClockStamp, interrupted: bool): TimerRecord {
    if !t.state.Running? then t
    else
      var known := if interrupted then t.remaining else RemainingSeconds(t, now);
      t.(state := if interrupted || known.None? then Interrupted else Paused,
      remaining := if known.None? then t.remaining else known,
      checkpoint := None,
      pausedWall := Some(now.wall),
      armed := false)
  }

  function ResumeTimer(t: TimerRecord, now: ClockStamp, freshId: Uuid): Result<TimerRecord, TimerError> {
    if !(t.state.Paused? || t.state.Interrupted?) || t.remaining.None? then Failure(NotResumable)
    else
      match StartTimer(t.remaining.value, now, freshId)
      case Success(started) => Success(started.(timerId := t.timerId, startedWall := t.startedWall))
      case Failure(error) => Failure(error)
  }

  /** The record after asking whether it expired, and whether the action fires now. */
  function ExpireTimer(t: TimerRecord, now: ClockStamp): (TimerRecord, bool) {
    if !t.state.Running? || !t.armed || RemainingSeconds(t, now) != Some(0.0) then (t, false)
    else (t.(state := Expired, remaining := Some(0.0), checkpoint := None, armed := false), true)
  }

  function CheckpointTimer(t: TimerRecord, now: ClockStamp): TimerRecord {
    if !t.state.Running? then t
    else
      var remaining := RemainingSeconds(t, now);
      if remaining.None? then PauseTimer(t, now, true)
      else
        t.(remaining := remaining, checkpoint := Some(now), projectedEndWall := Some(now.wall + remaining.value))
  }

  /** `value == 0` in Python. */
  predicate IsZero(value: Json) {
    PyEq(value, Int(0))
  }

  /** `restore_timer`: the restored record, and the input kept aside when it was no current record. */
  function RestoreTimer(value: Json): (TimerRecord, Option<Json>) {
    match ParseTimer(value)
    case Success(t) => (RestoreRecord(t), None)
    case Failure(_) =>
      var diagnostic := Some(if value.Obj? then value else Obj(map["invalid_timer" := value]));
      if value.Obj? && "schema_version" !in value.members then
        var start, paused, end := Get(value.members, "start"), Get(value.members, "paused"), Get(value.members, "end");
        if IsZero(start) && IsZero(paused) && IsZero(end) then (DEFAULT_TIMER, diagnostic)
        else (RestoreLegacy(start, paused, end), diagnostic)
      else (DEFAULT_TIMER.(state := Interrupted, remaining := None), diagnostic)
  }

  /** A current record after a restart: a running timer is interrupted where its last checkpoint left it. */
  function RestoreRecord(t: TimerRecord): TimerRecord {
    if t.state.Running? then t.(state := Interrupted, checkpoint := None, armed := false) else t
  }

  /** A record of wall-clock epochs: its coordinates become labels, and only a consistent pause yields a duration. */
  function RestoreLegacy(start: Json, paused: Json, end: Json): TimerRecord {
    var t := DEFAULT_TIMER.(state := Interrupted, remaining := None);
    if !start.IsNumber() || !paused.IsNumber() || !end.IsNumber() then t
    else
      var s, p, e := start.Numeric(), paused.Numeric(), end.Numeric();
      var labelled := t.(startedWall := Some(s), projectedEndWall := Some(e));
      if p > 0.0 && s <= p <= e then labelled.(remaining := Some(Max(0.0, e - p)), pausedWall := Some(p)) else labelled
  }

  // ---------------------------------------------------------------- identity and labels

  /**
   What is left at a stamp, and what the steps do to identity and labels. A start takes a new identity and labels
   itself; a resume is the same timer with its first start and a new projected end;
   a pause is labelled and disarms, and is an interruption when the time is unknown.
   */
  lemma {:induction false} StepsLabel(t: TimerRecord, now: ClockStamp, seconds: real, freshId: Uuid)
    ensures RemainingSeconds(t, now) ==
            match t.state
            case Stopped => Some(0.0)
            case Expired => Some(0.0)
            case Paused => t.remaining
            case Interrupted => t.remaining
            case Running =>
              if t.checkpoint.Some? && t.remaining.Some? && Continuous(t.checkpoint.value, now) then
                var left := t.remaining.value - (now.monotonic - t.checkpoint.value.monotonic);
                Some(if left > 0.0 then left else 0.0)
              else None
    ensures StartTimer(seconds, now, freshId).Success? <==> seconds >= 0.0 && Known(now)
    ensures StartTimer(seconds, now, freshId).Success? ==>
              StartTimer(seconds, now, freshId).value ==
              TimerRecord(freshId, Running, Some(seconds), Some(now),
                          Some(now.wall), None, Some(now.wall + seconds), true)
    ensures ResumeTimer(t, now, freshId).Success? <==>
              t.state in {Paused, Interrupted} && t.remaining.Some? && t.remaining.value >= 0.0 && Known(now)
    ensures ResumeTimer(t, now, freshId).Success? ==>
              ResumeTimer(t, now, freshId).value ==
              TimerRecord(t.timerId, Running, t.remaining, Some(now),
                          t.startedWall, None, Some(now.wall + t.remaining.value), true)
    ensures var left := RemainingSeconds(t, now);
            PauseTimer(t, now, false) ==
            if t.state != Running then t
            else TimerRecord(t.timerId, if left.Some? then Paused else Interrupted,
                             if left.Some? then left else t.remaining, None,
                             t.startedWall, Some(now.wall), t.projectedEndWall, false)
    ensures PauseTimer(t, now, true) ==
            if t.state != Running then t
            else TimerRecord(t.timerId, Interrupted, t.remaining, None,
                             t.startedWall, Some(now.wall), t.projectedEndWall, false)
    ensures var left := RemainingSeconds(t, now);
            CheckpointTimer(t, now) ==
            if t.state != Running then t
            else if left.None? then PauseTimer(t, now, true)
            else t.(remaining := left, checkpoint := Some(now), projectedEndWall := Some(now.wall + left.value))
    ensures ExpireTimer(t, now) ==
            if t.state == Running && t.armed && RemainingSeconds(t, now) == Some(0.0)
            then (TimerRecord(t.timerId, Expired, Some(0.0), None,
                              t.startedWall, t.pausedWall, t.projectedEndWall, false), true)
            else (t, false)
  {
    AgeMeaning(now, now);
    if t.checkpoint.Some? {
      AgeMeaning(t.checkpoint.value, now);
    }
  }

  // ---------------------------------------------------------------- every step stays admissible

  lemma {:induction false} StepsStayAdmissible(
    t: TimerRecord, now: ClockStamp, seconds: real, freshId: Uuid, interrupted: bool)
    requires Admissible(t)
    ensures Admissible(DEFAULT_TIMER)
    ensures Admissible(PauseTimer(t, now, interrupted))
    ensures Admissible(CheckpointTimer(t, now))
    ensures Admissible(ExpireTimer(t, now).0)
    ensures StartTimer(seconds, now, freshId).Success? ==> Admissible(StartTimer(seconds, now, freshId).value)
    ensures ResumeTimer(t, now, freshId).Success? ==> Admissible(ResumeTimer(t, now, freshId).value)
  {
  }

  /** Restoring admits any JSON at all and never yields a timer that counts down or may fire. */
  lemma {:induction false} RestoreIsSafe(value: Json)
    ensures var t := RestoreTimer(value).0;
            Admissible(t) && !t.state.Running? && !t.armed && ParseTimer(EncodeTimer(t)) == Success(t)
    ensures RestoreTimer(value).1.None? <==> ParseTimer(value).Success?
  {
    if ParseTimer(value).Success? {
      ParseTimerAdmits(value);
    }
    ParseTimerRoundTrip(RestoreTimer(value).0);
  }

  /** Python's `value == 0`: any number of value zero, and `False`. */
  predicate EqualsZero(value: Json) {
    (value.IsNumber() && value.Numeric() == 0.0) || value == Bool(false)
  }

  /** What a record of wall-clock epochs comes to: nothing running, and time left only out of a consistent pause. */
  ghost predicate IsRestoredLegacy(t: TimerRecord, start: Json, paused: Json, end: Json) {
    if EqualsZero(start) && EqualsZero(paused) && EqualsZero(end) then
      t == TimerRecord(NIL_UUID, Stopped, Some(0.0), None, None, None, None, false)
    else
      var numbers := start.IsNumber() && paused.IsNumber() && end.IsNumber();
      var consistent := numbers && paused.Numeric() > 0.0 && start.Numeric() <= paused.Numeric() <= end.Numeric();
      && t.timerId == NIL_UUID && t.state == Interrupted && t.checkpoint == None && !t.armed
      && t.remaining == (if consistent then Some(end.Numeric() - paused.Numeric()) else None)
      && t.startedWall == (if numbers then Some(start.Numeric()) else None)
      && t.pausedWall == (if consistent then Some(paused.Numeric()) else None)
      && t.projectedEndWall == (if numbers then Some(end.Numeric()) else None)
  }

  /**
   What restoring gives, for any JSON. A current record comes back as it was, except
   that a running one is interrupted with all its time and labels; a record of
   epochs keeps time only out of a consistent pause; anything else is interrupted
   with nothing known. What was no current record is kept aside.
   */
  lemma {:induction false} RestoreMeaning(value: Json)
    ensures var (t, kept) := RestoreTimer(value);
            match ParseTimer(value)
            case Success(p) =>
              && kept.None?
              && t == (if p.state.Running? then
                         TimerRecord(p.timerId, Interrupted, p.remaining, None,
                                     p.startedWall, p.pausedWall, p.projectedEndWall, false)
                       else p)
            case Failure(_) =>
              && kept == Some(if value.Obj? then value else Obj(map["invalid_timer" := value]))
              && if value.Obj? && "schema_version" !in value.members then
                   IsRestoredLegacy(
                     t, Get(value.members, "start"), Get(value.members, "paused"), Get(value.members, "end"))
                 else t == TimerRecord(NIL_UUID, Interrupted, None, None, None, None, None, false)
  {
    if value.Obj? {
      forall k ensures IsZero(Get(value.members, k)) <==> EqualsZero(Get(value.members, k)) {
      }
    }
  }

  /** Restoring a current record gives no credit for the downtime. */
  lemma {:induction false} RestoreOfCurrent(t: TimerRecord)
    requires Admissible(t)
    ensures var (restored, kept) := RestoreTimer(EncodeTimer(t));
            && kept.None? && Admissible(restored)
            && (!t.state.Running? ==> restored == t)
            && (t.state.Running? ==>
                  && restored.state == Interrupted && restored.checkpoint == None && !restored.armed
                  && restored.timerId == t.timerId && restored.remaining == t.remaining
                  && restored.startedWall == t.startedWall && restored.pausedWall == t.pausedWall
                  && restored.projectedEndWall == t.projectedEndWall)
  {
    ParseTimerRoundTrip(t);
  }
}
