/**
 Building envelopes, against validating them: `control_delta` succeeds exactly on
 well-formed intents, and the drain reads every one of them back as it was meant.
 */
module ControlEnvelopes {
  import opened Wrappers
  import opened JsonValues
  import opened JsonTrees
  import opened ControlDeltas
  import opened UuidTexts

  // ---------------------------------------------------------------- operations

  /** What the drain accepts of an operation. */
  predicate ValidOp(op: Op) {
    match op
    case TimerClear(target) => UuidText(target)
    case TimerPause(target) => UuidText(target)
    case TimerStartOrResume(target, seconds) => UuidText(target) && (seconds.Some? ==> seconds.value >= 0.0)
    case TimerStartWithOptions(target, duration, _, _) => UuidText(target) && duration > 0.0
    case CalibrationSet(command) => ValidCommand(command)
    case HoldSetSetpoint(setpoint) => setpoint.IsNumber()
    case _ => true
  }

  predicate ValidCommand(c: CalibrationCommand) {
    c.action in CALIBRATION_ACTIONS && c.revision >= 1 && c.source in AMBIENT_SOURCES
  }

  /** Durations with options travel as whole seconds. */
  predicate WholeSeconds(op: Op) {
    op.TimerStartWithOptions? ==> op.duration == op.duration.Floor as real
  }

  function OpName(op: Op): string {
    match op
    case TimerClear(_) => "timer.clear"
    case TimerPause(_) => "timer.pause"
    case TimerStartOrResume(_, _) => "timer.start_or_resume"
    case TimerStartWithOptions(_, _, _, _) => "timer.start_with_options"
    case NotifySet(_, _, _) => "notify.set"
    case NotifyDelete(_, _) => "notify.delete"
    case NotifyReplace(_) => "notify.replace"
    case CalibrationSet(_) => "mpc_calibration.set"
    case HoldSetSetpoint(_) => "hold.set_setpoint"
  }

  function TimerRequest(name: string, target: string, wall: real): Dict {
    map["op" := Str(name), "requested_wall_s" := Real(wall), "target_runtime_id" := Str(target)]
  }

  /** The entry of `ops` a writer queues for an operation. */
  function EncodeOp(op: Op, wall: real): Json {
    match op
    case TimerClear(target) => Obj(TimerRequest("timer.clear", target, wall))
    case TimerPause(target) => Obj(TimerRequest("timer.pause", target, wall))
    case TimerStartOrResume(target, seconds) =>
      Obj(TimerRequest("timer.start_or_resume", target, wall)
            ["seconds" := if seconds.Some? then Real(seconds.value) else Null])
    case TimerStartWithOptions(target, duration, shutdown, keepWarm) =>
      Obj(TimerRequest("timer.start_with_options", target, wall)
            ["seconds" := Int(duration.Floor)]["shutdown" := Bool(shutdown)]["keep_warm" := Bool(keepWarm)])
    case NotifySet(entryLabel, kind, fields) =>
      Obj(map["op" := Str("notify.set"), "label" := entryLabel, "type" := kind, "fields" := Obj(fields)])
    case NotifyDelete(entryLabel, kind) => Obj(map["op" := Str("notify.delete"), "label" := entryLabel, "type" := kind])
    case NotifyReplace(entries) => Obj(map["op" := Str("notify.replace"), "entries" := Arr(entries)])
    case CalibrationSet(command) => Obj(map["op" := Str("mpc_calibration.set"), "command" := EncodeCommand(command)])
    case HoldSetSetpoint(setpoint) => Obj(map["op" := Str("hold.set_setpoint"), "setpoint" := setpoint])
  }

  lemma {:induction false} CommandRoundTrip(c: CalibrationCommand)
    ensures DecodeCommand(EncodeCommand(c)) == if ValidCommand(c) then Some(c) else None
  {
  }

  lemma {:induction false} TimerOpRoundTrip(op: Op, wall: real)
    requires op.IsTimer() && WholeSeconds(op)
    ensures DecodeOp(EncodeOp(op, wall)) == if ValidOp(op) then Some(op) else None
  {
    var d := EncodeOp(op, wall).members;
    assert d["op"] == Str(OpName(op)) && (TimerFields(d) <==> UuidText(op.target));
    match op
    case TimerClear(_) => assert d.Keys == {"op", "requested_wall_s", "target_runtime_id"};
    case TimerPause(_) => assert d.Keys == {"op", "requested_wall_s", "target_runtime_id"};
    case TimerStartOrResume(_, _) => assert d.Keys == {"op", "requested_wall_s", "target_runtime_id", "seconds"};
    case TimerStartWithOptions(_, _, _, _) =>
      assert d.Keys == {"op", "requested_wall_s", "target_runtime_id", "seconds", "shutdown", "keep_warm"};
  }

  /** An operation is read back as it was written, or refused when it is not valid. */
  lemma {:induction false} OpRoundTrip(op: Op, wall: real)
    requires WholeSeconds(op)
    ensures DecodeOp(EncodeOp(op, wall)) == if ValidOp(op) then Some(op) else None
  {
    var d := EncodeOp(op, wall).members;
    assert d["op"] == Str(OpName(op));
    match op
    case NotifySet(_, _, _) => assert d.Keys == {"op", "label", "type", "fields"};
    case NotifyDelete(_, _) => assert d.Keys == {"op", "label", "type"};
    case NotifyReplace(_) => assert d.Keys == {"op", "entries"};
    case CalibrationSet(command) =>
      assert d.Keys == {"op", "command"};
      CommandRoundTrip(command);
    case HoldSetSetpoint(_) => assert d.Keys == {"op", "setpoint"};
    case _ => TimerOpRoundTrip(op, wall);
  }

  /** Whatever entry passes validation denotes a valid operation, which could have been written. */
  lemma {:induction false} DecodedOpIsValid(value: Json)
    requires DecodeOp(value).Some?
    ensures ValidOp(DecodeOp(value).value) && WholeSeconds(DecodeOp(value).value)
  {
  }

  // ---------------------------------------------------------------- lists

  function EncodeOps(ops: seq<Op>, wall: real): seq<Json> {
    seq(|ops|, i requires 0 <= i < |ops| => EncodeOp(ops[i], wall))
  }

  predicate ValidOps(ops: seq<Op>) {
    forall i | 0 <= i < |ops| :: ValidOp(ops[i])
  }

  lemma {:induction false} DecodeOpsEach(entries: seq<Json>)
    requires DecodeOps(entries).Some?
    ensures forall i | 0 <= i < |entries| :: DecodeOp(entries[i]) == Some(DecodeOps(entries).value[i])
    decreases |entries|
  {
    if entries != [] {
      DecodeOpsEach(entries[..|entries| - 1]);
    }
  }

  /** The operations of a readable envelope are valid. */
  lemma {:induction false} DecodedOpsAreValid(envelope: Json)
    requires Decode(envelope).Some? && Decode(envelope).value.ops.Given?
    ensures ValidOps(Decode(envelope).value.ops.value)
  {
    var entries, ops := envelope.members["ops"].items, Decode(envelope).value.ops.value;
    DecodeOpsEach(entries);
    forall i | 0 <= i < |ops| ensures ValidOp(ops[i]) {
      DecodedOpIsValid(entries[i]);
    }
  }

  lemma {:induction false} DecodeEach(entries: seq<Json>, ops: seq<Op>)
    requires |entries| == |ops|
    requires forall i | 0 <= i < |ops| :: DecodeOp(entries[i]) == if ValidOp(ops[i]) then Some(ops[i]) else None
    ensures DecodeOps(entries) == if ValidOps(ops) then Some(ops) else None
    decreases |ops|
  {
    if ops != [] {
      var n := |ops| - 1;
      DecodeEach(entries[..n], ops[..n]);
      assert ops[..n] + [ops[n]] == ops;
      assert ValidOps(ops) <==> ValidOps(ops[..n]) && ValidOp(ops[n]);
    }
  }

  lemma {:induction false} OpsRoundTrip(ops: seq<Op>, wall: real)
    requires forall i | 0 <= i < |ops| :: WholeSeconds(ops[i])
    ensures DecodeOps(EncodeOps(ops, wall)) == if ValidOps(ops) then Some(ops) else None
  {
    var entries := EncodeOps(ops, wall);
    forall i | 0 <= i < |ops|
      ensures DecodeOp(entries[i]) == if ValidOp(ops[i]) then Some(ops[i]) else None
    {
      OpRoundTrip(ops[i], wall);
    }
    DecodeEach(entries, ops);
  }

  /** A path that a write may delete. */
  predicate Deletable(path: Path) {
    path != [] && path[0] != "cook_id"
  }

  predicate AllDeletable(paths: seq<Path>) {
    forall i | 0 <= i < |paths| :: Deletable(paths[i])
  }

  lemma {:induction false} PathRoundTrip(path: Path)
    ensures DecodePath(EncodePath(path)) == if Deletable(path) then Some(path) else None
  {
    var items := EncodePath(path).items;
    assert forall i | 0 <= i < |items| :: items[i] == Str(path[i]);
    if path != [] {
      assert path == seq(|items|, i requires 0 <= i < |items| => if items[i].Str? then items[i].text else "");
    }
  }

  lemma {:induction false} PathsRoundTrip(paths: seq<Path>)
    ensures DecodePaths(EncodePaths(paths)) == if AllDeletable(paths) then Some(paths) else None
    decreases |paths|
  {
    if paths != [] {
      var n := |paths| - 1;
      assert EncodePaths(paths)[..n] == EncodePaths(paths[..n]);
      PathsRoundTrip(paths[..n]);
      PathRoundTrip(paths[n]);
      assert paths[..n] + [paths[n]] == paths;
      assert AllDeletable(paths) <==> AllDeletable(paths[..n]) && Deletable(paths[n]);
    }
  }

  // ---------------------------------------------------------------- envelopes

  /** `control_delta`: the envelope, before it is validated; empty parts are left out. */
  function BuildEnvelope(values: Dict, deletions: seq<Path>, ops: seq<Op>, wall: real): Json {
    var base: Dict := map[CONTROL_DELTA_KEY := Int(CONTROL_DELTA_VERSION)];
    var withSet := if values == map[] then base else base["set" := Obj(values)];
    var withDelete := if deletions == [] then withSet else withSet["delete" := Arr(EncodePaths(deletions))];
    Obj(if ops == [] then withDelete else withDelete["ops" := Arr(EncodeOps(ops, wall))])
  }

  /** The intent the drain reads: what was left out is absent, never null. */
  function Intent(values: Dict, deletions: seq<Path>, ops: seq<Op>): Delta {
    Delta(if values == map[] then Absent else Given(values),
          if ops == [] then Absent else Given(ops),
          if deletions == [] then Absent else Given(deletions))
  }

  lemma {:induction false} EnvelopeParts(values: Dict, deletions: seq<Path>, ops: seq<Op>, wall: real)
    ensures var d := BuildEnvelope(values, deletions, ops, wall).members;
            && d.Keys <= ALLOWED_MEMBERS
            && Get(d, CONTROL_DELTA_KEY) == Int(CONTROL_DELTA_VERSION)
            && Get(d, "set") == (if values == map[] then Null else Obj(values))
            && Get(d, "delete") == (if deletions == [] then Null else Arr(EncodePaths(deletions)))
            && Get(d, "ops") == (if ops == [] then Null else Arr(EncodeOps(ops, wall)))
            && ("set" in d <==> values != map[]) && ("delete" in d <==> deletions != []) && ("ops" in d <==> ops != [])
  {
  }

  /** Building an envelope succeeds exactly for well-formed intents, and the drain then reads back that very intent. */
  lemma {:induction false} EnvelopeRoundTrip(values: Dict, deletions: seq<Path>, ops: seq<Op>, wall: real)
    requires forall i | 0 <= i < |ops| :: WholeSeconds(ops[i])
    ensures Decode(BuildEnvelope(values, deletions, ops, wall)) ==
            if values.Keys !! SET_FORBIDDEN && AllDeletable(deletions) && ValidOps(ops)
            then Some(Intent(values, deletions, ops)) else None
  {
    EnvelopeParts(values, deletions, ops, wall);
    OpsRoundTrip(ops, wall);
    PathsRoundTrip(deletions);
  }
}
