/**
 The queued control write: an envelope states its writer's intent as values to
 assign, ordered operations, and paths to delete, and is applied in place to
 the live control dictionary. A Python exception leaves the dictionary as the
 steps before it left it: `Raised` carries that dictionary.
 */
module ControlDeltas {
  import opened Wrappers
  import opened JsonValues
  import opened JsonTrees
  import opened ClockDomain
  import opened Timers
  import opened UuidTexts

  const CONTROL_DELTA_KEY := "__control_delta__"
  const CONTROL_DELTA_VERSION: int := 2
  const ALLOWED_MEMBERS := {CONTROL_DELTA_KEY, "origin", "set", "delete", "ops"}
  const SET_FORBIDDEN := {"timer", "notify_data", "cook_id"}
  const CALIBRATION_ACTIONS := {"start", "pause", "resume", "stop", "reset-progress"}
  const AMBIENT_SOURCES := {"measured", "manual", "weather", "configured"}
  const DEFAULT_TIMER_SECONDS: real := 60.0

  datatype CalibrationCommand = CalibrationCommand(action: string, revision: int, ambient: real, source: string)

  datatype Op =
    | TimerClear(target: string)
    | TimerPause(target: string)
    | TimerStartOrResume(target: string, seconds: Option<real>)
    | TimerStartWithOptions(target: string, duration: real, shutdown: bool, keepWarm: bool)
    | NotifySet(entryLabel: Json, kind: Json, fields: Dict)
    | NotifyDelete(entryLabel: Json, kind: Json)
    | NotifyReplace(entries: seq<Json>)
    | CalibrationSet(command: CalibrationCommand)
    | HoldSetSetpoint(setpoint: Json)
  {
    predicate IsTimer() {
      TimerClear? || TimerPause? || TimerStartOrResume? || TimerStartWithOptions?
    }

    predicate IsNotify() {
      NotifySet? || NotifyDelete? || NotifyReplace?
    }
  }

  /** An envelope member: absent, present as null, or given. A null passes validation and fails later. */
  datatype Field<+T> = Absent | NullGiven | Given(value: T)

  datatype Delta = Delta(setValues: Field<Dict>, ops: Field<seq<Op>>, deletes: Field<seq<Path>>)

  datatype Applied = Done(control: Dict) | Raised(control: Dict)

  // ---------------------------------------------------------------- validation

  /** `validated_mpc_calibration_command`. */
  function DecodeCommand(value: Json): Option<CalibrationCommand> {
    if !value.Obj? || value.members.Keys != {"action", "revision", "ambient_c", "ambient_source",
                                             "empty_grill_confirmed", "pellets_confirmed"} then None
    else
      var d := value.members;
      if !(d["action"].Str? && d["action"].text in CALIBRATION_ACTIONS) then None
      else if !(d["revision"].Int? && d["revision"].i >= 1) then None
      else if !d["ambient_c"].IsNumber() then None
      else if !(d["ambient_source"].Str? && d["ambient_source"].text in AMBIENT_SOURCES) then None
      else if d["empty_grill_confirmed"] != Bool(true) || d["pellets_confirmed"] != Bool(true) then None
      else
        Some(CalibrationCommand(
               d["action"].text, d["revision"].i, d["ambient_c"].Numeric(), d["ambient_source"].text))
  }

  function EncodeCommand(c: CalibrationCommand): Json {
    Obj(map[
      "action" := Str(c.action),
      "revision" := Int(c.revision),
      "ambient_c" := Real(c.ambient),
      "ambient_source" := Str(c.source),
      "empty_grill_confirmed" := Bool(true),
      "pellets_confirmed" := Bool(true)
    ])
  }

  /** One entry of `ops`, with exactly the fields its name calls for. */
  function DecodeOp(value: Json): Option<Op> {
    if !value.Obj? || "op" !in value.members || !value.members["op"].Str? then None
    else
      var d, name := value.members, value.members["op"].text;
      if name == "timer.clear" || name == "timer.pause" then
        if d.Keys != {"op", "requested_wall_s", "target_runtime_id"} || !TimerFields(d) then None
        else Some(if name == "timer.clear" then TimerClear(d["target_runtime_id"].text)
                  else TimerPause(d["target_runtime_id"].text))
      else if name == "timer.start_or_resume" then
        if d.Keys != {"op", "requested_wall_s", "target_runtime_id", "seconds"} || !TimerFields(d) then None
        else if d["seconds"].Null? then Some(TimerStartOrResume(d["target_runtime_id"].text, None))
        else if !(d["seconds"].IsNumber() && d["seconds"].Numeric() >= 0.0) then None
        else Some(TimerStartOrResume(d["target_runtime_id"].text, Some(d["seconds"].Numeric())))
      else if name == "timer.start_with_options" then
        if d.Keys != {"op", "requested_wall_s", "target_runtime_id", "seconds", "shutdown", "keep_warm"} ||
           !TimerFields(d) then None
        else if !(d["seconds"].Int? && d["seconds"].i > 0) || !d["shutdown"].Bool? || !d["keep_warm"].Bool? then None
        else Some(TimerStartWithOptions(
                    d["target_runtime_id"].text, d["seconds"].Numeric(), d["shutdown"].flag, d["keep_warm"].flag))
      else if name == "notify.set" then
        if d.Keys != {"op", "label", "type", "fields"} || !d["fields"].Obj? then None
        else Some(NotifySet(d["label"], d["type"], d["fields"].members))
      else if name == "notify.delete" then
        if d.Keys != {"op", "label", "type"} then None else Some(NotifyDelete(d["label"], d["type"]))
      else if name == "notify.replace" then
        if d.Keys != {"op", "entries"} || !d["entries"].Arr? then None else Some(NotifyReplace(d["entries"].items))
      else if name == "mpc_calibration.set" then
        if d.Keys != {"op", "command"} || DecodeCommand(d["command"]).None? then None
        else Some(CalibrationSet(DecodeCommand(d["command"]).value))
      else if name == "hold.set_setpoint" then
        if d.Keys != {"op", "setpoint"} || !d["setpoint"].IsNumber() then None else Some(HoldSetSetpoint(d["setpoint"]))
      else None
  }

  predicate TimerFields(d: Dict)
    requires "requested_wall_s" in d && "target_runtime_id" in d
  {
    d["requested_wall_s"].IsNumber() && d["target_runtime_id"].Str? && UuidText(d["target_runtime_id"].text)
  }

  function DecodeOps(values: seq<Json>): (ops: Option<seq<Op>>)
    ensures ops.Some? ==> |ops.value| == |values|
  {
    if values == [] then Some([])
    else
      var rest := DecodeOps(values[..|values| - 1]);
      var last := DecodeOp(values[|values| - 1]);
      if rest.None? || last.None? then None else Some(rest.value + [last.value])
  }

  function DecodePath(value: Json): Option<Path> {
    if !value.Arr? || value.items == [] || exists i | 0 <= i < |value.items| :: !value.items[i].Str? then None
    else
      var path := seq(|value.items|, i requires 0 <= i < |value.items| =>
                        if value.items[i].Str? then value.items[i].text else "");
      if path[0] == "cook_id" then None else Some(path)
  }

  function DecodePaths(values: seq<Json>): (paths: Option<seq<Path>>)
    ensures paths.Some? ==> forall i | 0 <= i < |paths.value| :: paths.value[i] != []
  {
    if values == [] then Some([])
    else
      var rest := DecodePaths(values[..|values| - 1]);
      var last := DecodePath(values[|values| - 1]);
      if rest.None? || last.None? then None else Some(rest.value + [last.value])
  }

  /** `validate_control_delta`: a well-formed current envelope, read as what it asks for. */
  function Decode(envelope: Json): (delta: Option<Delta>)
    ensures delta.Some? && delta.value.setValues.Given? ==> delta.value.setValues.value.Keys !! SET_FORBIDDEN
    ensures delta.Some? && delta.value.deletes.Given? ==>
              forall i | 0 <= i < |delta.value.deletes.value| :: delta.value.deletes.value[i] != []
  {
    if !envelope.Obj? || !(envelope.members.Keys <= ALLOWED_MEMBERS) ||
       !PyEq(Get(envelope.members, CONTROL_DELTA_KEY), Int(CONTROL_DELTA_VERSION)) then None
    else
      var d := envelope.members;
      var setValues, ops, deletes := Get(d, "set"), Get(d, "ops"), Get(d, "delete");
      if !(setValues.Null? || (setValues.Obj? && setValues.members.Keys !! SET_FORBIDDEN)) then None
      else if !(deletes.Null? || (deletes.Arr? && DecodePaths(deletes.items).Some?)) then None
      else if !(ops.Null? || (ops.Arr? && DecodeOps(ops.items).Some?)) then None
      else
        Some(Delta(
               if "set" !in d then Absent else if setValues.Null? then NullGiven else Given(setValues.members),
               if "ops" !in d then Absent else if ops.Null? then NullGiven else Given(DecodeOps(ops.items).value),
               if "delete" !in d then Absent else if deletes.Null? then NullGiven
               else Given(DecodePaths(deletes.items).value)))
  }

  // ---------------------------------------------------------------- notify entries

  /** Which entry an operation means: by label and type, or the first of type "timer". */
  datatype Address = Labelled(entryLabel: Json, kind: Json) | TimerKind

  predicate Matches(entry: Json, a: Address) {
    entry.Obj? &&
    match a
    case Labelled(entryLabel, kind) =>
      PyEq(Get(entry.members, "label"), entryLabel) && PyEq(Get(entry.members, "type"), kind)
    case TimerKind => Get(entry.members, "type") == Str("timer")
  }

  /** The index of the first matching entry, or the length of the list. */
  function FirstMatch(entries: seq<Json>, a: Address): (i: nat)
    ensures i <= |entries|
    ensures i < |entries| ==> Matches(entries[i], a)
    ensures forall j | 0 <= j < i :: !Matches(entries[j], a)
  {
    if entries == [] then 0
    else if Matches(entries[0], a) then 0
    else 1 + FirstMatch(entries[1..], a)
  }

  datatype Search = NotIterable | Missing | At(index: nat)

  /** Looking through `notify_data`: strings and dictionaries iterate too, but hold no entries. */
  function Find(c: Dict, a: Address): (s: Search)
    ensures s.At? ==> "notify_data" in c && c["notify_data"].Arr? && s.index < |c["notify_data"].items| &&
                      c["notify_data"].items[s.index].Obj?
  {
    if "notify_data" !in c then Missing
    else
      match c["notify_data"]
      case Arr(items) => if FirstMatch(items, a) < |items| then At(FirstMatch(items, a)) else Missing
      case Obj(_) => Missing
      case Str(_) => Missing
      case _ => NotIterable
  }

  function Patch(c: Dict, i: nat, fields: Dict): Dict
    requires "notify_data" in c && c["notify_data"].Arr?
    requires i < |c["notify_data"].items| && c["notify_data"].items[i].Obj?
  {
    var items := c["notify_data"].items;
    c["notify_data" := Arr(items[i := Obj(items[i].members + fields)])]
  }

  // ---------------------------------------------------------------- operations

  /** Store the new timer, then patch the first timer entry if there is one. */
  function StoreTimer(c: Dict, t: TimerRecord, fields: Dict): Applied {
    var stored := c["timer" := EncodeTimer(t)];
    match Find(c, TimerKind)
    case NotIterable => Raised(stored)
    case Missing => Done(stored)
    case At(i) => Done(Patch(stored, i, fields))
  }

  function ReqField(req: bool): Dict {
    map["req" := Bool(req)]
  }

  function OptionFields(req: bool, shutdown: bool, keepWarm: bool): Dict {
    map["req" := Bool(req), "shutdown" := Bool(shutdown), "keep_warm" := Bool(keepWarm)]
  }

  function StoredTimer(c: Dict): Result<TimerRecord, TimerError> {
    if "timer" in c then ParseTimer(c["timer"]) else Failure(WrongFields)
  }

  function ApplyTimerOp(c: Dict, op: Op, now: ClockStamp, freshId: Uuid): Applied
    requires op.IsTimer()
  {
    if op.TimerClear? then StoreTimer(c, DEFAULT_TIMER, OptionFields(false, false, false))
    else
      match StoredTimer(c)
      case Failure(_) => Raised(c)
      case Success(t) =>
        if op.TimerPause? then StoreTimer(c, PauseTimer(t, now, false), ReqField(false))
        else if op.TimerStartOrResume? then
          var seconds := if op.seconds.Some? then op.seconds.value else DEFAULT_TIMER_SECONDS;
          var next := if t.state.Paused? || t.state.Interrupted? then ResumeTimer(t, now, freshId)
                      else StartTimer(seconds, now, freshId);
          if next.Failure? then Raised(c) else StoreTimer(c, next.value, ReqField(true))
        else
          if t.state.Paused? || (t.state.Interrupted? && t.remaining.Some?) then Raised(c)
          else
            var next := StartTimer(op.duration, now, freshId);
            if next.Failure? then Raised(c)
            else StoreTimer(c, next.value, OptionFields(true, op.shutdown, op.keepWarm))
  }

  function ApplyNotifyOp(c: Dict, op: Op): Applied
    requires op.IsNotify()
  {
    match op
    case NotifyReplace(entries) => Done(c["notify_data" := Arr(entries)])
    case NotifySet(entryLabel, kind, fields) =>
      (match Find(c, Labelled(entryLabel, kind))
       case NotIterable => Raised(c)
       case At(i) => Done(Patch(c, i, fields))
       case Missing =>
         var items := if "notify_data" in c then c["notify_data"] else Arr([]);
         var entry := Obj(map["label" := entryLabel, "type" := kind] + fields);
         if items.Arr? then Done(c["notify_data" := Arr(items.items + [entry])]) else Raised(c))
    case NotifyDelete(entryLabel, kind) =>
      (match Find(c, Labelled(entryLabel, kind))
       case NotIterable => Raised(c)
       case Missing => Done(c)
       case At(i) =>
         var items := c["notify_data"].items;
         Done(c["notify_data" := Arr(items[..i] + items[i + 1..])]))
  }

  /** The calibration register: only a later revision replaces what is there. */
  function NextCalibration(previous: Json, command: CalibrationCommand): Json {
    if previous.Null? then EncodeCommand(command)
    else if !previous.Obj? || !Get(previous.members, "revision").Int? then previous
    else if command.revision > Get(previous.members, "revision").i then EncodeCommand(command)
    else previous
  }

  function ApplyOp(c: Dict, op: Op, now: ClockStamp, freshId: Uuid): Applied {
    if op.IsTimer() then ApplyTimerOp(c, op, now, freshId)
    else if op.IsNotify() then ApplyNotifyOp(c, op)
    else if op.CalibrationSet? then
      var previous := Get(c, "mpc_calibration");
      var next := NextCalibration(previous, op.command);
      if next == previous then Done(c) else Done(c["mpc_calibration" := next])
    else
      var held := if Get(c, "mode") == Str("Hold") then c else c["mode" := Str("Hold")]["updated" := Bool(true)];
      Done(held["primary_setpoint" := op.setpoint])
  }

  // ---------------------------------------------------------------- envelopes

  /** The steps an envelope takes, in order. Iterating over a null raises. */
  datatype Prim = AssignTree(values: Dict) | PerformOp(op: Op, freshId: Uuid) | RemovePath(path: Path) | IterateNull

  predicate WellFormed(p: Prim) {
    && (p.AssignTree? ==> p.values.Keys !! SET_FORBIDDEN)
    && (p.RemovePath? ==> p.path != [])
  }

  predicate AllWellFormed(prims: seq<Prim>) {
    forall i | 0 <= i < |prims| :: WellFormed(prims[i])
  }

  function Do(p: Prim, c: Dict, now: ClockStamp): Applied
    requires WellFormed(p)
  {
    match p
    case AssignTree(values) => Done(DeepAssign(c, values))
    case PerformOp(op, freshId) => ApplyOp(c, op, now, freshId)
    case RemovePath(path) => Done(DeletePath(c, path))
    case IterateNull => Raised(c)
  }

  function RunPrims(prims: seq<Prim>, c: Dict, now: ClockStamp): Applied
    requires AllWellFormed(prims)
    decreases |prims|
  {
    if prims == [] then Done(c)
    else
      match Do(prims[0], c, now)
      case Done(next) => RunPrims(prims[1..], next, now)
      case Raised(next) => Raised(next)
  }

  function SetSteps(delta: Delta): seq<Prim> {
    match delta.setValues
    case Absent => []
    case NullGiven => [IterateNull]
    case Given(values) => [AssignTree(values)]
  }

  function Performs(ops: seq<Op>, ids: nat -> Uuid): (prims: seq<Prim>)
    ensures AllWellFormed(prims)
  {
    seq(|ops|, i requires 0 <= i < |ops| => PerformOp(ops[i], ids(i)))
  }

  function Removals(paths: seq<Path>): seq<Prim> {
    seq(|paths|, i requires 0 <= i < |paths| => RemovePath(paths[i]))
  }

  function OpSteps(delta: Delta, ids: nat -> Uuid): seq<Prim> {
    if delta.ops.Given? then Performs(delta.ops.value, ids) else []
  }

  function DeleteSteps(delta: Delta): seq<Prim> {
    match delta.deletes
    case Absent => []
    case NullGiven => [IterateNull]
    case Given(paths) => Removals(paths)
  }

  /** `set`, then `ops`, then `delete`. */
  function Steps(delta: Delta, ids: nat -> Uuid): seq<Prim> {
    SetSteps(delta) + OpSteps(delta, ids) + DeleteSteps(delta)
  }

  lemma {:induction false} StepsWellFormed(envelope: Json, ids: nat -> Uuid)
    requires Decode(envelope).Some?
    ensures AllWellFormed(Steps(Decode(envelope).value, ids))
    ensures AllWellFormed(SetSteps(Decode(envelope).value))
    ensures AllWellFormed(OpSteps(Decode(envelope).value, ids))
    ensures AllWellFormed(DeleteSteps(Decode(envelope).value))
  {
    var delta := Decode(envelope).value;
    assert AllWellFormed(SetSteps(delta)) && AllWellFormed(OpSteps(delta, ids)) && AllWellFormed(DeleteSteps(delta));
  }

  /** A timer operation aimed at another control generation. */
  predicate Retired(op: Op, now: ClockStamp) {
    op.IsTimer() && op.target != now.runtimeId
  }

  /** Whether the envelope gets as far as changing anything. */
  predicate Admitted(envelope: Json, now: ClockStamp) {
    && Decode(envelope).Some?
    && var ops := Decode(envelope).value.ops;
    && !ops.NullGiven?
    && (ops.Given? ==> forall i | 0 <= i < |ops.value| :: !Retired(ops.value[i], now))
  }

  /** `apply_control_delta`. */
  function ApplyControlDelta(c: Dict, envelope: Json, now: ClockStamp, ids: nat -> Uuid): Applied {
    if !envelope.Obj? then Raised(c)
    else if !PyEq(Get(envelope.members, CONTROL_DELTA_KEY), Int(CONTROL_DELTA_VERSION)) then Done(c)
    else if !Admitted(envelope, now) then Raised(c)
    else
      StepsWellFormed(envelope, ids);
      RunPrims(Steps(Decode(envelope).value, ids), c, now)
  }

  /** An envelope of another version, a malformed one, or one aimed at a retired generation changes nothing. */
  lemma {:induction false} RefusedChangesNothing(c: Dict, envelope: Json, now: ClockStamp, ids: nat -> Uuid)
    requires !Admitted(envelope, now)
    ensures ApplyControlDelta(c, envelope, now, ids).control == c
  {
  }

  lemma {:induction false} RunConcat(a: seq<Prim>, b: seq<Prim>, c: Dict, now: ClockStamp)
    requires AllWellFormed(a) && AllWellFormed(b)
    ensures AllWellFormed(a + b)
    ensures RunPrims(a + b, c, now) ==
            match RunPrims(a, c, now) case Done(next) => RunPrims(b, next, now) case Raised(next) => Raised(next)
    decreases |a|
  {
    if a == [] {
      assert a + b == b;
    } else {
      assert (a + b)[0] == a[0] && (a + b)[1..] == a[1..] + b;
      match Do(a[0], c, now)
      case Done(next) => RunConcat(a[1..], b, next, now);
      case Raised(_) =>
    }
  }
}
