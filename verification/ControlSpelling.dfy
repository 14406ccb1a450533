/**
 How control writes are spelled: which JSON denotes which operation and which write,
 in the names and numbers of the format itself, and that validation takes exactly that.
 */
module ControlSpelling {
  import opened Wrappers
  import opened JsonValues
  import opened JsonTrees
  import opened ClockDomain
  import opened UuidTexts
  import opened ControlDeltas
  import opened ControlEnvelopes

  // ---------------------------------------------------------------- operations

  /** The six fields of a calibration command, with the values that they may take. */
  predicate SpellsCommand(value: Json, c: CalibrationCommand) {
    && value.Obj?
    && var d := value.members;
    && d.Keys == {"action", "revision", "ambient_c", "ambient_source", "empty_grill_confirmed", "pellets_confirmed"}
    && d["action"] == Str(c.action) && c.action in {"start", "pause", "resume", "stop", "reset-progress"}
    && d["revision"] == Int(c.revision) && c.revision >= 1
    && Spells(d["ambient_c"], c.ambient)
    && d["ambient_source"] == Str(c.source) && c.source in {"measured", "manual", "weather", "configured"}
    && d["empty_grill_confirmed"] == Bool(true) && d["pellets_confirmed"] == Bool(true)
  }

  /** A timer operation's own fields: when and at which generation it is aimed. */
  predicate SpellsRequest(d: Dict, name: string, more: set<string>, target: string) {
    && d.Keys == {"op", "requested_wall_s", "target_runtime_id"} + more
    && d["op"] == Str(name) && d["requested_wall_s"].IsNumber()
    && d["target_runtime_id"] == Str(target) && UuidText(target)
  }

  /** An entry of `ops` that says what the operation says. */
  predicate SpellsOp(value: Json, op: Op) {
    && value.Obj?
    && var d := value.members;
    match op
    case TimerClear(target) => SpellsRequest(d, "timer.clear", {}, target)
    case TimerPause(target) => SpellsRequest(d, "timer.pause", {}, target)
    case TimerStartOrResume(target, seconds) =>
      && SpellsRequest(d, "timer.start_or_resume", {"seconds"}, target)
      && SpellsOption(d["seconds"], seconds) && (seconds.Some? ==> seconds.value >= 0.0)
    case TimerStartWithOptions(target, duration, shutdown, keepWarm) =>
      && SpellsRequest(d, "timer.start_with_options", {"seconds", "shutdown", "keep_warm"}, target)
      && d["seconds"].Int? && d["seconds"].i > 0 && d["seconds"].i as real == duration
      && d["shutdown"] == Bool(shutdown) && d["keep_warm"] == Bool(keepWarm)
    case NotifySet(entryLabel, kind, fields) =>
      && d.Keys == {"op", "label", "type", "fields"} && d["op"] == Str("notify.set")
      && d["label"] == entryLabel && d["type"] == kind && d["fields"] == Obj(fields)
    case NotifyDelete(entryLabel, kind) =>
      && d.Keys == {"op", "label", "type"} && d["op"] == Str("notify.delete")
      && d["label"] == entryLabel && d["type"] == kind
    case NotifyReplace(entries) =>
      d.Keys == {"op", "entries"} && d["op"] == Str("notify.replace") && d["entries"] == Arr(entries)
    case CalibrationSet(command) =>
      d.Keys == {"op", "command"} && d["op"] == Str("mpc_calibration.set") && SpellsCommand(d["command"], command)
    case HoldSetSetpoint(setpoint) =>
      && d.Keys == {"op", "setpoint"} && d["op"] == Str("hold.set_setpoint")
      && d["setpoint"] == setpoint && setpoint.IsNumber()
  }

  lemma {:induction false} DecodeCommandExactly(value: Json, c: CalibrationCommand)
    ensures DecodeCommand(value) == Some(c) <==> SpellsCommand(value, c)
  {
  }

  /** What validation makes of an entry is what it spells. */
  lemma {:induction false} DecodedIsSpelled(value: Json)
    requires DecodeOp(value).Some?
    ensures SpellsOp(value, DecodeOp(value).value)
  {
    var d := value.members;
    if DecodeOp(value).value.CalibrationSet? {
      DecodeCommandExactly(d["command"], DecodeOp(value).value.command);
    }
  }

  lemma {:induction false} TimerSpelledIsDecoded(value: Json, op: Op)
    requires SpellsOp(value, op) && op.IsTimer()
    ensures DecodeOp(value) == Some(op)
  {
    var d := value.members;
    assert TimerFields(d);
    match op
    case TimerClear(_) => assert d.Keys == {"op", "requested_wall_s", "target_runtime_id"};
    case TimerPause(_) => assert d.Keys == {"op", "requested_wall_s", "target_runtime_id"};
    case TimerStartOrResume(_, _) => assert d.Keys == {"op", "requested_wall_s", "target_runtime_id", "seconds"};
    case TimerStartWithOptions(_, _, _, _) =>
      assert d.Keys == {"op", "requested_wall_s", "target_runtime_id", "seconds", "shutdown", "keep_warm"};
  }

  lemma {:induction false} SpelledIsDecoded(value: Json, op: Op)
    requires SpellsOp(value, op)
    ensures DecodeOp(value) == Some(op)
  {
    if op.IsTimer() {
      TimerSpelledIsDecoded(value, op);
    } else if op.CalibrationSet? {
      DecodeCommandExactly(value.members["command"], op.command);
    }
  }

  /** Validation takes exactly the entries that spell an operation, as that operation. */
  lemma {:induction false} DecodeOpExactly(value: Json, op: Op)
    ensures DecodeOp(value) == Some(op) <==> SpellsOp(value, op)
  {
    if DecodeOp(value) == Some(op) {
      DecodedIsSpelled(value);
    }
    if SpellsOp(value, op) {
      SpelledIsDecoded(value, op);
    }
  }

  // ---------------------------------------------------------------- lists

  predicate SpellsOps(values: seq<Json>, ops: seq<Op>) {
    |values| == |ops| && forall i | 0 <= i < |ops| :: SpellsOp(values[i], ops[i])
  }

  lemma {:induction false} DecodeOpsExactly(values: seq<Json>, ops: seq<Op>)
    ensures DecodeOps(values) == Some(ops) <==> SpellsOps(values, ops)
    decreases |values|
  {
    if values != [] {
      var n := |values| - 1;
      if ops != [] {
        var m := |ops| - 1;
        DecodeOpsExactly(values[..n], ops[..m]);
        DecodeOpExactly(values[n], ops[m]);
        assert ops == ops[..m] + [ops[m]];
        assert n == m ==> (SpellsOps(values, ops) <==>
                             SpellsOps(values[..n], ops[..m]) && SpellsOp(values[n], ops[m]));
      }
    }
  }

  /** A nonempty list of keys, of which the first is not the cook's identity. */
  predicate SpellsPath(value: Json, path: Path) {
    && value.Arr? && |value.items| == |path| > 0 && path[0] != "cook_id"
    && forall i | 0 <= i < |path| :: value.items[i] == Str(path[i])
  }

  predicate SpellsPaths(values: seq<Json>, paths: seq<Path>) {
    |values| == |paths| && forall i | 0 <= i < |paths| :: SpellsPath(values[i], paths[i])
  }

  lemma {:induction false} DecodePathExactly(value: Json, path: Path)
    ensures DecodePath(value) == Some(path) <==> SpellsPath(value, path)
  {
    if SpellsPath(value, path) {
      assert path == seq(|value.items|, i requires 0 <= i < |value.items| =>
                           if value.items[i].Str? then value.items[i].text else "");
    }
  }

  lemma {:induction false} DecodePathsExactly(values: seq<Json>, paths: seq<Path>)
    ensures DecodePaths(values) == Some(paths) <==> SpellsPaths(values, paths)
    decreases |values|
  {
    if values != [] && paths != [] {
      var n, m := |values| - 1, |paths| - 1;
      DecodePathsExactly(values[..n], paths[..m]);
      DecodePathExactly(values[n], paths[m]);
      assert paths == paths[..m] + [paths[m]];
      assert n == m ==> (SpellsPaths(values, paths) <==>
                           SpellsPaths(values[..n], paths[..m]) && SpellsPath(values[n], paths[m]));
    }
  }

  // ---------------------------------------------------------------- envelopes

  /** The envelope declares the version that this build understands. */
  predicate Current(envelope: Json) {
    envelope.Obj? && "__control_delta__" in envelope.members && Spells(envelope.members["__control_delta__"], 2.0)
  }

  /** A member that is absent, null, or given. */
  predicate SpellsField<T>(d: Dict, key: string, field: Field<T>) {
    match field
    case Absent => key !in d
    case NullGiven => key in d && d[key] == Null
    case Given(_) => key in d
  }

  /** A current envelope of these parts, and perhaps a note of its origin. */
  predicate SpellsDelta(envelope: Json, delta: Delta) {
    && Current(envelope)
    && var d := envelope.members;
    && d.Keys <= {"__control_delta__", "origin", "set", "delete", "ops"}
    && SpellsField(d, "set", delta.setValues) && SpellsField(d, "ops", delta.ops)
    && SpellsField(d, "delete", delta.deletes)
    && (delta.setValues.Given? ==>
          && d["set"] == Obj(delta.setValues.value)
          && delta.setValues.value.Keys !! {"timer", "notify_data", "cook_id"})
    && (delta.ops.Given? ==> d["ops"].Arr? && SpellsOps(d["ops"].items, delta.ops.value))
    && (delta.deletes.Given? ==> d["delete"].Arr? && SpellsPaths(d["delete"].items, delta.deletes.value))
  }

  lemma {:induction false} VersionIsCurrent(envelope: Json)
    requires envelope.Obj?
    ensures PyEq(Get(envelope.members, CONTROL_DELTA_KEY), Int(CONTROL_DELTA_VERSION)) <==> Current(envelope)
  {
  }

  lemma {:induction false} SetSpelled(d: Dict, field: Field<Dict>)
    ensures var values := Get(d, "set");
            (values.Null? || (values.Obj? && values.members.Keys !! SET_FORBIDDEN)) &&
            field == (if "set" !in d then Absent else if values.Null? then NullGiven else Given(values.members)) <==>
            SpellsField(d, "set", field) &&
            (field.Given? ==> d["set"] == Obj(field.value) && field.value.Keys !! {"timer", "notify_data", "cook_id"})
  {
  }

  lemma {:induction false} OpsSpelled(d: Dict, field: Field<seq<Op>>)
    ensures var ops := Get(d, "ops");
            (ops.Null? || (ops.Arr? && DecodeOps(ops.items).Some?)) &&
            field == (if "ops" !in d then Absent else if ops.Null? then NullGiven
                      else Given(DecodeOps(ops.items).value)) <==>
            SpellsField(d, "ops", field) &&
            (field.Given? ==> d["ops"].Arr? && SpellsOps(d["ops"].items, field.value))
  {
    if "ops" in d && d["ops"].Arr? {
      if field.Given? {
        DecodeOpsExactly(d["ops"].items, field.value);
      }
      if DecodeOps(d["ops"].items).Some? {
        DecodeOpsExactly(d["ops"].items, DecodeOps(d["ops"].items).value);
      }
    }
  }

  lemma {:induction false} DeletesSpelled(d: Dict, field: Field<seq<Path>>)
    ensures var deletes := Get(d, "delete");
            (deletes.Null? || (deletes.Arr? && DecodePaths(deletes.items).Some?)) &&
            field == (if "delete" !in d then Absent else if deletes.Null? then NullGiven
                      else Given(DecodePaths(deletes.items).value)) <==>
            SpellsField(d, "delete", field) &&
            (field.Given? ==> d["delete"].Arr? && SpellsPaths(d["delete"].items, field.value))
  {
    if "delete" in d && d["delete"].Arr? {
      if field.Given? {
        DecodePathsExactly(d["delete"].items, field.value);
      }
      if DecodePaths(d["delete"].items).Some? {
        DecodePathsExactly(d["delete"].items, DecodePaths(d["delete"].items).value);
      }
    }
  }

  /** Validation takes exactly the envelopes that spell a write, as that write. */
  lemma {:induction false} DecodeExactly(envelope: Json, delta: Delta)
    ensures Decode(envelope) == Some(delta) <==> SpellsDelta(envelope, delta)
  {
    if envelope.Obj? {
      VersionIsCurrent(envelope);
      SetSpelled(envelope.members, delta.setValues);
      OpsSpelled(envelope.members, delta.ops);
      DeletesSpelled(envelope.members, delta.deletes);
    }
  }

  /** The write is aimed, by some timer operation, at another control generation than this one. */
  predicate AimsElsewhere(delta: Delta, runtimeId: string) {
    delta.ops.Given? && exists i | 0 <= i < |delta.ops.value| ::
      delta.ops.value[i].IsTimer() && delta.ops.value[i].target != runtimeId
  }

  /**
   Which envelopes are not applied: one of another version is dropped without an
   error; one that spells no write, has null operations or aims elsewhere raises.
   Either way nothing has changed.
   */
  lemma {:induction false} RefusedExactly(c: Dict, envelope: Json, now: ClockStamp, ids: nat -> Uuid)
    ensures envelope.Obj? && !Current(envelope) ==> ApplyControlDelta(c, envelope, now, ids) == Done(c)
    ensures !envelope.Obj? || (Current(envelope) && forall delta :: !SpellsDelta(envelope, delta)) ==>
              ApplyControlDelta(c, envelope, now, ids) == Raised(c)
    ensures forall delta |
              SpellsDelta(envelope, delta) && (delta.ops.NullGiven? || AimsElsewhere(delta, now.runtimeId)) ::
              ApplyControlDelta(c, envelope, now, ids) == Raised(c)
    ensures Admitted(envelope, now) <==>
            exists delta :: SpellsDelta(envelope, delta) &&
                            !delta.ops.NullGiven? && !AimsElsewhere(delta, now.runtimeId)
  {
    forall delta ensures Decode(envelope) == Some(delta) <==> SpellsDelta(envelope, delta) {
      DecodeExactly(envelope, delta);
    }
    if envelope.Obj? {
      VersionIsCurrent(envelope);
    }
    if Decode(envelope).Some? {
      assert SpellsDelta(envelope, Decode(envelope).value);
    }
  }
}
