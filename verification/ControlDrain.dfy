/**
 The imperative side of control writes: the live dictionary that one envelope
 mutates in place, and the drain that applies queued envelopes to durable
 storage, one transaction each.
 */
module ControlDrain {
  import opened Wrappers
  import opened JsonValues
  import opened JsonTrees
  import opened ClockDomain
  import opened Timers
  import opened ControlDeltas
  import opened ControlFootprints
  import opened ControlWriters

  /** What a call that returned or raised left behind. */
  function Outcome(ok: bool, members: Dict): Applied {
    if ok then Done(members) else Raised(members)
  }

  /** `_deep_assign`, one member after another in whatever order the mapping yields them. */
  method MergeInto(target: Dict, values: Dict) returns (merged: Dict)
    ensures merged == DeepAssign(target, values)
    decreases Obj(values)
  {
    merged := target;
    var rest := values.Keys;
    while rest != {}
      invariant rest <= values.Keys
      invariant merged.Keys == target.Keys + (values.Keys - rest)
      invariant forall k | k in merged :: merged[k] == if k in rest then target[k] else DeepAssign(target, values)[k]
      decreases rest
    {
      var key :| key in rest;
      assert values[key] < Obj(values);
      if values[key].Obj? && key in merged && merged[key].Obj? {
        var inner := MergeInto(merged[key].members, values[key].members);
        merged := merged[key := Obj(inner)];
      } else {
        merged := merged[key := values[key]];
      }
      rest := rest - {key};
    }
  }

  class LiveControl {
    var members: Dict

    constructor (members: Dict)
      ensures this.members == members
    {
      this.members := members;
    }

    /** Look for the timer entry after the timer was replaced; a list that cannot be searched raises here. */
    method PatchTimerEntry(fields: Dict) returns (ok: bool)
      modifies this
      ensures ok <==> !Find(old(members), TimerKind).NotIterable?
      ensures members == if Find(old(members), TimerKind).At?
                         then Patch(old(members), Find(old(members), TimerKind).index, fields) else old(members)
    {
      var found := Find(members, TimerKind);
      ok := !found.NotIterable?;
      if found.At? {
        members := Patch(members, found.index, fields);
      }
    }

    method PerformTimer(op: Op, now: ClockStamp, freshId: Uuid) returns (ok: bool)
      requires op.IsTimer()
      modifies this
      ensures Outcome(ok, members) == ApplyTimerOp(old(members), op, now, freshId)
    {
      var next, fields := DEFAULT_TIMER, OptionFields(false, false, false);
      if !op.TimerClear? {
        if "timer" !in members || ParseTimer(members["timer"]).Failure? {
          return false;
        }
        var timer := ParseTimer(members["timer"]).value;
        if op.TimerPause? {
          next, fields := PauseTimer(timer, now, false), ReqField(false);
        } else {
          var started;
          if op.TimerStartWithOptions? {
            if timer.state.Paused? || (timer.state.Interrupted? && timer.remaining.Some?) {
              return false;
            }
            started := StartTimer(op.duration, now, freshId);
            fields := OptionFields(true, op.shutdown, op.keepWarm);
          } else {
            if timer.state.Paused? || timer.state.Interrupted? {
              started := ResumeTimer(timer, now, freshId);
            } else {
              started := StartTimer(if op.seconds.Some? then op.seconds.value else DEFAULT_TIMER_SECONDS, now, freshId);
            }
            fields := ReqField(true);
          }
          if started.Failure? {
            return false;
          }
          next := started.value;
        }
      }
      members := members["timer" := EncodeTimer(next)];
      FindIsLocal(old(members), members, TimerKind);
      ok := PatchTimerEntry(fields);
    }

    method PerformNotify(op: Op) returns (ok: bool)
      requires op.IsNotify()
      modifies this
      ensures Outcome(ok, members) == ApplyNotifyOp(old(members), op)
    {
      ok := true;
      if op.NotifyReplace? {
        members := members["notify_data" := Arr(op.entries)];
        return;
      }
      var found := Find(members, Labelled(op.entryLabel, op.kind));
      match found {
        case NotIterable =>
          ok := false;
        case At(i) =>
          if op.NotifySet? {
            members := Patch(members, i, op.fields);
          } else {
            var items := members["notify_data"].items;
            members := members["notify_data" := Arr(items[..i] + items[i + 1..])];
          }
        case Missing =>
          if op.NotifySet? {
            var items := if "notify_data" in members then members["notify_data"] else Arr([]);
            if items.Arr? {
              var entry := Obj(map["label" := op.entryLabel, "type" := op.kind] + op.fields);
              members := members["notify_data" := Arr(items.items + [entry])];
            } else {
              ok := false;
            }
          }
      }
    }

    method Perform(op: Op, now: ClockStamp, freshId: Uuid) returns (ok: bool)
      modifies this
      ensures Outcome(ok, members) == ApplyOp(old(members), op, now, freshId)
    {
      ok := true;
      if op.IsTimer() {
        ok := PerformTimer(op, now, freshId);
      } else if op.IsNotify() {
        ok := PerformNotify(op);
      } else if op.CalibrationSet? {
        var previous := Get(members, "mpc_calibration");
        if previous.Null? {
          members := members["mpc_calibration" := EncodeCommand(op.command)];
        } else if previous.Obj? && Get(previous.members, "revision").Int? {
          if op.command.revision > Get(previous.members, "revision").i {
            members := members["mpc_calibration" := EncodeCommand(op.command)];
          }
        }
      } else {
        if Get(members, "mode") != Str("Hold") {
          members := members["mode" := Str("Hold")];
          members := members["updated" := Bool(true)];
        }
        members := members["primary_setpoint" := op.setpoint];
      }
    }

    method PerformAll(ops: seq<Op>, now: ClockStamp, ids: nat -> Uuid) returns (ok: bool)
      modifies this
      ensures Outcome(ok, members) == RunPrims(Performs(ops, ids), old(members), now)
    {
      ghost var prims := Performs(ops, ids);
      for i := 0 to |ops|
        invariant RunPrims(prims, old(members), now) == RunPrims(prims[i..], members, now)
      {
        assert prims[i] == PerformOp(ops[i], ids(i)) && prims[i..][1..] == prims[i + 1..];
        ok := Perform(ops[i], now, ids(i));
        if !ok {
          return;
        }
      }
      ok := true;
    }

    method DeleteAll(paths: seq<Path>, ghost now: ClockStamp)
      requires forall i | 0 <= i < |paths| :: paths[i] != []
      modifies this
      ensures RunPrims(Removals(paths), old(members), now) == Done(members)
    {
      ghost var prims := Removals(paths);
      for i := 0 to |paths|
        invariant RunPrims(prims, old(members), now) == RunPrims(prims[i..], members, now)
      {
        assert prims[i] == RemovePath(paths[i]) && prims[i..][1..] == prims[i + 1..];
        members := DeletePath(members, paths[i]);
      }
    }

    method AssignAll(setValues: Field<Dict>, ghost now: ClockStamp) returns (ok: bool)
      requires setValues.Given? ==> setValues.value.Keys !! SET_FORBIDDEN
      modifies this
      ensures Outcome(ok, members) == RunPrims(SetSteps(Delta(setValues, Absent, Absent)), old(members), now)
    {
      ok := !setValues.NullGiven?;
      if setValues.Given? {
        members := MergeInto(members, setValues.value);
        assert RunPrims([], members, now) == Done(members);
      }
    }

    /** `apply_control_delta`: the dictionary ends as the specification says, also when the call raises. */
    method Apply(envelope: Json, now: ClockStamp, ids: nat -> Uuid) returns (ok: bool)
      modifies this
      ensures Outcome(ok, members) == ApplyControlDelta(old(members), envelope, now, ids)
    {
      if !envelope.Obj? {
        return false;
      }
      if !PyEq(Get(envelope.members, CONTROL_DELTA_KEY), Int(CONTROL_DELTA_VERSION)) {
        return true;
      }
      var decoded := Decode(envelope);
      if decoded.None? || decoded.value.ops.NullGiven? {
        return false;
      }
      var delta := decoded.value;
      var ops: seq<Op> := if delta.ops.Given? then delta.ops.value else [];
      if exists i | 0 <= i < |ops| :: Retired(ops[i], now) {
        return false;
      }
      StepsWellFormed(envelope, ids);
      assert SetSteps(delta) == SetSteps(Delta(delta.setValues, Absent, Absent));
      assert OpSteps(delta, ids) == Performs(ops, ids);
      RunConcat(SetSteps(delta), OpSteps(delta, ids), members, now);
      RunConcat(SetSteps(delta) + OpSteps(delta, ids), DeleteSteps(delta), members, now);
      ok := AssignAll(delta.setValues, now);
      if ok {
        ok := PerformAll(ops, now, ids);
      }
      if ok && delta.deletes.NullGiven? {
        ok := false;
      } else if ok && delta.deletes.Given? {
        DeleteAll(delta.deletes.value, now);
      }
    }
  }

  // ---------------------------------------------------------------- the durable drain

  /** A queued row and the identities `uuid4` would give its operations. */
  datatype Row = Row(command: Json, ids: nat -> Uuid)

  /** One transaction of `execute_control_writes`: the whole envelope, or nothing of it. */
  ghost function DrainRow(durable: Option<Dict>, row: Row, now: ClockStamp, defaults: Dict): Option<Dict> {
    var base := if durable.Some? then durable.value else defaults;
    if Decode(row.command).None? then durable
    else
      match ApplyControlDelta(base, row.command, now, row.ids)
      case Done(control) => Some(control)
      case Raised(_) => durable
  }

  ghost function Drained(durable: Option<Dict>, rows: seq<Row>, now: ClockStamp, defaults: Dict): Option<Dict>
    decreases |rows|
  {
    if rows == [] then durable else Drained(DrainRow(durable, rows[0], now, defaults), rows[1..], now, defaults)
  }

  class ControlDatastore {
    var queue: seq<Row>
    var durable: Option<Dict>

    /** `execute_control_writes`: oldest row first; a rejected row is dropped and leaves storage alone. */
    method ExecuteControlWrites(now: ClockStamp, defaults: Dict)
      modifies this
      ensures queue == []
      ensures durable == Drained(old(durable), old(queue), now, defaults)
    {
      while queue != []
        invariant Drained(old(durable), old(queue), now, defaults) == Drained(durable, queue, now, defaults)
        decreases |queue|
      {
        var row := queue[0];
        if Decode(row.command).Some? {
          var live := new LiveControl(if durable.Some? then durable.value else defaults);
          var ok := live.Apply(row.command, now, row.ids);
          if ok {
            durable := Some(live.members);
          }
        }
        queue := queue[1..];
      }
    }
  }

  /** A drained row either took effect as a whole, exactly when it was accepted, or not at all. */
  lemma {:induction false} DrainIsAtomic(durable: Option<Dict>, row: Row, now: ClockStamp, defaults: Dict)
    ensures var base := if durable.Some? then durable.value else defaults;
            DrainRow(durable, row, now, defaults) ==
            if Accepted(base, row.command, now, row.ids)
            then Some(ApplyControlDelta(base, row.command, now, row.ids).control) else durable
  {
  }

  lemma {:induction false} DrainConcat(durable: Option<Dict>, a: seq<Row>, b: seq<Row>, now: ClockStamp, defaults: Dict)
    ensures Drained(durable, a + b, now, defaults) == Drained(Drained(durable, a, now, defaults), b, now, defaults)
    decreases |a|
  {
    if a == [] {
      assert a + b == b;
    } else {
      assert (a + b)[0] == a[0] && (a + b)[1..] == a[1..] + b;
      DrainConcat(DrainRow(durable, a[0], now, defaults), a[1..], b, now, defaults);
    }
  }

  /** Swapping two neighbouring rows of the queue whose accepted envelopes do not meet cannot be told from storage. */
  lemma {:induction false} NeighboursMaySwap(
    durable: Option<Dict>, before: seq<Row>, a: Row, b: Row, after: seq<Row>, now: ClockStamp, defaults: Dict)
    requires var reached := Drained(durable, before, now, defaults);
             var c := if reached.Some? then reached.value else defaults;
             && Accepted(c, a.command, now, a.ids) && Accepted(c, b.command, now, b.ids)
             && Disjoint(c, a.command, a.ids, b.command, b.ids, now)
    ensures Drained(durable, before + [a, b] + after, now, defaults) ==
            Drained(durable, before + [b, a] + after, now, defaults)
  {
    var reached := Drained(durable, before, now, defaults);
    var c := if reached.Some? then reached.value else defaults;
    EnvelopesCommute(c, a.command, a.ids, b.command, b.ids, now);
    DrainPair(reached, a, b, now, defaults);
    DrainPair(reached, b, a, now, defaults);
    forall pair | pair == [a, b] || pair == [b, a]
      ensures Drained(durable, before + pair + after, now, defaults) ==
              Drained(Drained(reached, pair, now, defaults), after, now, defaults)
    {
      DrainConcat(durable, before, pair, now, defaults);
      DrainConcat(durable, before + pair, after, now, defaults);
    }
  }

  lemma {:induction false} DrainPair(durable: Option<Dict>, a: Row, b: Row, now: ClockStamp, defaults: Dict)
    ensures Drained(durable, [a, b], now, defaults) ==
            DrainRow(DrainRow(durable, a, now, defaults), b, now, defaults)
  {
    var next := DrainRow(durable, a, now, defaults);
    assert [a, b][1..] == [b] && [b][1..] == [];
    assert Drained(durable, [a, b], now, defaults) == Drained(next, [b], now, defaults);
    assert Drained(next, [b], now, defaults) == Drained(DrainRow(next, b, now, defaults), [], now, defaults);
  }
}
