/**
 Whole envelopes: what one leaves alone, when two commute, when the order of
 `set` and `ops` can be seen, and what the timer operations keep in step.
 */
module ControlWriters {
  import opened Wrappers
  import opened JsonValues
  import opened JsonTrees
  import opened ClockDomain
  import opened Timers
  import opened ControlDeltas
  import opened ControlFootprints

  // ---------------------------------------------------------------- nothing outside the footprint

  /** The notify entry at an index, when there is one. */
  function EntryAt(c: Dict, i: nat): Option<Json> {
    if "notify_data" in c && c["notify_data"].Arr? && i < |c["notify_data"].items| then Some(c["notify_data"].items[i])
    else None
  }

  ghost predicate AvoidsStep(p: Prim, c: Dict, s: Region) {
    forall r :: Touches(p, c, r) ==> !Clash(r, s)
  }

  ghost predicate PrimsAvoid(prims: seq<Prim>, c: Dict, now: ClockStamp, s: Region)
    requires AllWellFormed(prims)
  {
    forall r :: RunTouches(prims, c, now, r) ==> !Clash(r, s)
  }

  /** What a region holds. */
  function Content(c: Dict, s: Region): Option<Json> {
    match s
    case Member(path) => Lookup(Obj(c), path)
    case Entry(i) => EntryAt(c, i)
  }

  lemma {:induction false} StepKeepsTheRest(p: Prim, c: Dict, now: ClockStamp, s: Region)
    requires WellFormed(p) && AvoidsStep(p, c, s) && Do(p, c, now).Done? && (s.Member? ==> s.path != [])
    ensures Content(Do(p, c, now).control, s) == Content(c, s)
  {
    match p
    case AssignTree(values) =>
      var q := if s.Member? then s.path else ["notify_data"];
      forall x | IsLeaf(values, x) ensures !Comparable(x, q) {
        assert Touches(p, c, Member(x));
      }
      DeepAssignFrame(c, values, q);
      LookupTop(c, "notify_data");
      LookupTop(DeepAssign(c, values), "notify_data");
    case RemovePath(path) =>
      assert Touches(p, c, Member(path));
      var q := if s.Member? then s.path else ["notify_data"];
      DeleteFrame(c, path, q);
      LookupTop(c, "notify_data");
      LookupTop(DeletePath(c, path), "notify_data");
    case IterateNull =>
    case PerformOp(op, freshId) =>
      OpKeepsTheRest(p, c, now, s);
  }

  lemma {:induction false} LookupTop(c: Dict, k: string)
    ensures Lookup(Obj(c), [k]) == if k in c then Some(c[k]) else None
  {
  }

  lemma {:induction false} MemberTouched(p: Prim, c: Dict, k: string)
    requires p.PerformOp? && k in OpMembers(p.op) && k != "notify_data"
    ensures Touches(p, c, Member([k]))
  {
  }

  lemma {:induction false} OpKeepsTheRest(p: Prim, c: Dict, now: ClockStamp, s: Region)
    requires p.PerformOp? && AvoidsStep(p, c, s) && Do(p, c, now).Done? && (s.Member? ==> s.path != [])
    ensures Content(Do(p, c, now).control, s) == Content(c, s)
  {
    StepIsLocal(p, c, c, now);
    var after := Do(p, c, now).control;
    var k := if s.Member? then s.path[0] else "notify_data";
    assert s.Member? ==> [k] <= s.path;
    if k in OpMembers(p.op) {
      if k != "notify_data" {
        MemberTouched(p, c, k);
      } else {
        var i := PatchedEntry(p.op, c);
        var r := if i.At? then Entry(i.index) else Member([k]);
        assert Touches(p, c, r) && !Clash(r, s);
        EntryOpIsPatch(p.op, c, now, p.freshId);
      }
    }
  }

  /** An accepted run of steps changes nothing outside its footprint. */
  lemma {:induction false} RunKeepsTheRest(prims: seq<Prim>, c: Dict, now: ClockStamp, s: Region)
    requires AllWellFormed(prims) && PrimsAvoid(prims, c, now, s) && RunPrims(prims, c, now).Done?
    requires s.Member? ==> s.path != []
    ensures Content(RunPrims(prims, c, now).control, s) == Content(c, s)
    decreases |prims|
  {
    if prims != [] {
      var next := Do(prims[0], c, now).control;
      forall r | Touches(prims[0], c, r) ensures !Clash(r, s) {
        assert RunTouches(prims, c, now, r);
      }
      StepKeepsTheRest(prims[0], c, now, s);
      forall r | RunTouches(prims[1..], next, now, r) ensures !Clash(r, s) {
        assert RunTouches(prims, c, now, r);
      }
      RunKeepsTheRest(prims[1..], next, now, s);
    }
  }

  // ---------------------------------------------------------------- two writers

  ghost predicate Apart(a: seq<Prim>, b: seq<Prim>, c: Dict, now: ClockStamp)
    requires AllWellFormed(a) && AllWellFormed(b)
  {
    forall r, s :: RunTouches(a, c, now, r) && RunTouches(b, c, now, s) ==> !Clash(r, s)
  }

  ghost predicate StepApart(p: Prim, a: seq<Prim>, c: Dict, now: ClockStamp)
    requires AllWellFormed(a)
  {
    forall r, s :: Touches(p, c, r) && RunTouches(a, c, now, s) ==> !Clash(r, s)
  }

  ghost predicate SameFootprint(a: seq<Prim>, c: Dict, d: Dict, now: ClockStamp)
    requires AllWellFormed(a)
  {
    forall r :: RunTouches(a, c, now, r) <==> RunTouches(a, d, now, r)
  }

  /** A step that is independent of a whole run can be taken after the run instead of before it. */
  lemma {:induction false} StepPassesRun(p: Prim, a: seq<Prim>, c: Dict, now: ClockStamp)
    requires WellFormed(p) && AllWellFormed(a) && StepApart(p, a, c, now)
    requires Do(p, c, now).Done? && RunPrims(a, c, now).Done?
    ensures RunPrims(a, Do(p, c, now).control, now).Done?
    ensures Do(p, RunPrims(a, c, now).control, now) == RunPrims(a, Do(p, c, now).control, now)
    ensures SameFootprint(a, c, Do(p, c, now).control, now)
    ensures forall r :: Touches(p, RunPrims(a, c, now).control, r) <==> Touches(p, c, r)
    decreases |a|
  {
    var x := Do(p, c, now).control;
    if a == [] {
    } else {
      var q := a[0];
      var y := Do(q, c, now).control;
      forall r, s | Touches(p, c, r) && Touches(q, c, s) ensures !Clash(r, s) {
        assert RunTouches(a, c, now, s);
      }
      IndependentStepsSwap(p, q, c, now);
      forall r, s | Touches(p, y, r) && RunTouches(a[1..], y, now, s) ensures !Clash(r, s) {
        assert Touches(p, c, r) && RunTouches(a, c, now, s);
      }
      StepPassesRun(p, a[1..], y, now);
      assert Do(q, x, now).control == Do(p, y, now).control;
    }
  }

  lemma {:induction false} RunsCommute(a: seq<Prim>, b: seq<Prim>, c: Dict, now: ClockStamp)
    requires AllWellFormed(a) && AllWellFormed(b) && Apart(a, b, c, now)
    requires RunPrims(a, c, now).Done? && RunPrims(b, c, now).Done?
    ensures RunPrims(b, RunPrims(a, c, now).control, now).Done?
    ensures RunPrims(a, RunPrims(b, c, now).control, now) == RunPrims(b, RunPrims(a, c, now).control, now)
    decreases |b|
  {
    if b != [] {
      var p := b[0];
      var x := Do(p, c, now).control;
      forall r, s | Touches(p, c, r) && RunTouches(a, c, now, s) ensures !Clash(r, s) {
        assert RunTouches(b, c, now, r) && !Clash(s, r);
      }
      StepPassesRun(p, a, c, now);
      forall r, s | RunTouches(a, x, now, r) && RunTouches(b[1..], x, now, s) ensures !Clash(r, s) {
        assert RunTouches(a, c, now, r) && RunTouches(b, c, now, s);
      }
      RunsCommute(a, b[1..], x, now);
    }
  }

  // ---------------------------------------------------------------- envelopes

  /** The steps of an admitted envelope. */
  function StepsOf(envelope: Json, ids: nat -> Uuid): (steps: seq<Prim>)
    requires Decode(envelope).Some?
    ensures AllWellFormed(steps)
  {
    StepsWellFormed(envelope, ids);
    Steps(Decode(envelope).value, ids)
  }

  predicate Accepted(c: Dict, envelope: Json, now: ClockStamp, ids: nat -> Uuid) {
    Admitted(envelope, now) && ApplyControlDelta(c, envelope, now, ids).Done?
  }

  lemma {:induction false} AcceptedRuns(c: Dict, envelope: Json, now: ClockStamp, ids: nat -> Uuid)
    requires Admitted(envelope, now)
    ensures ApplyControlDelta(c, envelope, now, ids) == RunPrims(StepsOf(envelope, ids), c, now)
  {
  }

  /** The places an accepted envelope reads or writes when it meets the state `c`. */
  predicate Footprint(c: Dict, envelope: Json, now: ClockStamp, ids: nat -> Uuid, r: Region) {
    Decode(envelope).Some? && RunTouches(StepsOf(envelope, ids), c, now, r)
  }

  /** An accepted envelope leaves every path and every notify entry outside its footprint as it was. */
  lemma {:induction false} EnvelopeKeepsTheRest(c: Dict, envelope: Json, now: ClockStamp, ids: nat -> Uuid, s: Region)
    requires Accepted(c, envelope, now, ids) && (s.Member? ==> s.path != [])
    requires forall r :: Footprint(c, envelope, now, ids, r) ==> !Clash(r, s)
    ensures Content(ApplyControlDelta(c, envelope, now, ids).control, s) == Content(c, s)
  {
    AcceptedRuns(c, envelope, now, ids);
    assert forall r :: RunTouches(StepsOf(envelope, ids), c, now, r) ==> Footprint(c, envelope, now, ids, r);
    RunKeepsTheRest(StepsOf(envelope, ids), c, now, s);
  }

  ghost predicate Disjoint(
    c: Dict, a: Json, idsA: nat -> Uuid, b: Json, idsB: nat -> Uuid, now: ClockStamp)
  {
    forall r, s :: Footprint(c, a, now, idsA, r) && Footprint(c, b, now, idsB, s) ==> !Clash(r, s)
  }

  /** Two accepted envelopes with disjoint footprints are both accepted in either order, with the same result. */
  lemma {:induction false} EnvelopesCommute(
    c: Dict, a: Json, idsA: nat -> Uuid, b: Json, idsB: nat -> Uuid, now: ClockStamp)
    requires Accepted(c, a, now, idsA) && Accepted(c, b, now, idsB) && Disjoint(c, a, idsA, b, idsB, now)
    ensures var x, y := ApplyControlDelta(c, a, now, idsA).control, ApplyControlDelta(c, b, now, idsB).control;
            && Accepted(x, b, now, idsB) && Accepted(y, a, now, idsA)
            && ApplyControlDelta(x, b, now, idsB).control == ApplyControlDelta(y, a, now, idsA).control
  {
    AcceptedRuns(c, a, now, idsA);
    AcceptedRuns(c, b, now, idsB);
    forall r, s | RunTouches(StepsOf(a, idsA), c, now, r) && RunTouches(StepsOf(b, idsB), c, now, s)
      ensures !Clash(r, s)
    {
      assert Footprint(c, a, now, idsA, r) && Footprint(c, b, now, idsB, s);
    }
    RunsCommute(StepsOf(a, idsA), StepsOf(b, idsB), c, now);
    AcceptedRuns(ApplyControlDelta(c, a, now, idsA).control, b, now, idsB);
    AcceptedRuns(ApplyControlDelta(c, b, now, idsB).control, a, now, idsA);
  }

  // ---------------------------------------------------------------- `set` against `ops`

  /** The values of `set` and a run of operations give one outcome in both orders, raising included. */
  ghost predicate OrderHidden(values: Dict, ops: seq<Prim>, c: Dict, now: ClockStamp)
    requires AllWellFormed(ops)
  {
    var setFirst, opsFirst := RunPrims(ops, DeepAssign(c, values), now), RunPrims(ops, c, now);
    (setFirst.Done? <==> opsFirst.Done?) && setFirst.control == DeepAssign(opsFirst.control, values)
  }

  /** The order of one step and an assignment to members it does not work on. */
  lemma {:induction false} StepBesideSet(values: Dict, p: Prim, c: Dict, now: ClockStamp)
    requires WellFormed(p) && p.PerformOp? && OpMembers(p.op) !! values.Keys
    ensures Do(p, DeepAssign(c, values), now).Done? <==> Do(p, c, now).Done?
    ensures Do(p, DeepAssign(c, values), now).control == DeepAssign(Do(p, c, now).control, values)
  {
    var d, x := DeepAssign(c, values), Do(p, c, now).control;
    assert Agree(Keys(p), c, d);
    StepIsLocal(p, c, d, now);
    StepIsLocal(p, d, d, now);
    AssignIsLocal(values, c, c);
    assert Agree(values.Keys, c, x);
    AssignIsLocal(values, c, x);
    AssignIsLocal(values, x, x);
    MembersMerge(Keys(p), values.Keys, c, x, d, DeepAssign(x, values), Do(p, d, now).control);
  }

  /** Operations whose turn comes work on none of the members that `set` carries. */
  ghost predicate TurnsAvoid(members: set<string>, ops: seq<Prim>, c: Dict, now: ClockStamp)
    requires AllWellFormed(ops)
  {
    forall i | 0 <= i < |ops| && RunPrims(ops[..i], c, now).Done? ::
      ops[i].PerformOp? && OpMembers(ops[i].op) !! members
  }

  lemma {:induction false} OrderHiddenWhenDisjoint(values: Dict, ops: seq<Prim>, c: Dict, now: ClockStamp)
    requires AllWellFormed(ops) && TurnsAvoid(values.Keys, ops, c, now)
    ensures OrderHidden(values, ops, c, now)
    decreases |ops|
  {
    if ops != [] {
      var p := ops[0];
      assert RunPrims(ops[..0], c, now).Done?;
      StepBesideSet(values, p, c, now);
      if Do(p, c, now).Done? {
        var next := Do(p, c, now).control;
        forall i | 0 <= i < |ops[1..]| && RunPrims(ops[1..][..i], next, now).Done?
          ensures ops[1..][i].PerformOp? && OpMembers(ops[1..][i].op) !! values.Keys
        {
          assert ops[..i + 1][0] == p && ops[..i + 1][1..] == ops[1..][..i];
          assert RunPrims(ops[..i + 1], c, now).Done?;
        }
        OrderHiddenWhenDisjoint(values, ops[1..], next, now);
      }
    }
  }

  /** Envelopes whose operations are all timer.* or notify.*: validation keeps `set` away from their members. */
  lemma {:induction false} TimerAndNotifyOrderHidden(envelope: Json, ids: nat -> Uuid, c: Dict, now: ClockStamp)
    requires Decode(envelope).Some?
    requires var delta := Decode(envelope).value;
             delta.setValues.Given? && delta.ops.Given? &&
             forall i | 0 <= i < |delta.ops.value| :: delta.ops.value[i].IsTimer() || delta.ops.value[i].IsNotify()
    ensures var delta := Decode(envelope).value;
            AllWellFormed(OpSteps(delta, ids)) && OrderHidden(delta.setValues.value, OpSteps(delta, ids), c, now)
  {
    StepsWellFormed(envelope, ids);
    var delta := Decode(envelope).value;
    OrderHiddenWhenDisjoint(delta.setValues.value, OpSteps(delta, ids), c, now);
  }

  // ---------------------------------------------------------------- timer and notify list

  /**
   After an accepted timer operation the stored timer is a record the parser
   admits, the first timer entry is still the same one, and its `req` says
   exactly whether the timer runs.
   */
  lemma {:induction false} TimerOpKeepsStep(c: Dict, op: Op, now: ClockStamp, freshId: Uuid)
    requires op.IsTimer() && ApplyOp(c, op, now, freshId).Done?
    ensures var after := ApplyOp(c, op, now, freshId).control;
            && StoredTimer(after).Success?
            && Find(after, TimerKind) == Find(c, TimerKind)
            && (Find(after, TimerKind).At? ==>
                  Get(after["notify_data"].items[Find(after, TimerKind).index].members, "req") ==
                  Bool(StoredTimer(after).value.state.Running?))
  {
    var after := ApplyOp(c, op, now, freshId).control;
    var t := TimerOpStores(c, op, now, freshId);
    ParseTimerRoundTrip(t);
    assert StoredTimer(after) == Success(t);
    if Find(c, TimerKind).At? {
      EntryOpIsPatch(op, c, now, freshId);
      assert EntryFields(op)["req"] == Bool(t.state.Running?);
      PatchedField(c["timer" := after["timer"]], Find(c, TimerKind).index, EntryFields(op), "req");
    }
  }

  lemma {:induction false} PatchedField(c: Dict, i: nat, fields: Dict, key: string)
    requires "notify_data" in c && c["notify_data"].Arr?
    requires i < |c["notify_data"].items| && c["notify_data"].items[i].Obj? && key in fields
    ensures Get(Patch(c, i, fields)["notify_data"].items[i].members, key) == fields[key]
  {
  }

  /** The record an accepted timer operation stores. */
  lemma {:induction false} TimerOpStores(c: Dict, op: Op, now: ClockStamp, freshId: Uuid) returns (t: TimerRecord)
    requires op.IsTimer() && ApplyOp(c, op, now, freshId).Done?
    ensures Admissible(t)
    ensures var after := ApplyOp(c, op, now, freshId).control; "timer" in after && after["timer"] == EncodeTimer(t)
    ensures t.state.Running? <==> op.TimerStartOrResume? || op.TimerStartWithOptions?
  {
    t := DEFAULT_TIMER;
    if !op.TimerClear? {
      ParseTimerAdmits(c["timer"]);
      var before := StoredTimer(c).value;
      if op.TimerPause? {
        t := PauseTimer(before, now, false);
        StepsStayAdmissible(before, now, 0.0, freshId, false);
      } else if op.TimerStartWithOptions? {
        t := StartTimer(op.duration, now, freshId).value;
      } else if before.state.Paused? || before.state.Interrupted? {
        t := ResumeTimer(before, now, freshId).value;
      } else {
        t := StartTimer(if op.seconds.Some? then op.seconds.value else DEFAULT_TIMER_SECONDS, now, freshId).value;
      }
    }
  }
}
