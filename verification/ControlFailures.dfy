/**
 When a control write raises, and what it leaves behind in memory: an envelope
 that raises half way has already done what came before.
 */
module ControlFailures {
  import opened Wrappers
  import opened JsonValues
  import opened JsonTrees
  import opened ClockDomain
  import opened Timers
  import opened UuidTexts
  import TimerRuns
  import opened ControlDeltas
  import opened ControlFootprints
  import opened ControlWriters
  import opened ControlEnvelopes
  import opened ControlMeanings

  // ---------------------------------------------------------------- one timer operation

  /** The record that a timer operation finds. */
  function Current(c: Dict): Option<TimerRecord> {
    match StoredTimer(c)
    case Success(t) => Some(t)
    case Failure(_) => None
  }

  /** On this record the operation raises before it stores anything. */
  predicate BlockedBy(before: Option<TimerRecord>, op: Op, now: ClockStamp)
    requires op.IsTimer()
  {
    if op.TimerClear? then false
    else if before.None? then true
    else
      var t := before.value;
      match op
      case TimerStartOrResume(_, _) => !Known(now) || ((t.state.Paused? || t.state.Interrupted?) && t.remaining.None?)
      case TimerStartWithOptions(_, _, _, _) =>
        !Known(now) || t.state.Paused? || (t.state.Interrupted? && t.remaining.Some?)
      case _ => false
  }

  predicate Blocked(c: Dict, op: Op, now: ClockStamp)
    requires op.IsTimer()
  {
    BlockedBy(Current(c), op, now)
  }

  /** The notify list cannot be searched, which is found out after the new timer was stored. */
  predicate Unsearchable(c: Dict) {
    Find(c, TimerKind).NotIterable?
  }

  /** The record that an operation stores unless it is blocked. */
  function Next(before: Option<TimerRecord>, op: Op, now: ClockStamp, freshId: Uuid): TimerRecord
    requires op.IsTimer() && !BlockedBy(before, op, now)
  {
    if op.TimerClear? then DEFAULT_TIMER
    else TimerRuns.Step(before.value, TimerRuns.Tick(TimerEvent(op, before.value, freshId), now)).0
  }

  function NextTimer(c: Dict, op: Op, now: ClockStamp, freshId: Uuid): TimerRecord
    requires op.IsTimer() && !Blocked(c, op, now)
  {
    Next(Current(c), op, now, freshId)
  }

  lemma {:induction false} StartNeedsClock(seconds: real, now: ClockStamp, freshId: Uuid)
    requires seconds >= 0.0
    ensures StartTimer(seconds, now, freshId).Success? <==> Known(now)
  {
    AgeMeaning(now, now);
  }

  /** An operation that is not blocked stores its timer and then raises if the notify list cannot be searched. */
  lemma {:induction false} UnblockedStores(c: Dict, op: Op, now: ClockStamp, freshId: Uuid)
    requires op.IsTimer() && ValidOp(op) && !Blocked(c, op, now)
    ensures ApplyTimerOp(c, op, now, freshId) == StoreTimer(c, NextTimer(c, op, now, freshId), EntryFields(op))
  {
    var next := NextTimer(c, op, now, freshId);
    if op.TimerClear? {
      assert ApplyTimerOp(c, op, now, freshId) == StoreTimer(c, next, OptionFields(false, false, false));
    } else {
      var t := StoredTimer(c).value;
      ParseTimerAdmits(c["timer"]);
      if op.TimerPause? {
        assert ApplyTimerOp(c, op, now, freshId) == StoreTimer(c, next, ReqField(false));
      } else if op.TimerStartWithOptions? {
        StartNeedsClock(op.duration, now, freshId);
        assert ApplyTimerOp(c, op, now, freshId) == StoreTimer(c, next, OptionFields(true, op.shutdown, op.keepWarm));
      } else {
        StartNeedsClock(if t.state.Paused? || t.state.Interrupted? then t.remaining.value
                        else if op.seconds.Some? then op.seconds.value else DEFAULT_TIMER_SECONDS, now, freshId);
        assert ApplyTimerOp(c, op, now, freshId) == StoreTimer(c, next, ReqField(true));
      }
    }
  }

  lemma {:induction false} BlockedRaises(c: Dict, op: Op, now: ClockStamp, freshId: Uuid)
    requires op.IsTimer() && ValidOp(op) && Blocked(c, op, now)
    ensures ApplyTimerOp(c, op, now, freshId) == Raised(c)
  {
    if StoredTimer(c).Success? {
      var t := StoredTimer(c).value;
      ParseTimerAdmits(c["timer"]);
      if op.TimerStartWithOptions? {
        StartNeedsClock(op.duration, now, freshId);
      } else if t.state.Paused? || t.state.Interrupted? {
        if t.remaining.Some? {
          StartNeedsClock(t.remaining.value, now, freshId);
        }
      } else {
        StartNeedsClock(if op.seconds.Some? then op.seconds.value else DEFAULT_TIMER_SECONDS, now, freshId);
      }
    }
  }

  /**
   A valid timer operation raises exactly when it is blocked, and then changes
   nothing, or when the notify list cannot be searched, and then leaves the new
   timer stored.
   */
  lemma {:induction false} TimerOpRaises(c: Dict, op: Op, now: ClockStamp, freshId: Uuid)
    requires op.IsTimer() && ValidOp(op)
    ensures var outcome := ApplyTimerOp(c, op, now, freshId);
            && (outcome.Raised? <==> Blocked(c, op, now) || Unsearchable(c))
            && (outcome.Raised? ==>
                  outcome.control == if Blocked(c, op, now) then c
                                     else c["timer" := EncodeTimer(NextTimer(c, op, now, freshId))])
  {
    if Blocked(c, op, now) {
      BlockedRaises(c, op, now, freshId);
    } else {
      UnblockedStores(c, op, now, freshId);
    }
  }

  // ---------------------------------------------------------------- `set` and timer operations

  const TIMER_MEMBERS: set<string> := {"timer", "notify_data"}

  predicate TimerOps(prims: seq<Prim>) {
    forall i | 0 <= i < |prims| :: prims[i].PerformOp? && prims[i].op.IsTimer()
  }

  lemma {:induction false} TimerOpsAreLocal(prims: seq<Prim>, c: Dict, now: ClockStamp)
    requires AllWellFormed(prims) && TimerOps(prims)
    ensures SameOutside(TIMER_MEMBERS, c, RunPrims(prims, c, now).control)
    decreases |prims|
  {
    if prims != [] {
      StepIsLocal(prims[0], c, c, now);
      if Do(prims[0], c, now).Done? {
        TimerOpsAreLocal(prims[1..], Do(prims[0], c, now).control, now);
      }
    }
  }

  /**
   After values outside the timer's members were assigned, the state is `c` exactly
   when both halves left `c` alone.
   */
  lemma {:induction false} BothHalvesShow(c: Dict, z: Dict, values: Dict)
    requires values.Keys !! SET_FORBIDDEN && SameOutside(TIMER_MEMBERS, c, z)
    ensures DeepAssign(z, values) == c <==> AllInPlace(c, values) && z == c
  {
    AssignChangesNothing(c, values);
    if DeepAssign(z, values) == c {
      forall k ensures (k in z <==> k in c) && (k in z ==> z[k] == c[k]) {
        if k in TIMER_MEMBERS {
          assert k !in values;
          assert k in z <==> k in DeepAssign(z, values);
        }
      }
      assert z == c;
    }
  }

  /** The write sets values and performs timer operations, nothing else. */
  predicate SetsAndTimes(delta: Delta) {
    && delta.setValues.Given? && delta.ops.Given? && delta.deletes.Absent?
    && forall i | 0 <= i < |delta.ops.value| :: delta.ops.value[i].IsTimer()
  }

  lemma {:induction false} SetThenOps(c: Dict, envelope: Json, now: ClockStamp, ids: nat -> Uuid)
    requires Admitted(envelope, now) && SetsAndTimes(Decode(envelope).value)
    ensures var delta := Decode(envelope).value;
            && AllWellFormed(OpSteps(delta, ids))
            && ApplyControlDelta(c, envelope, now, ids) ==
               RunPrims(OpSteps(delta, ids), DeepAssign(c, delta.setValues.value), now)
  {
    var delta := Decode(envelope).value;
    StepsWellFormed(envelope, ids);
    var sets, ops := SetSteps(delta), OpSteps(delta, ids);
    assert Steps(delta, ids) == sets + ops;
    assert sets[1..] == [];
    RunConcat(sets, ops, c, now);
  }

  // ---------------------------------------------------------------- a run of timer operations

  predicate ValidTimerOps(prims: seq<Prim>) {
    TimerOps(prims) && forall i | 0 <= i < |prims| :: ValidOp(prims[i].op)
  }

  /** How many operations of a run store their record before one is blocked. */
  function Unblocked(before: Option<TimerRecord>, prims: seq<Prim>, now: ClockStamp): (n: nat)
    requires TimerOps(prims)
    ensures n <= |prims|
    decreases |prims|
  {
    if prims == [] || BlockedBy(before, prims[0].op, now) then 0
    else 1 + Unblocked(Some(Next(before, prims[0].op, now, prims[0].freshId)), prims[1..], now)
  }

  /** The record after the operations of a run, up to a blocked one. */
  function LastTimer(before: Option<TimerRecord>, prims: seq<Prim>, now: ClockStamp): Option<TimerRecord>
    requires TimerOps(prims)
    decreases |prims|
  {
    if prims == [] || BlockedBy(before, prims[0].op, now) then before
    else LastTimer(Some(Next(before, prims[0].op, now, prims[0].freshId)), prims[1..], now)
  }

  /** What a run writes into the timer's notify entry. */
  function RunFields(prims: seq<Prim>): Dict
    requires TimerOps(prims)
    decreases |prims|
  {
    if prims == [] then map[] else EntryFields(prims[0].op) + RunFields(prims[1..])
  }

  /** A new record, and new fields in the timer's notify entry if there is one. */
  function WithTimer(c: Dict, t: TimerRecord, fields: Dict): Dict {
    var stored := c["timer" := EncodeTimer(t)];
    if Find(c, TimerKind).At? then Patch(stored, Find(c, TimerKind).index, fields) else stored
  }

  /** How many operations of a run store their record: after the first one an unsearchable list raises. */
  function Stores(c: Dict, prims: seq<Prim>, now: ClockStamp): (n: nat)
    requires TimerOps(prims)
    ensures n <= |prims|
  {
    var n := Unblocked(Current(c), prims, now);
    if Unsearchable(c) && n > 0 then 1 else n
  }

  /** The state after a run whose operations all store their record. */
  function Left(c: Dict, prims: seq<Prim>, now: ClockStamp): Dict
    requires TimerOps(prims)
  {
    var last := LastTimer(Current(c), prims, now);
    if prims == [] || last.None? then c else WithTimer(c, last.value, RunFields(prims))
  }

  lemma {:induction false} OneStored(c: Dict, op: Op, now: ClockStamp, freshId: Uuid)
    requires op.IsTimer() && ValidOp(op) && !Unsearchable(c) && !Blocked(c, op, now)
    ensures var next := NextTimer(c, op, now, freshId);
            var after := WithTimer(c, next, EntryFields(op));
            && ApplyTimerOp(c, op, now, freshId) == Done(after)
            && Current(after) == Some(next) && Find(after, TimerKind) == Find(c, TimerKind)
  {
    UnblockedStores(c, op, now, freshId);
    TimerOpIsStep(c, op, now, freshId);
    if Find(c, TimerKind).At? {
      var stored := c["timer" := EncodeTimer(NextTimer(c, op, now, freshId))];
      PatchKeepsFind(stored, Find(c, TimerKind).index, EntryFields(op), TimerKind);
    }
  }

  lemma {:induction false} PatchTwice(c: Dict, i: nat, f: Dict, g: Dict)
    requires "notify_data" in c && c["notify_data"].Arr?
    requires i < |c["notify_data"].items| && c["notify_data"].items[i].Obj?
    ensures Patch(Patch(c, i, f), i, g) == Patch(c, i, f + g)
  {
    var items := c["notify_data"].items;
    var once, both := Obj(items[i].members + f), Obj(items[i].members + (f + g));
    assert (items[i].members + f) + g == items[i].members + (f + g);
    assert items[i := once][i := both] == items[i := both];
  }

  lemma {:induction false} StoredTwice(c: Dict, t: TimerRecord, f: Dict, u: TimerRecord, g: Dict)
    requires Find(WithTimer(c, t, f), TimerKind) == Find(c, TimerKind)
    ensures WithTimer(WithTimer(c, t, f), u, g) == WithTimer(c, u, f + g)
  {
    var first, second := c["timer" := EncodeTimer(t)], c["timer" := EncodeTimer(u)];
    assert first["timer" := EncodeTimer(u)] == second;
    if Find(c, TimerKind).At? {
      var i := Find(c, TimerKind).index;
      PatchKeepsTimer(first, i, f, EncodeTimer(u));
      PatchTwice(second, i, f, g);
    }
  }

  lemma {:induction false} FirstOfRun(before: Option<TimerRecord>, p: Prim, rest: seq<Prim>, now: ClockStamp)
    requires TimerOps([p]) && TimerOps(rest) && !BlockedBy(before, [p][0].op, now)
    ensures TimerOps([p] + rest)
    ensures var next := Some(Next(before, p.op, now, p.freshId));
            && Unblocked(before, [p] + rest, now) == 1 + Unblocked(next, rest, now)
            && LastTimer(before, [p] + rest, now) == LastTimer(next, rest, now)
            && RunFields([p] + rest) == EntryFields(p.op) + RunFields(rest)
  {
    assert ([p] + rest)[0] == p && ([p] + rest)[1..] == rest;
  }

  lemma {:induction false} LastIsSome(before: Option<TimerRecord>, prims: seq<Prim>, now: ClockStamp)
    requires TimerOps(prims) && before.Some?
    ensures LastTimer(before, prims, now).Some?
    decreases |prims|
  {
    if prims != [] && !BlockedBy(before, prims[0].op, now) {
      LastIsSome(Some(Next(before, prims[0].op, now, prims[0].freshId)), prims[1..], now);
    }
  }

  /** The run is done when no operation is blocked, and raises at the blocked one. */
  ghost predicate RunsAs(c: Dict, prims: seq<Prim>, now: ClockStamp)
    requires AllWellFormed(prims) && TimerOps(prims)
  {
    var n := Unblocked(Current(c), prims, now);
    RunPrims(prims, c, now) ==
    if n == |prims| then Done(Left(c, prims[..n], now)) else Raised(Left(c, prims[..n], now))
  }

  lemma {:induction false} SearchableRun(c: Dict, prims: seq<Prim>, now: ClockStamp)
    requires AllWellFormed(prims) && ValidTimerOps(prims) && !Unsearchable(c)
    ensures RunsAs(c, prims, now)
    decreases |prims|
  {
    if prims == [] {
    } else if Blocked(c, prims[0].op, now) {
      BlockedRaises(c, prims[0].op, now, prims[0].freshId);
    } else {
      var after := FirstStores(c, prims, now);
      SearchableRun(after, prims[1..], now);
      RunsAsBefore(c, prims[0], prims[1..], after, now);
      assert [prims[0]] + prims[1..] == prims;
    }
  }

  lemma {:induction false} RunsAsBefore(c: Dict, p: Prim, rest: seq<Prim>, after: Dict, now: ClockStamp)
    requires AllWellFormed([p] + rest) && TimerOps([p]) && TimerOps([p] + rest) && !Blocked(c, [p][0].op, now)
    requires AllWellFormed(rest) && TimerOps(rest) && RunsAs(after, rest, now)
    requires RunPrims([p] + rest, c, now) == RunPrims(rest, after, now)
    requires after == WithTimer(c, NextTimer(c, p.op, now, p.freshId), EntryFields(p.op))
    requires Current(after) == Some(NextTimer(c, p.op, now, p.freshId))
    requires Find(after, TimerKind) == Find(c, TimerKind)
    ensures RunsAs(c, [p] + rest, now)
  {
    var m := Unblocked(Current(after), rest, now);
    FirstOfRun(Current(c), p, rest, now);
    assert ([p] + rest)[..m + 1] == [p] + rest[..m];
    LeftOfRest(c, p, rest[..m], now);
  }

  lemma {:induction false} FirstStores(c: Dict, prims: seq<Prim>, now: ClockStamp) returns (after: Dict)
    requires AllWellFormed(prims) && ValidTimerOps(prims) && prims != []
    requires !Unsearchable(c) && !Blocked(c, prims[0].op, now)
    ensures RunPrims(prims, c, now) == RunPrims(prims[1..], after, now)
    ensures Current(after) == Some(NextTimer(c, prims[0].op, now, prims[0].freshId))
    ensures after == WithTimer(c, NextTimer(c, prims[0].op, now, prims[0].freshId), EntryFields(prims[0].op))
    ensures Find(after, TimerKind) == Find(c, TimerKind)
  {
    var p := prims[0];
    OneStored(c, p.op, now, p.freshId);
    after := WithTimer(c, NextTimer(c, p.op, now, p.freshId), EntryFields(p.op));
  }

  lemma {:induction false} LeftOfRest(c: Dict, p: Prim, rest: seq<Prim>, now: ClockStamp)
    requires TimerOps([p]) && TimerOps(rest) && !Blocked(c, [p][0].op, now)
    requires var after := WithTimer(c, NextTimer(c, p.op, now, p.freshId), EntryFields(p.op));
             && Current(after) == Some(NextTimer(c, p.op, now, p.freshId))
             && Find(after, TimerKind) == Find(c, TimerKind)
    ensures var after := WithTimer(c, NextTimer(c, p.op, now, p.freshId), EntryFields(p.op));
            TimerOps([p] + rest) && Left(after, rest, now) == Left(c, [p] + rest, now)
  {
    var next := NextTimer(c, p.op, now, p.freshId);
    FirstOfRun(Current(c), p, rest, now);
    LastIsSome(Some(next), rest, now);
    var last := LastTimer(Some(next), rest, now).value;
    assert Left(c, [p] + rest, now) == WithTimer(c, last, EntryFields(p.op) + RunFields(rest));
    if rest == [] {
      assert EntryFields(p.op) + map[] == EntryFields(p.op);
    } else {
      StoredTwice(c, next, EntryFields(p.op), last, RunFields(rest));
    }
  }

  lemma {:induction false} UnsearchableRun(c: Dict, prims: seq<Prim>, now: ClockStamp)
    requires AllWellFormed(prims) && ValidTimerOps(prims) && Unsearchable(c) && prims != []
    ensures RunPrims(prims, c, now) == Raised(Left(c, prims[..Stores(c, prims, now)], now))
  {
    var p := prims[0];
    TimerOpRaises(c, p.op, now, p.freshId);
    if !Blocked(c, p.op, now) {
      assert Stores(c, prims, now) == 1 && prims[..1] == [p] + [];
      FirstOfRun(Current(c), p, [], now);
    }
  }

  /**
   A run of timer operations raises exactly when the stored record and the list show
   that one of them is blocked, or when the notify list cannot be searched; the
   operations before that have stored their record.
   */
  lemma {:induction false} TimerRun(c: Dict, prims: seq<Prim>, now: ClockStamp)
    requires AllWellFormed(prims) && ValidTimerOps(prims)
    ensures var n, outcome := Stores(c, prims, now), RunPrims(prims, c, now);
            && (outcome.Raised? <==> n < |prims| || (Unsearchable(c) && prims != []))
            && outcome.control == Left(c, prims[..n], now)
  {
    if Unsearchable(c) && prims != [] {
      UnsearchableRun(c, prims, now);
    } else if !Unsearchable(c) {
      SearchableRun(c, prims, now);
    }
  }

  predicate Stands(d: Dict, fields: Dict) {
    forall k | k in fields :: k in d && d[k] == fields[k]
  }

  /** The record and the entry's fields that a run would leave are there already. */
  predicate LeavesAlone(c: Dict, prims: seq<Prim>, now: ClockStamp)
    requires TimerOps(prims)
  {
    var last := LastTimer(Current(c), prims, now);
    prims == [] || last.None? ||
    ("timer" in c && c["timer"] == EncodeTimer(last.value) &&
     (Find(c, TimerKind).At? ==> Stands(c["notify_data"].items[Find(c, TimerKind).index].members, RunFields(prims))))
  }

  lemma {:induction false} LeftIsSame(c: Dict, prims: seq<Prim>, now: ClockStamp)
    requires TimerOps(prims)
    ensures Left(c, prims, now) == c <==> LeavesAlone(c, prims, now)
  {
    var last := LastTimer(Current(c), prims, now);
    if prims != [] && last.Some? {
      SameWithTimer(c, last.value, RunFields(prims));
    }
  }

  lemma {:induction false} SameWithTimer(c: Dict, t: TimerRecord, fields: Dict)
    ensures WithTimer(c, t, fields) == c <==>
            && "timer" in c && c["timer"] == EncodeTimer(t)
            && (Find(c, TimerKind).At? ==>
                  Stands(c["notify_data"].items[Find(c, TimerKind).index].members, fields))
  {
    var after := WithTimer(c, t, fields);
    assert after["timer"] == EncodeTimer(t);
    if Find(c, TimerKind).At? {
      var i, items := Find(c, TimerKind).index, c["notify_data"].items;
      var d := items[i].members;
      assert after["notify_data"].items == items[i := Obj(d + fields)];
      if Stands(d, fields) {
        assert d + fields == d;
        assert items[i := Obj(d)] == items;
        assert after["notify_data"] == c["notify_data"];
      }
    }
  }

  /**
   An envelope of `set` and timer operations raises exactly when one of the
   operations is blocked on the state before the call, or the notify list cannot be
   searched. What it then leaves behind differs from that state exactly when `set`
   states something that is not in place already, or the operations that stored
   their record left another record or other fields than were there.
   */
  lemma {:induction false} HalfAppliedInMemory(c: Dict, envelope: Json, now: ClockStamp, ids: nat -> Uuid)
    requires Admitted(envelope, now) && SetsAndTimes(Decode(envelope).value)
    ensures var delta := Decode(envelope).value;
            var outcome, prims := ApplyControlDelta(c, envelope, now, ids), OpSteps(delta, ids);
            && TimerOps(prims)
            && var n := Stores(c, prims, now);
            && (outcome.Raised? <==> n < |prims| || (Unsearchable(c) && prims != []))
            && (outcome.control == c <==>
                  AllInPlace(c, delta.setValues.value) && LeavesAlone(c, prims[..n], now))
  {
    var delta := Decode(envelope).value;
    var prims := OpSteps(delta, ids);
    SetThenOps(c, envelope, now, ids);
    DecodedOpsAreValid(envelope);
    assert ValidTimerOps(prims);
    TimerAndNotifyOrderHidden(envelope, ids, c, now);
    TimerOpsAreLocal(prims, c, now);
    BothHalvesShow(c, RunPrims(prims, c, now).control, delta.setValues.value);
    TimerRun(c, prims, now);
    LeftIsSame(c, prims[..Stores(c, prims, now)], now);
  }

  /**
   A run of timer operations raises exactly when one of them, on the state the ones
   before it left, is blocked or cannot search.
   */
  lemma {:induction false} RunRaises(ops: seq<Op>, c: Dict, now: ClockStamp, ids: nat -> Uuid)
    requires forall i | 0 <= i < |ops| :: ops[i].IsTimer() && ValidOp(ops[i])
    ensures RunPrims(Performs(ops, ids), c, now).Raised? <==>
            exists k | 0 <= k < |ops| :: RaisesAt(ops, k, c, now, ids)
  {
    if RunPrims(Performs(ops, ids), c, now).Raised? {
      var k := FirstRaising(ops, c, now, ids);
    } else {
      forall k | 0 <= k < |ops| ensures !RaisesAt(ops, k, c, now, ids) {
        NoneRaises(ops, k, c, now, ids);
      }
    }
  }

  /** The operations before `k` are accepted, and the one at `k` raises. */
  predicate RaisesAt(ops: seq<Op>, k: nat, c: Dict, now: ClockStamp, ids: nat -> Uuid)
    requires k < |ops| && ops[k].IsTimer()
  {
    var before := RunPrims(Performs(ops[..k], ids), c, now);
    before.Done? && (Blocked(before.control, ops[k], now) || Unsearchable(before.control))
  }

  lemma {:induction false} PrefixRun(ops: seq<Op>, k: nat, c: Dict, now: ClockStamp, ids: nat -> Uuid)
    requires k < |ops|
    ensures RunPrims(Performs(ops[..k + 1], ids), c, now) ==
            match RunPrims(Performs(ops[..k], ids), c, now)
            case Done(next) => ApplyOp(next, ops[k], now, ids(k))
            case Raised(next) => Raised(next)
  {
    var last := [PerformOp(ops[k], ids(k))];
    assert Performs(ops[..k + 1], ids) == Performs(ops[..k], ids) + last;
    RunConcat(Performs(ops[..k], ids), last, c, now);
    assert forall d :: RunPrims(last, d, now) == ApplyOp(d, ops[k], now, ids(k)) by {
      assert last[1..] == [];
    }
  }

  lemma {:induction false} FirstRaising(ops: seq<Op>, c: Dict, now: ClockStamp, ids: nat -> Uuid) returns (k: nat)
    requires forall i | 0 <= i < |ops| :: ops[i].IsTimer() && ValidOp(ops[i])
    requires RunPrims(Performs(ops, ids), c, now).Raised?
    ensures k < |ops| && RaisesAt(ops, k, c, now, ids)
    decreases |ops|
  {
    var n := |ops| - 1;
    assert n >= 0 && ops[..n + 1] == ops;
    PrefixRun(ops, n, c, now, ids);
    var before := RunPrims(Performs(ops[..n], ids), c, now);
    if before.Done? {
      TimerOpRaises(before.control, ops[n], now, ids(n));
      k := n;
    } else {
      k := FirstRaising(ops[..n], c, now, ids);
      assert ops[..n][..k] == ops[..k];
    }
  }

  lemma {:induction false} NoneRaises(ops: seq<Op>, k: nat, c: Dict, now: ClockStamp, ids: nat -> Uuid)
    requires forall i | 0 <= i < |ops| :: ops[i].IsTimer() && ValidOp(ops[i])
    requires k < |ops| && RunPrims(Performs(ops, ids), c, now).Done?
    ensures !RaisesAt(ops, k, c, now, ids)
    decreases |ops|
  {
    var n := |ops| - 1;
    assert ops[..n + 1] == ops;
    PrefixRun(ops, n, c, now, ids);
    var before := RunPrims(Performs(ops[..n], ids), c, now).control;
    if k == n {
      TimerOpRaises(before, ops[n], now, ids(n));
    } else {
      NoneRaises(ops[..n], k, c, now, ids);
      assert ops[..n][..k] == ops[..k];
    }
  }

  // ---------------------------------------------------------------- an input that shows it

  const PAUSED := TimerRecord(NIL_UUID, Paused, Some(60.0), None, None, None, None, false)

  const PAUSED_CONTROL: Dict := map["timer" := EncodeTimer(PAUSED)]

  const STOP_MODE: Dict := map["mode" := Str("Stop")]

  function StartNow(now: ClockStamp): Op {
    TimerStartWithOptions(now.runtimeId, 60.0, false, false)
  }

  function StopAndStart(now: ClockStamp): Json {
    BuildEnvelope(STOP_MODE, [], [StartNow(now)], 0.0)
  }

  lemma {:induction false} ExampleIsAdmitted(now: ClockStamp)
    ensures Decode(StopAndStart(now)) == Some(Delta(Given(STOP_MODE), Given([StartNow(now)]), Absent))
    ensures Admitted(StopAndStart(now), now)
  {
    CanonicalIsUuidText(now.runtimeId);
    EnvelopeRoundTrip(STOP_MODE, [], [StartNow(now)], 0.0);
    assert "mode" in STOP_MODE && STOP_MODE.Keys == {"mode"} && ValidOps([StartNow(now)]) && AllDeletable([]);
    assert Intent(STOP_MODE, [], [StartNow(now)]) == Delta(Given(STOP_MODE), Given([StartNow(now)]), Absent);
  }

  lemma {:induction false} ExampleIsBlocked(now: ClockStamp, ids: nat -> Uuid)
    ensures var prims := Performs([StartNow(now)], ids);
            TimerOps(prims) && Stores(PAUSED_CONTROL, prims, now) == 0
  {
    ParseTimerRoundTrip(PAUSED);
    assert Blocked(PAUSED_CONTROL, StartNow(now), now);
  }

  /** With a paused timer stored, stopping the mode and starting with options raises after the mode was stopped. */
  lemma {:induction false} HalfAppliedExample(now: ClockStamp, ids: nat -> Uuid)
    ensures var outcome := ApplyControlDelta(PAUSED_CONTROL, StopAndStart(now), now, ids);
            outcome.Raised? && outcome.control != PAUSED_CONTROL
  {
    ExampleIsAdmitted(now);
    ExampleIsBlocked(now, ids);
    HalfAppliedInMemory(PAUSED_CONTROL, StopAndStart(now), now, ids);
    assert IsLeaf(STOP_MODE, ["mode"]) && !InPlace(PAUSED_CONTROL, STOP_MODE, ["mode"]);
  }
}
