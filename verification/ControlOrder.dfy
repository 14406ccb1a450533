/**
 When the order of `set` and `ops` can be observed. The module documents it as
 unobservable; that holds exactly when no operation whose turn can come works on a
 member that `set` carries, which only timer.* and notify.* are guaranteed.
 */
module ControlOrder {
  import opened Wrappers
  import opened JsonValues
  import opened JsonTrees
  import opened ClockDomain
  import opened UuidTexts
  import opened ControlDeltas
  import opened ControlFootprints
  import opened ControlWriters
  import opened ControlEnvelopes
  import opened ControlTurns

  /** The order is unobservable whatever values `set` carries under `members`, and wherever it is applied. */
  ghost predicate AlwaysHidden(members: set<string>, ops: seq<Op>) {
    forall values: Dict, c, now, ids | values.Keys == members :: OrderHidden(values, Performs(ops, ids), c, now)
  }

  ghost predicate Avoids(members: set<string>, ops: seq<Op>) {
    forall i: nat | i < |ops| && TurnCanCome(ops, i) :: OpMembers(ops[i]) !! members
  }

  /** A valid setpoint is a number. */
  predicate ValidSetpoints(ops: seq<Op>) {
    forall i | 0 <= i < |ops| :: ops[i].HoldSetSetpoint? ==> ops[i].setpoint.IsNumber()
  }

  // ---------------------------------------------------------------- hidden

  lemma {:induction false} AvoidingIsHidden(members: set<string>, ops: seq<Op>)
    requires Avoids(members, ops)
    ensures AlwaysHidden(members, ops)
  {
    forall values: Dict, c, now, ids | values.Keys == members
      ensures OrderHidden(values, Performs(ops, ids), c, now)
    {
      var prims := Performs(ops, ids);
      forall i | 0 <= i < |prims| && RunPrims(prims[..i], c, now).Done?
        ensures prims[i].PerformOp? && OpMembers(prims[i].op) !! values.Keys
      {
        assert TurnCanCome(ops, i);
      }
      OrderHiddenWhenDisjoint(values, prims, c, now);
    }
  }

  // ---------------------------------------------------------------- observable

  /** A member that no step of a run works on can be set beforehand without a difference. */
  lemma {:induction false} RunBeside(prims: seq<Prim>, c: Dict, k: string, v: Json, now: ClockStamp)
    requires AllWellFormed(prims) && RunPrims(prims, c, now).Done?
    requires forall i | 0 <= i < |prims| :: k !in Keys(prims[i])
    ensures RunPrims(prims, c[k := v], now) == Done(RunPrims(prims, c, now).control[k := v])
    decreases |prims|
  {
    if prims != [] {
      var p, next := prims[0], Do(prims[0], c, now).control;
      StepIsLocal(p, c, c[k := v], now);
      StepIsLocal(p, c[k := v], c[k := v], now);
      assert Do(p, c[k := v], now).control == next[k := v];
      RunBeside(prims[1..], next, k, v, now);
    }
  }

  const REGISTER_MEMBERS: set<string> := {"mode", "updated", "primary_setpoint", "mpc_calibration"}

  /** Once a register member holds something, no operation makes it null again. */
  lemma {:induction false} RegistersStay(prims: seq<Prim>, c: Dict, k: string, now: ClockStamp)
    requires AllWellFormed(prims) && k in REGISTER_MEMBERS && k in c && c[k] != Null
    requires forall i | 0 <= i < |prims| :: prims[i].PerformOp?
    requires forall i | 0 <= i < |prims| :: prims[i].op.HoldSetSetpoint? ==> prims[i].op.setpoint.IsNumber()
    ensures var after := RunPrims(prims, c, now).control; k in after && after[k] != Null
    decreases |prims|
  {
    if prims != [] {
      var next := Do(prims[0], c, now);
      RegisterStays(prims[0], c, k, now);
      if next.Done? {
        RegistersStay(prims[1..], next.control, k, now);
      }
    }
  }

  lemma {:induction false} RegisterStays(p: Prim, c: Dict, k: string, now: ClockStamp)
    requires p.PerformOp? && k in REGISTER_MEMBERS && k in c && c[k] != Null
    requires p.op.HoldSetSetpoint? ==> p.op.setpoint.IsNumber()
    ensures k in Do(p, c, now).control && Do(p, c, now).control[k] != Null
  {
    StepIsLocal(p, c, c, now);
  }

  /** On a null member and outside hold mode a register operation leaves something. */
  lemma {:induction false} RegisterOpOverNull(op: Op, d: Dict, k: string, now: ClockStamp, freshId: Uuid)
    requires (op.HoldSetSetpoint? && op.setpoint.IsNumber() && Get(d, "mode") == Null) || op.CalibrationSet?
    requires k in OpMembers(op) && k in d && d[k] == Null
    ensures ApplyOp(d, op, now, freshId).Done?
    ensures var after := ApplyOp(d, op, now, freshId).control; k in after && after[k] != Null
  {
  }

  /** Nulls under the shared member tell the two orders apart, from the state in which the operation's turn comes. */
  lemma {:induction false} NullsShowTheOrder(members: set<string>, ops: seq<Op>, i: nat)
    requires members !! SET_FORBIDDEN && ValidSetpoints(ops) && i < |ops|
    requires TurnCanCome(ops, i) && !(OpMembers(ops[i]) !! members)
    requires forall j: nat | j < i :: OpMembers(ops[j]) !! members
    ensures !AlwaysHidden(members, ops)
  {
    var c0, now, ids :| RunPrims(Performs(ops, ids)[..i], c0, now).Done?;
    var prims := Performs(ops, ids);
    var before, op := prims[..i], ops[i];
    var k :| k in OpMembers(op) && k in members;
    var values: Dict := map m | m in members :: Null;
    assert values.Keys == members;
    var c := if op.HoldSetSetpoint? then c0["mode" := Null] else c0;
    if op.HoldSetSetpoint? {
      forall j | 0 <= j < i ensures "mode" !in Keys(before[j]) {
        assert OpMembers(ops[j]) !! members && k !in OpMembers(ops[j]);
      }
      RunBeside(before, c0, "mode", Null, now);
    }
    OrderHiddenWhenDisjoint(values, before, c, now);
    NullsShow(prims, i, c, values, k, now);
  }

  lemma {:induction false} NullsShow(prims: seq<Prim>, i: nat, c: Dict, values: Dict, k: string, now: ClockStamp)
    requires AllWellFormed(prims) && i < |prims| && forall j | 0 <= j < |prims| :: prims[j].PerformOp?
    requires forall j | 0 <= j < |prims| :: prims[j].op.HoldSetSetpoint? ==> prims[j].op.setpoint.IsNumber()
    requires values.Keys !! SET_FORBIDDEN && forall m | m in values :: values[m] == Null
    requires k in OpMembers(prims[i].op) && k in values
    requires RunPrims(prims[..i], c, now).Done? && OrderHidden(values, prims[..i], c, now)
    requires prims[i].op.HoldSetSetpoint? ==> Get(RunPrims(prims[..i], c, now).control, "mode") == Null
    ensures !OrderHidden(values, prims, c, now)
  {
    var x := RunPrims(prims[..i], c, now).control;
    SetFirstKeeps(prims, i, DeepAssign(c, values), DeepAssign(x, values), k, now);
    assert DeepAssign(RunPrims(prims, c, now).control, values)[k] == Null;
  }

  /** With `set` first the shared member ends with something in it. */
  lemma {:induction false} SetFirstKeeps(prims: seq<Prim>, i: nat, d: Dict, y: Dict, k: string, now: ClockStamp)
    requires AllWellFormed(prims) && i < |prims| && RunPrims(prims[..i], d, now) == Done(y)
    requires forall j | 0 <= j < |prims| :: prims[j].PerformOp?
    requires forall j | 0 <= j < |prims| :: prims[j].op.HoldSetSetpoint? ==> prims[j].op.setpoint.IsNumber()
    requires k in OpMembers(prims[i].op) && k !in SET_FORBIDDEN && k in y && y[k] == Null
    requires prims[i].op.HoldSetSetpoint? ==> Get(y, "mode") == Null
    ensures var after := RunPrims(prims, d, now).control; k in after && after[k] != Null
  {
    var p := prims[i];
    RegisterOpOverNull(p.op, y, k, now, p.freshId);
    var z := Do(p, y, now).control;
    assert prims == prims[..i] + prims[i..] && prims[i..][0] == p && prims[i..][1..] == prims[i + 1..];
    RunConcat(prims[..i], prims[i..], d, now);
    assert RunPrims(prims[i..], y, now) == RunPrims(prims[i + 1..], z, now);
    RegistersStay(prims[i + 1..], z, k, now);
  }

  /** Of the operations that work on a member of `set` and can have their turn, there is a first one. */
  lemma {:induction false} FirstShared(members: set<string>, ops: seq<Op>, i: nat) returns (k: nat)
    requires i < |ops| && TurnCanCome(ops, i) && !(OpMembers(ops[i]) !! members)
    ensures k <= i && TurnCanCome(ops, k) && !(OpMembers(ops[k]) !! members)
    ensures forall j: nat | j < k :: OpMembers(ops[j]) !! members
    decreases i
  {
    if j: nat :| j < i && !(OpMembers(ops[j]) !! members) {
      EarlierTurn(ops, j, i);
      k := FirstShared(members, ops, j);
    } else {
      k := i;
    }
  }

  lemma {:induction false} EarlierTurn(ops: seq<Op>, j: nat, i: nat)
    requires j <= i < |ops| && TurnCanCome(ops, i)
    ensures TurnCanCome(ops, j)
  {
    var c, now, ids :| RunPrims(Performs(ops, ids)[..i], c, now).Done?;
    var prims := Performs(ops, ids);
    assert prims[..i] == prims[..j] + prims[..i][j..];
    RunConcat(prims[..j], prims[..i][j..], c, now);
    assert RunPrims(Performs(ops, ids)[..j], c, now).Done?;
  }

  /**
   For every list of operations: the order of `set` and `ops` is unobservable, over
   all values under these members and all states, exactly when no operation whose
   turn can come works on one of them.
   */
  lemma {:induction false} OrderObservableExactly(members: set<string>, ops: seq<Op>)
    requires members !! SET_FORBIDDEN && ValidSetpoints(ops)
    ensures AlwaysHidden(members, ops) <==> Avoids(members, ops)
  {
    if Avoids(members, ops) {
      AvoidingIsHidden(members, ops);
    } else {
      var i: nat :| i < |ops| && TurnCanCome(ops, i) && !(OpMembers(ops[i]) !! members);
      var k := FirstShared(members, ops, i);
      NullsShowTheOrder(members, ops, k);
    }
  }

  /** The same for a list of valid operations, read off the list alone. */
  predicate ReachableAvoid(members: set<string>, ops: seq<Op>) {
    forall i | 0 <= i < |ops| && NoHeldStart(ops[..i]) :: OpMembers(ops[i]) !! members
  }

  lemma {:induction false} OrderObservableFromList(members: set<string>, ops: seq<Op>)
    requires members !! SET_FORBIDDEN && ValidOps(ops)
    ensures AlwaysHidden(members, ops) <==> ReachableAvoid(members, ops)
  {
    OrderObservableExactly(members, ops);
    forall i: nat | i < |ops| ensures TurnCanCome(ops, i) <==> NoHeldStart(ops[..i]) {
      TurnComesExactly(ops, i);
    }
  }

  /**
   A turn that cannot come: after a start and a pause the second start always
   raises, so the setpoint behind it hides the order even from a `set` of the mode.
   */
  lemma {:induction false} HeldStartHides(target: string, setpoint: Json)
    requires UuidText(target) && setpoint.IsNumber()
    ensures var start := TimerStartWithOptions(target, 60.0, false, false);
            var ops := [start, TimerPause(target), start, HoldSetSetpoint(setpoint)];
            && !TurnCanCome(ops, 3) && AlwaysHidden({"mode"}, ops)
            && !AlwaysHidden({"mode"}, [HoldSetSetpoint(setpoint)])
  {
    var start := TimerStartWithOptions(target, 60.0, false, false);
    var ops := [start, TimerPause(target), start, HoldSetSetpoint(setpoint)];
    assert ValidOps(ops);
    assert ops[..1] == [start] && ops[..1][..0] == [];
    assert ops[..2][..1] == ops[..1] && ops[..3][..2] == ops[..2];
    assert StageAfter(ops[..2]).Holding?;
    assert !NoHeldStart(ops[..3]);
    TurnComesExactly(ops, 3);
    OrderObservableFromList({"mode"}, ops);
    OneOperation({"mode"}, ops[3]);
  }

  /** A single operation always has its turn. */
  lemma {:induction false} OneOperation(members: set<string>, op: Op)
    requires members !! SET_FORBIDDEN && (op.HoldSetSetpoint? ==> op.setpoint.IsNumber())
    ensures AlwaysHidden(members, [op]) <==> members !! OpMembers(op)
  {
    OrderObservableExactly(members, [op]);
    var none: Dict := map[];
    var now, ids := ClockStamp(None, NIL_UUID, 0.0, 0.0, None), (n: nat) => NIL_UUID;
    assert RunPrims(Performs([op], ids)[..0], none, now).Done?;
    assert TurnCanCome([op], 0);
  }
}
