/**
 What an accepted control write can read or change, and why writers whose
 footprints do not meet may be applied in either order.
 */
module ControlFootprints {
  import opened JsonValues
  import opened JsonTrees
  import opened ClockDomain
  import opened Timers
  import opened ControlDeltas

  /** A place in the control state: a member addressed by path, or one entry of the notify list. */
  datatype Region = Member(path: Path) | Entry(index: nat)

  predicate Clash(r: Region, s: Region) {
    match (r, s)
    case (Member(p), Member(q)) => Comparable(p, q)
    case (Member(p), Entry(_)) => Comparable(p, ["notify_data"])
    case (Entry(_), Member(q)) => Comparable(q, ["notify_data"])
    case (Entry(i), Entry(j)) => i == j
  }

  /** The notify entry an operation patches in place, when it needs nothing else of the list. */
  function PatchedEntry(op: Op, c: Dict): Search {
    if op.IsTimer() then Find(c, TimerKind)
    else if op.NotifySet? && "label" !in op.fields && "type" !in op.fields then
      Find(c, Labelled(op.entryLabel, op.kind))
    else Missing
  }

  predicate OpTouches(op: Op, c: Dict, r: Region) {
    if op.HoldSetSetpoint? then r == Member(["mode"]) || r == Member(["updated"]) || r == Member(["primary_setpoint"])
    else if op.CalibrationSet? then r == Member(["mpc_calibration"])
    else
      || (op.IsTimer() && r == Member(["timer"]))
      || r == (if PatchedEntry(op, c).At? then Entry(PatchedEntry(op, c).index) else Member(["notify_data"]))
  }

  /** The footprint of one step in the state it meets. */
  predicate Touches(p: Prim, c: Dict, r: Region) {
    match p
    case AssignTree(values) => r.Member? && IsLeaf(values, r.path)
    case PerformOp(op, _) => OpTouches(op, c, r)
    case RemovePath(path) => r == Member(path)
    case IterateNull => false
  }

  /** The footprint of a run of steps: each in the state the earlier ones left. */
  predicate RunTouches(prims: seq<Prim>, c: Dict, now: ClockStamp, r: Region)
    requires AllWellFormed(prims)
    decreases |prims|
  {
    prims != [] &&
    (Touches(prims[0], c, r) ||
     (Do(prims[0], c, now).Done? && RunTouches(prims[1..], Do(prims[0], c, now).control, now, r)))
  }

  // ---------------------------------------------------------------- top-level members

  /** The top-level members a step reads or writes. */
  function Keys(p: Prim): set<string>
    requires WellFormed(p)
  {
    match p
    case AssignTree(values) => values.Keys
    case RemovePath(path) => {path[0]}
    case IterateNull => {}
    case PerformOp(op, _) => OpMembers(op)
  }

  function OpMembers(op: Op): set<string> {
    if op.HoldSetSetpoint? then {"mode", "updated", "primary_setpoint"}
    else if op.CalibrationSet? then {"mpc_calibration"}
    else if op.IsTimer() then {"timer", "notify_data"}
    else {"notify_data"}
  }

  ghost predicate Agree(keys: set<string>, c: Dict, d: Dict) {
    forall k | k in keys :: (k in c <==> k in d) && (k in c ==> c[k] == d[k])
  }

  ghost predicate SameOutside(keys: set<string>, c: Dict, d: Dict) {
    forall k | k !in keys :: (k in c <==> k in d) && (k in c ==> c[k] == d[k])
  }

  /** One outcome changed only `keys` of `c`, and the other agrees with it there. */
  ghost predicate Local(keys: set<string>, c: Dict, x: Applied, y: Applied) {
    (x.Done? <==> y.Done?) && SameOutside(keys, c, x.control) && Agree(keys, x.control, y.control)
  }

  /** A step changes only its members, and what it does to them depends only on them. */
  lemma {:induction false} StepIsLocal(p: Prim, c: Dict, d: Dict, now: ClockStamp)
    requires WellFormed(p) && Agree(Keys(p), c, d)
    ensures Local(Keys(p), c, Do(p, c, now), Do(p, d, now))
  {
    match p
    case AssignTree(values) => AssignIsLocal(values, c, d);
    case RemovePath(path) => DeleteIsLocal(path, c, d);
    case IterateNull =>
    case PerformOp(op, freshId) =>
      if op.IsTimer() {
        TimerOpIsLocal(op, c, d, now, freshId);
      } else if op.IsNotify() {
        NotifyOpIsLocal(op, c, d);
      } else {
        RegisterOpIsLocal(op, c, d, now, freshId);
      }
  }

  lemma {:induction false} AssignIsLocal(values: Dict, c: Dict, d: Dict)
    requires Agree(values.Keys, c, d)
    ensures Local(values.Keys, c, Done(DeepAssign(c, values)), Done(DeepAssign(d, values)))
  {
  }

  lemma {:induction false} DeleteIsLocal(path: Path, c: Dict, d: Dict)
    requires path != [] && Agree({path[0]}, c, d)
    ensures Local({path[0]}, c, Done(DeletePath(c, path)), Done(DeletePath(d, path)))
  {
    assert path[0] in {path[0]};
  }

  lemma {:induction false} RegisterOpIsLocal(op: Op, c: Dict, d: Dict, now: ClockStamp, freshId: Uuid)
    requires (op.CalibrationSet? || op.HoldSetSetpoint?) && Agree(OpMembers(op), c, d)
    ensures Local(OpMembers(op), c, ApplyOp(c, op, now, freshId), ApplyOp(d, op, now, freshId))
  {
    if op.HoldSetSetpoint? {
      HoldIsLocal(op, c, d, now, freshId);
    } else {
      assert "mpc_calibration" in OpMembers(op);
      assert Get(c, "mpc_calibration") == Get(d, "mpc_calibration");
    }
  }

  lemma {:induction false} HoldIsLocal(op: Op, c: Dict, d: Dict, now: ClockStamp, freshId: Uuid)
    requires op.HoldSetSetpoint? && Agree({"mode", "updated", "primary_setpoint"}, c, d)
    ensures Local({"mode", "updated", "primary_setpoint"}, c,
                  ApplyOp(c, op, now, freshId), ApplyOp(d, op, now, freshId))
  {
    assert "mode" in {"mode", "updated", "primary_setpoint"} && "updated" in {"mode", "updated", "primary_setpoint"};
    assert Get(c, "mode") == Get(d, "mode");
  }

  lemma {:induction false} FindIsLocal(c: Dict, d: Dict, a: Address)
    requires Agree({"notify_data"}, c, d)
    ensures Find(c, a) == Find(d, a)
  {
    assert "notify_data" in {"notify_data"};
  }

  lemma {:induction false} TimerOpIsLocal(op: Op, c: Dict, d: Dict, now: ClockStamp, freshId: Uuid)
    requires op.IsTimer() && Agree({"timer", "notify_data"}, c, d)
    ensures Local({"timer", "notify_data"}, c, ApplyTimerOp(c, op, now, freshId), ApplyTimerOp(d, op, now, freshId))
  {
    assert "timer" in {"timer", "notify_data"};
    assert StoredTimer(c) == StoredTimer(d);
    forall t, fields
      ensures Local({"timer", "notify_data"}, c, StoreTimer(c, t, fields), StoreTimer(d, t, fields))
    {
      StoreIsLocal(c, d, t, fields);
    }
  }

  lemma {:induction false} StoreIsLocal(c: Dict, d: Dict, t: TimerRecord, fields: Dict)
    requires Agree({"timer", "notify_data"}, c, d)
    ensures Local({"timer", "notify_data"}, c, StoreTimer(c, t, fields), StoreTimer(d, t, fields))
  {
    assert "notify_data" in {"timer", "notify_data"};
    FindIsLocal(c, d, TimerKind);
  }

  lemma {:induction false} NotifyOpIsLocal(op: Op, c: Dict, d: Dict)
    requires op.IsNotify() && Agree({"notify_data"}, c, d)
    ensures Local({"notify_data"}, c, ApplyNotifyOp(c, op), ApplyNotifyOp(d, op))
  {
    assert "notify_data" in {"notify_data"};
    if !op.NotifyReplace? {
      FindIsLocal(c, d, Labelled(op.entryLabel, op.kind));
    }
  }

  lemma {:induction false} FootprintIsLocal(p: Prim, c: Dict, d: Dict, r: Region)
    requires WellFormed(p) && Agree(Keys(p), c, d)
    ensures Touches(p, c, r) <==> Touches(p, d, r)
  {
    if p.PerformOp? && (p.op.IsTimer() || p.op.IsNotify()) {
      assert "notify_data" in Keys(p);
      assert Agree({"notify_data"}, c, d);
      FindIsLocal(c, d, TimerKind);
      if p.op.NotifySet? {
        FindIsLocal(c, d, Labelled(p.op.entryLabel, p.op.kind));
      }
    }
  }

  // ---------------------------------------------------------------- patches of single entries

  predicate KeepsAddress(fields: Dict) {
    "label" !in fields && "type" !in fields
  }

  /** A patch that keeps label and type moves no entry out of reach of any address. */
  lemma {:induction false} PatchKeepsFind(c: Dict, i: nat, fields: Dict, a: Address)
    requires "notify_data" in c && c["notify_data"].Arr?
    requires i < |c["notify_data"].items| && c["notify_data"].items[i].Obj?
    requires KeepsAddress(fields)
    ensures Find(Patch(c, i, fields), a) == Find(c, a)
  {
    var before, after := c["notify_data"].items, Patch(c, i, fields)["notify_data"].items;
    forall j | 0 <= j < |before| ensures Matches(after[j], a) <==> Matches(before[j], a) {
      if j == i {
        var entry := before[i].members;
        assert Get(entry + fields, "label") == Get(entry, "label");
        assert Get(entry + fields, "type") == Get(entry, "type");
      }
    }
    SameMatches(before, after, a);
  }

  lemma {:induction false} SameMatches(xs: seq<Json>, ys: seq<Json>, a: Address)
    requires |xs| == |ys| && forall i | 0 <= i < |xs| :: Matches(xs[i], a) <==> Matches(ys[i], a)
    ensures FirstMatch(xs, a) == FirstMatch(ys, a)
  {
    if xs != [] && !Matches(xs[0], a) {
      SameMatches(xs[1..], ys[1..], a);
    }
  }

  /** The fields an entry-level operation writes into its entry. */
  function EntryFields(op: Op): Dict {
    match op
    case TimerClear(_) => OptionFields(false, false, false)
    case TimerPause(_) => ReqField(false)
    case TimerStartOrResume(_, _) => ReqField(true)
    case TimerStartWithOptions(_, _, shutdown, keepWarm) => OptionFields(true, shutdown, keepWarm)
    case NotifySet(_, _, fields) => fields
    case _ => map[]
  }

  /** An accepted entry-level operation is a patch, plus a new timer record for the timer operations. */
  lemma {:induction false} EntryOpIsPatch(op: Op, c: Dict, now: ClockStamp, freshId: Uuid)
    requires PatchedEntry(op, c).At? && ApplyOp(c, op, now, freshId).Done?
    ensures var after, i := ApplyOp(c, op, now, freshId).control, PatchedEntry(op, c).index;
            && KeepsAddress(EntryFields(op))
            && (op.IsTimer() ==> "timer" in after && after == Patch(c["timer" := after["timer"]], i, EntryFields(op)))
            && (!op.IsTimer() ==> after == Patch(c, i, EntryFields(op)))
    ensures forall a :: Find(ApplyOp(c, op, now, freshId).control, a) == Find(c, a)
  {
    var after, i := ApplyOp(c, op, now, freshId).control, PatchedEntry(op, c).index;
    var base := if op.IsTimer() then c["timer" := after["timer"]] else c;
    assert after == Patch(base, i, EntryFields(op));
    forall a ensures Find(after, a) == Find(c, a) {
      PatchKeepsFind(base, i, EntryFields(op), a);
    }
  }

  /** An entry-level operation does not notice a patch of another entry, and leaves it in place. */
  lemma {:induction false} EntryOpCommutesWithPatch(
    op: Op, c: Dict, i: nat, fields: Dict, now: ClockStamp, freshId: Uuid)
    requires PatchedEntry(op, c).At? && PatchedEntry(op, c).index != i
    requires i < |c["notify_data"].items| && c["notify_data"].items[i].Obj?
    requires KeepsAddress(fields) && ApplyOp(c, op, now, freshId).Done?
    ensures PatchedEntry(op, Patch(c, i, fields)) == PatchedEntry(op, c)
    ensures ApplyOp(Patch(c, i, fields), op, now, freshId).Done?
    ensures var after := ApplyOp(c, op, now, freshId).control;
            && "notify_data" in after && after["notify_data"].Arr?
            && i < |after["notify_data"].items| && after["notify_data"].items[i].Obj?
            && ApplyOp(Patch(c, i, fields), op, now, freshId).control == Patch(after, i, fields)
  {
    var patched, j := Patch(c, i, fields), PatchedEntry(op, c).index;
    EntryOpFindsAgain(op, c, i, fields, now, freshId);
    EntryOpIsPatch(op, c, now, freshId);
    EntryOpIsPatch(op, patched, now, freshId);
    if op.IsTimer() {
      var timer := ApplyOp(c, op, now, freshId).control["timer"];
      PatchKeepsTimer(c, i, fields, timer);
      PatchesCommute(c["timer" := timer], i, fields, j, EntryFields(op));
    } else {
      PatchesCommute(c, i, fields, j, EntryFields(op));
    }
  }

  lemma {:induction false} PatchKeepsTimer(c: Dict, i: nat, fields: Dict, timer: Json)
    requires "notify_data" in c && c["notify_data"].Arr?
    requires i < |c["notify_data"].items| && c["notify_data"].items[i].Obj?
    ensures Patch(c["timer" := timer], i, fields) == Patch(c, i, fields)["timer" := timer]
  {
  }

  lemma {:induction false} PatchesCommute(c: Dict, i: nat, f: Dict, j: nat, g: Dict)
    requires i != j && "notify_data" in c && c["notify_data"].Arr?
    requires i < |c["notify_data"].items| && c["notify_data"].items[i].Obj?
    requires j < |c["notify_data"].items| && c["notify_data"].items[j].Obj?
    ensures Patch(Patch(c, i, f), j, g) == Patch(Patch(c, j, g), i, f)
  {
    var items := c["notify_data"].items;
    var mine, theirs := Obj(items[i].members + f), Obj(items[j].members + g);
    assert items[i := mine][j := theirs] == items[j := theirs][i := mine];
  }

  lemma {:induction false} EntryOpFindsAgain(op: Op, c: Dict, i: nat, fields: Dict, now: ClockStamp, freshId: Uuid)
    requires PatchedEntry(op, c).At? && PatchedEntry(op, c).index != i
    requires i < |c["notify_data"].items| && c["notify_data"].items[i].Obj?
    requires KeepsAddress(fields) && ApplyOp(c, op, now, freshId).Done?
    ensures PatchedEntry(op, Patch(c, i, fields)) == PatchedEntry(op, c)
    ensures ApplyOp(Patch(c, i, fields), op, now, freshId).Done?
    ensures var x, y := ApplyOp(c, op, now, freshId).control, ApplyOp(Patch(c, i, fields), op, now, freshId).control;
            op.IsTimer() ==> "timer" in x && "timer" in y && x["timer"] == y["timer"]
  {
    var patched := Patch(c, i, fields);
    PatchKeepsFind(c, i, fields, TimerKind);
    if op.NotifySet? {
      PatchKeepsFind(c, i, fields, Labelled(op.entryLabel, op.kind));
    } else {
      assert StoredTimer(patched) == StoredTimer(c);
      TimerSlot(op, c, patched, now, freshId);
    }
  }

  /** Whether a timer operation is accepted, and the record it stores, depend on the stored record alone. */
  lemma {:induction false} TimerSlot(op: Op, c: Dict, d: Dict, now: ClockStamp, freshId: Uuid)
    requires op.IsTimer() && Find(c, TimerKind).At? && Find(d, TimerKind).At? && StoredTimer(c) == StoredTimer(d)
    ensures var x, y := ApplyTimerOp(c, op, now, freshId), ApplyTimerOp(d, op, now, freshId);
            && (x.Done? <==> y.Done?)
            && (x.Done? ==> "timer" in x.control && "timer" in y.control && x.control["timer"] == y.control["timer"])
  {
  }

  // ---------------------------------------------------------------- independent steps commute

  ghost predicate Independent(p: Prim, q: Prim, c: Dict) {
    forall r, s :: Touches(p, c, r) && Touches(q, c, s) ==> !Clash(r, s)
  }

  /** What a pair of independent steps gives: either order, same result, and neither footprint moves. */
  ghost predicate Swaps(p: Prim, q: Prim, c: Dict, now: ClockStamp)
    requires WellFormed(p) && WellFormed(q)
  {
    var x, y := Do(p, c, now).control, Do(q, c, now).control;
    && Do(q, x, now).Done?
    && Do(p, y, now) == Do(q, x, now)
    && (forall r :: Touches(q, x, r) <==> Touches(q, c, r))
    && (forall r :: Touches(p, y, r) <==> Touches(p, c, r))
  }

  /** Two changes to disjoint members, in either order. */
  lemma {:induction false} MembersMerge(ps: set<string>, qs: set<string>, c: Dict, x: Dict, y: Dict, qx: Dict, py: Dict)
    requires ps !! qs && SameOutside(ps, c, x) && SameOutside(qs, c, y)
    requires SameOutside(qs, x, qx) && Agree(qs, y, qx) && SameOutside(ps, y, py) && Agree(ps, x, py)
    ensures qx == py
  {
    forall k ensures (k in qx <==> k in py) && (k in qx ==> qx[k] == py[k]) {
      if k in qs {
        assert k !in ps;
      } else if k !in ps {
        assert (k in x <==> k in y) && (k in x ==> x[k] == y[k]);
      }
    }
  }

  lemma {:induction false} DisjointMembersSwap(p: Prim, q: Prim, c: Dict, now: ClockStamp)
    requires WellFormed(p) && WellFormed(q) && Keys(p) !! Keys(q)
    requires Do(p, c, now).Done? && Do(q, c, now).Done?
    ensures Swaps(p, q, c, now)
  {
    var x, y := Do(p, c, now).control, Do(q, c, now).control;
    StepIsLocal(p, c, c, now);
    StepIsLocal(q, c, c, now);
    assert Agree(Keys(q), c, x) && Agree(Keys(p), c, y);
    StepIsLocal(q, c, x, now);
    StepIsLocal(p, c, y, now);
    StepIsLocal(q, x, x, now);
    StepIsLocal(p, y, y, now);
    MembersMerge(Keys(p), Keys(q), c, x, y, Do(q, x, now).control, Do(p, y, now).control);
    forall r ensures (Touches(q, x, r) <==> Touches(q, c, r)) && (Touches(p, y, r) <==> Touches(p, c, r)) {
      FootprintIsLocal(q, c, x, r);
      FootprintIsLocal(p, c, y, r);
    }
  }

  lemma {:induction false} EntriesSwap(p: Prim, q: Prim, c: Dict, now: ClockStamp)
    requires p.PerformOp? && q.PerformOp? && p.op.NotifySet?
    requires PatchedEntry(p.op, c).At? && PatchedEntry(q.op, c).At?
    requires PatchedEntry(p.op, c).index != PatchedEntry(q.op, c).index
    requires Do(p, c, now).Done? && Do(q, c, now).Done?
    ensures Swaps(p, q, c, now) && Swaps(q, p, c, now)
  {
    var i := PatchedEntry(p.op, c).index;
    EntryOpIsPatch(p.op, c, now, p.freshId);
    EntryOpIsPatch(q.op, c, now, q.freshId);
    EntryOpCommutesWithPatch(q.op, c, i, p.op.fields, now, q.freshId);
    var y := Do(q, c, now).control;
    assert PatchedEntry(p.op, y) == At(i);
  }

  lemma {:induction false} TreesSwap(p: Prim, q: Prim, c: Dict, now: ClockStamp)
    requires WellFormed(p) && WellFormed(q) && (p.AssignTree? || p.RemovePath?) && (q.AssignTree? || q.RemovePath?)
    requires Independent(p, q, c)
    ensures Swaps(p, q, c, now)
  {
    match (p, q)
    case (AssignTree(a), AssignTree(b)) =>
      forall x, y | IsLeaf(a, x) && IsLeaf(b, y) ensures !Comparable(x, y) {
        assert Touches(p, c, Member(x)) && Touches(q, c, Member(y));
      }
      DeepAssignCommutes(c, a, b);
    case (AssignTree(a), RemovePath(path)) =>
      forall x | IsLeaf(a, x) ensures !Comparable(x, path) {
        assert Touches(p, c, Member(x)) && Touches(q, c, Member(path));
      }
      DeleteCommutesWithAssign(c, a, path);
    case (RemovePath(path), AssignTree(b)) =>
      forall y | IsLeaf(b, y) ensures !Comparable(y, path) {
        assert Touches(p, c, Member(path)) && Touches(q, c, Member(y));
      }
      DeleteCommutesWithAssign(c, b, path);
    case (RemovePath(x), RemovePath(y)) =>
      DeletesCommute(c, x, y);
  }

  /** A tree step and an operation that are independent share no top-level member. */
  lemma {:induction false} TreeAndOpDisjoint(p: Prim, q: Prim, c: Dict)
    requires WellFormed(p) && (p.AssignTree? || p.RemovePath?) && q.PerformOp?
    requires Independent(p, q, c)
    ensures Keys(p) !! Keys(q)
  {
    forall k | k in Keys(p) ensures k !in OpMembers(q.op) {
      var leaf := [k];
      if p.RemovePath? {
        leaf := p.path;
      } else if p.values[k].Obj? && p.values[k].members != map[] {
        var inner := LeafInside(p.values[k].members);
        LeafUnder(p.values, k, inner);
        leaf := [k] + inner;
      }
      assert Touches(p, c, Member(leaf)) && [k] <= leaf;
      if k in OpMembers(q.op) {
        var entry := PatchedEntry(q.op, c);
        var s := if k != "notify_data" then Member([k])
                 else if entry.At? then Entry(entry.index) else Member([k]);
        assert Touches(q, c, s) && Clash(Member(leaf), s);
      }
    }
  }

  /** Two independent operations share no member, unless they patch two different notify entries. */
  lemma {:induction false} OpsDisjoint(p: Prim, q: Prim, c: Dict)
    requires p.PerformOp? && q.PerformOp? && Independent(p, q, c)
    ensures Keys(p) !! Keys(q) ||
            (&& PatchedEntry(p.op, c).At? && PatchedEntry(q.op, c).At?
             && PatchedEntry(p.op, c).index != PatchedEntry(q.op, c).index
             && (p.op.NotifySet? || q.op.NotifySet?))
  {
    if k: string :| k in OpMembers(p.op) && k in OpMembers(q.op) {
      if k != "notify_data" {
        assert Touches(p, c, Member([k])) && Touches(q, c, Member([k]));
      } else {
        var i, j := PatchedEntry(p.op, c), PatchedEntry(q.op, c);
        var r := if i.At? then Entry(i.index) else Member([k]);
        var s := if j.At? then Entry(j.index) else Member([k]);
        assert Touches(p, c, r) && Touches(q, c, s);
        if p.op.IsTimer() && q.op.IsTimer() {
          assert Touches(p, c, Member(["timer"])) && Touches(q, c, Member(["timer"]));
        }
      }
    }
  }

  lemma {:induction false} IndependentStepsSwap(p: Prim, q: Prim, c: Dict, now: ClockStamp)
    requires WellFormed(p) && WellFormed(q) && Independent(p, q, c)
    requires Do(p, c, now).Done? && Do(q, c, now).Done?
    ensures Swaps(p, q, c, now)
  {
    if p.PerformOp? && q.PerformOp? {
      OpsDisjoint(p, q, c);
      if Keys(p) !! Keys(q) {
        DisjointMembersSwap(p, q, c, now);
      } else if p.op.NotifySet? {
        EntriesSwap(p, q, c, now);
      } else {
        EntriesSwap(q, p, c, now);
      }
    } else if p.PerformOp? {
      forall r, s | Touches(q, c, r) && Touches(p, c, s) ensures !Clash(r, s) {
        assert !Clash(s, r);
      }
      TreeAndOpDisjoint(q, p, c);
      DisjointMembersSwap(p, q, c, now);
    } else if q.PerformOp? {
      TreeAndOpDisjoint(p, q, c);
      DisjointMembersSwap(p, q, c, now);
    } else {
      TreesSwap(p, q, c, now);
    }
  }
}
