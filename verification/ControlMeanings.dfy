/**
 What an accepted control write leaves behind, path by path; what notify
 operations undo; and which step of the timer machine each timer operation takes.
 */
module ControlMeanings {
  import opened Wrappers
  import opened JsonValues
  import opened JsonTrees
  import opened ClockDomain
  import opened Timers
  import TimerRuns
  import opened ControlDeltas
  import opened ControlFootprints
  import opened ControlWriters

  // ---------------------------------------------------------------- deletions come last

  lemma {:induction false} RemovalsMeaning(c: Dict, paths: seq<Path>, now: ClockStamp, q: Path)
    requires q != [] && forall i | 0 <= i < |paths| :: paths[i] != []
    ensures AllWellFormed(Removals(paths)) && RunPrims(Removals(paths), c, now).Done?
    ensures var before, after := Lookup(Obj(c), q), Lookup(Obj(RunPrims(Removals(paths), c, now).control), q);
            && ((exists i | 0 <= i < |paths| :: paths[i] <= q) || before == None ==> after == None)
            && ((forall i | 0 <= i < |paths| :: !Comparable(paths[i], q)) ==> after == before)
    decreases |paths|
  {
    if paths != [] {
      var p, next := paths[0], DeletePath(c, paths[0]);
      assert Removals(paths)[1..] == Removals(paths[1..]);
      if p <= q {
        DeleteRemoves(c, p, q);
      }
      if Lookup(Obj(c), q) == None {
        DeleteKeepsAbsent(c, p, q);
      }
      if !Comparable(p, q) {
        DeleteFrame(c, p, q);
      }
      RemovalsMeaning(next, paths[1..], now, q);
      assert forall i | 1 <= i < |paths| :: paths[i] == paths[1..][i - 1];
    }
  }

  // ---------------------------------------------------------------- one envelope, path by path

  /** The write deletes the path or something above it. */
  predicate DeltaDeletes(delta: Delta, q: Path) {
    delta.deletes.Given? && exists i | 0 <= i < |delta.deletes.value| :: delta.deletes.value[i] <= q
  }

  predicate DeltaDeletesNear(delta: Delta, q: Path) {
    delta.deletes.Given? && exists i | 0 <= i < |delta.deletes.value| :: Comparable(delta.deletes.value[i], q)
  }

  /** No operation of the write works on the member. */
  predicate OpsAvoid(delta: Delta, k: string) {
    delta.ops.Given? ==> forall i | 0 <= i < |delta.ops.value| :: k !in OpMembers(delta.ops.value[i])
  }

  lemma {:induction false} OpsKeepMember(prims: seq<Prim>, c: Dict, now: ClockStamp, k: string)
    requires AllWellFormed(prims) && RunPrims(prims, c, now).Done?
    requires forall i | 0 <= i < |prims| :: prims[i].PerformOp? && k !in OpMembers(prims[i].op)
    ensures var after := RunPrims(prims, c, now).control; (k in after <==> k in c) && (k in after ==> after[k] == c[k])
    decreases |prims|
  {
    if prims != [] {
      StepIsLocal(prims[0], c, c, now);
      OpsKeepMember(prims[1..], Do(prims[0], c, now).control, now, k);
    }
  }

  lemma {:induction false} SameMemberSamePaths(c: Dict, d: Dict, q: Path)
    requires q != [] && (q[0] in c <==> q[0] in d) && (q[0] in c ==> c[q[0]] == d[q[0]])
    ensures Lookup(Obj(c), q) == Lookup(Obj(d), q)
  {
  }

  /** The three phases one after another. */
  lemma {:induction false} Phases(delta: Delta, c: Dict, now: ClockStamp, ids: nat -> Uuid)
    requires AllWellFormed(Steps(delta, ids)) && RunPrims(Steps(delta, ids), c, now).Done?
    requires AllWellFormed(SetSteps(delta)) && AllWellFormed(OpSteps(delta, ids)) && AllWellFormed(DeleteSteps(delta))
    ensures !delta.setValues.NullGiven? && !delta.deletes.NullGiven?
    ensures var x := if delta.setValues.Given? then DeepAssign(c, delta.setValues.value) else c;
            var y := RunPrims(OpSteps(delta, ids), x, now);
            && y.Done?
            && RunPrims(Steps(delta, ids), c, now) == RunPrims(DeleteSteps(delta), y.control, now)
  {
    var sets, ops, deletes := SetSteps(delta), OpSteps(delta, ids), DeleteSteps(delta);
    RunConcat(sets, ops, c, now);
    RunConcat(sets + ops, deletes, c, now);
    NullRaises(c, now);
    NullRaises(RunPrims(sets + ops, c, now).control, now);
    if delta.setValues.Given? {
      assert sets[1..] == [];
    }
  }

  lemma {:induction false} NullRaises(c: Dict, now: ClockStamp)
    ensures RunPrims([IterateNull], c, now) == Raised(c)
  {
  }

  /**
   An accepted write, path by path: a deleted path is absent even if the same write
   sets it. Away from deletions and from the members of its operations, every stated
   leaf is in place, and a path about which `set` says nothing is as before.
   */
  lemma {:induction false} EnvelopeMeaning(c: Dict, envelope: Json, now: ClockStamp, ids: nat -> Uuid, q: Path)
    requires Accepted(c, envelope, now, ids) && q != []
    ensures var delta := Decode(envelope).value;
            var after := Lookup(Obj(ApplyControlDelta(c, envelope, now, ids).control), q);
            && (DeltaDeletes(delta, q) ==> after == None)
            && (!DeltaDeletesNear(delta, q) && OpsAvoid(delta, q[0]) ==>
                  && (delta.setValues.Given? && IsLeaf(delta.setValues.value, q) ==>
                        after.Some? &&
                        ((Lookup(Obj(delta.setValues.value), q) == Some(Obj(map[])) && after.value.Obj?) ||
                         after == Lookup(Obj(delta.setValues.value), q)))
                  && ((delta.setValues.Given? ==> AwayFrom(delta.setValues.value, q)) ==> after == Lookup(Obj(c), q)))
  {
    AcceptedRuns(c, envelope, now, ids);
    StepsWellFormed(envelope, ids);
    var delta := Decode(envelope).value;
    Phases(delta, c, now, ids);
    var x := if delta.setValues.Given? then DeepAssign(c, delta.setValues.value) else c;
    var y := RunPrims(OpSteps(delta, ids), x, now).control;
    RemovalsMeaning(y, if delta.deletes.Given? then delta.deletes.value else [], now, q);
    if !DeltaDeletesNear(delta, q) && OpsAvoid(delta, q[0]) {
      OpsKeepMember(OpSteps(delta, ids), x, now, q[0]);
      SameMemberSamePaths(x, y, q);
      if delta.setValues.Given? {
        SetMeaning(delta, c, q);
      }
    }
  }

  lemma {:induction false} SetMeaning(delta: Delta, c: Dict, q: Path)
    requires delta.setValues.Given? && q != []
    ensures var stated := Lookup(Obj(delta.setValues.value), q);
            var after := Lookup(Obj(DeepAssign(c, delta.setValues.value)), q);
            && (IsLeaf(delta.setValues.value, q) ==>
                  after.Some? && ((stated == Some(Obj(map[])) && after.value.Obj?) || after == stated))
            && (AwayFrom(delta.setValues.value, q) ==> after == Lookup(Obj(c), q))
  {
    if IsLeaf(delta.setValues.value, q) {
      DeepAssignWrites(c, delta.setValues.value, q);
    } else if AwayFrom(delta.setValues.value, q) {
      DeepAssignFrame(c, delta.setValues.value, q);
    }
  }

  // ---------------------------------------------------------------- notify operations

  lemma {:induction false} PyEqReflexive(a: Json)
    ensures PyEq(a, a)
  {
    PyEqExactly(a, a);
  }

  /** The fields leave the entry under the address by which the operation looks for it. */
  predicate StillAddressed(op: Op)
    requires op.NotifySet?
  {
    && ("label" in op.fields ==> PyEq(op.fields["label"], op.entryLabel))
    && ("type" in op.fields ==> PyEq(op.fields["type"], op.kind))
  }

  /** The list on which an accepted `notify.set` that finds no entry appends one. */
  function NotifyList(c: Dict): seq<Json> {
    if "notify_data" in c && c["notify_data"].Arr? then c["notify_data"].items else []
  }

  /** The entry that such an operation appends. */
  function NewEntry(op: Op): Json
    requires op.NotifySet?
  {
    Obj(map["label" := op.entryLabel, "type" := op.kind] + op.fields)
  }

  function AddressOf(op: Op): Address
    requires op.NotifySet?
  {
    Labelled(op.entryLabel, op.kind)
  }

  lemma {:induction false} NewEntryMatches(op: Op)
    requires op.NotifySet?
    ensures Matches(NewEntry(op), AddressOf(op)) <==> StillAddressed(op)
    ensures NewEntry(op).members + op.fields == NewEntry(op).members
  {
    var members := NewEntry(op).members;
    PyEqReflexive(op.entryLabel);
    PyEqReflexive(op.kind);
    assert Get(members, "label") == if "label" in op.fields then op.fields["label"] else op.entryLabel;
    assert Get(members, "type") == if "type" in op.fields then op.fields["type"] else op.kind;
  }

  lemma {:induction false} PatchedEntryMatches(op: Op, entry: Dict)
    requires op.NotifySet? && Matches(Obj(entry), AddressOf(op))
    ensures Matches(Obj(entry + op.fields), AddressOf(op)) <==> StillAddressed(op)
    ensures !StillAddressed(op) ==> entry + op.fields != entry
  {
    var after := entry + op.fields;
    assert Get(after, "label") == if "label" in op.fields then op.fields["label"] else Get(entry, "label");
    assert Get(after, "type") == if "type" in op.fields then op.fields["type"] else Get(entry, "type");
  }

  /** Appending: the state an accepted `notify.set` leaves when no entry was found, and whether the new one is found. */
  lemma {:induction false} NotifySetAppends(c: Dict, op: Op)
    requires op.NotifySet? && ApplyNotifyOp(c, op).Done? && Find(c, AddressOf(op)).Missing?
    ensures ApplyNotifyOp(c, op).control == c["notify_data" := Arr(NotifyList(c) + [NewEntry(op)])]
    ensures Find(ApplyNotifyOp(c, op).control, AddressOf(op)) ==
            if StillAddressed(op) then At(|NotifyList(c)|) else Missing
  {
    NewEntryMatches(op);
    AppendedFirstMatch(NotifyList(c), NewEntry(op), AddressOf(op));
  }

  lemma {:induction false} AppendedFirstMatch(entries: seq<Json>, entry: Json, a: Address)
    requires FirstMatch(entries, a) == |entries|
    ensures FirstMatch(entries + [entry], a) == |entries| + if Matches(entry, a) then 0 else 1
  {
    var all := entries + [entry];
    assert forall i | 0 <= i < |entries| :: all[i] == entries[i];
    assert all[|entries|] == entry;
  }

  /** Patching: the entry found before is found again exactly when it is still addressed. */
  lemma {:induction false} NotifySetPatches(c: Dict, op: Op)
    requires op.NotifySet? && Find(c, AddressOf(op)).At?
    ensures var i, after := Find(c, AddressOf(op)).index, ApplyNotifyOp(c, op).control;
            && ApplyNotifyOp(c, op) == Done(Patch(c, i, op.fields))
            && !Find(after, AddressOf(op)).NotIterable?
            && (StillAddressed(op) ==> Find(after, AddressOf(op)) == At(i))
            && (!StillAddressed(op) && Find(after, AddressOf(op)).At? ==> i < Find(after, AddressOf(op)).index)
  {
    var i, a := Find(c, AddressOf(op)).index, AddressOf(op);
    var items, after := c["notify_data"].items, Patch(c, i, op.fields)["notify_data"].items;
    PatchedEntryMatches(op, items[i].members);
    assert forall j | 0 <= j < i :: after[j] == items[j] && !Matches(after[j], a);
    assert Matches(after[i], a) <==> StillAddressed(op);
  }

  /** After an accepted `notify.set` that leaves its entry addressed, the entry is found with every field as given. */
  lemma {:induction false} NotifySetStores(c: Dict, op: Op)
    requires op.NotifySet? && StillAddressed(op) && ApplyNotifyOp(c, op).Done?
    ensures var after, a := ApplyNotifyOp(c, op).control, AddressOf(op);
            && Find(after, a).At?
            && (Find(c, a).At? ==> Find(after, a) == Find(c, a))
            && var entry := after["notify_data"].items[Find(after, a).index].members;
            && (forall f | f in op.fields :: f in entry && entry[f] == op.fields[f])
            && Patch(after, Find(after, a).index, op.fields) == after
  {
    if Find(c, AddressOf(op)).At? {
      NotifySetPatches(c, op);
      PatchAgain(c, Find(c, AddressOf(op)).index, op.fields);
    } else {
      NotifySetAppends(c, op);
      NewEntryMatches(op);
      var all := NotifyList(c) + [NewEntry(op)];
      assert all[|NotifyList(c)| := NewEntry(op)] == all;
    }
  }

  lemma {:induction false} PatchAgain(c: Dict, i: nat, fields: Dict)
    requires "notify_data" in c && c["notify_data"].Arr?
    requires i < |c["notify_data"].items| && c["notify_data"].items[i].Obj?
    ensures Patch(Patch(c, i, fields), i, fields) == Patch(c, i, fields)
  {
    var members := c["notify_data"].items[i].members;
    assert members + fields + fields == members + fields;
    var items := c["notify_data"].items[i := Obj(members + fields)];
    assert items[i := Obj(members + fields)] == items;
  }

  /** A set that takes its entry away from its own address changes something each time it is applied. */
  lemma {:induction false} RenamingSetChanges(d: Dict, op: Op)
    requires op.NotifySet? && !StillAddressed(op) && ApplyNotifyOp(d, op).Done?
    ensures ApplyNotifyOp(d, op).control != d
  {
    if Find(d, AddressOf(op)).At? {
      var i := Find(d, AddressOf(op)).index;
      NotifySetPatches(d, op);
      PatchedEntryMatches(op, d["notify_data"].items[i].members);
      assert ApplyNotifyOp(d, op).control["notify_data"].items[i] != d["notify_data"].items[i];
    } else {
      NotifySetAppends(d, op);
      assert |NotifyList(ApplyNotifyOp(d, op).control)| == |NotifyList(d)| + 1;
    }
  }

  /** Repeating an accepted `notify.set` changes nothing exactly when its fields leave the entry under its address. */
  lemma {:induction false} NotifySetIsIdempotent(c: Dict, op: Op)
    requires op.NotifySet? && ApplyNotifyOp(c, op).Done?
    ensures var once := ApplyNotifyOp(c, op).control;
            ApplyNotifyOp(once, op) == Done(once) <==> StillAddressed(op)
  {
    if StillAddressed(op) {
      NotifySetStores(c, op);
    } else if ApplyNotifyOp(ApplyNotifyOp(c, op).control, op).Done? {
      RenamingSetChanges(ApplyNotifyOp(c, op).control, op);
    }
  }

  /** On an empty list, a set that renames its entry adds one, and repeated another. */
  lemma {:induction false} RenamingSetGrows(entryLabel: string, other: string, kind: Json)
    requires entryLabel != other
    ensures var op := NotifySet(Str(entryLabel), kind, map["label" := Str(other)]);
            var once := ApplyNotifyOp(map[], op);
            && once.Done? && ApplyNotifyOp(once.control, op).Done?
            && |NotifyList(once.control)| == 1 && |NotifyList(ApplyNotifyOp(once.control, op).control)| == 2
  {
    var op := NotifySet(Str(entryLabel), kind, map["label" := Str(other)]);
    var none: Dict := map[];
    assert Get(none, "notify_data") == Null && Find(none, AddressOf(op)).Missing?;
    assert !StillAddressed(op);
    NotifySetAppends(none, op);
    NotifySetAppends(ApplyNotifyOp(none, op).control, op);
  }

  /** Deleting by address takes back what a `notify.set` appended, exactly when the new entry is under that address. */
  lemma {:induction false} NotifyDeleteUndoesSet(c: Dict, op: Op)
    requires op.NotifySet? && ApplyNotifyOp(c, op).Done? && Find(c, AddressOf(op)).Missing?
    ensures var undone := ApplyNotifyOp(ApplyNotifyOp(c, op).control, NotifyDelete(op.entryLabel, op.kind));
            undone == Done(if "notify_data" in c then c else c["notify_data" := Arr([])]) <==> StillAddressed(op)
  {
    NotifySetAppends(c, op);
    var after, n := ApplyNotifyOp(c, op).control, |NotifyList(c)|;
    assert after["notify_data" := Arr(NotifyList(c))] == c["notify_data" := Arr(NotifyList(c))];
    if StillAddressed(op) {
      DeleteLast(after, op, NotifyList(c));
    } else {
      assert ApplyNotifyOp(after, NotifyDelete(op.entryLabel, op.kind)) == Done(after);
      assert |NotifyList(after)| == n + 1;
    }
  }

  lemma {:induction false} DeleteLast(after: Dict, op: Op, entries: seq<Json>)
    requires op.NotifySet? && Find(after, AddressOf(op)) == At(|entries|)
    requires after["notify_data"] == Arr(entries + [NewEntry(op)])
    ensures ApplyNotifyOp(after, NotifyDelete(op.entryLabel, op.kind)) == Done(after["notify_data" := Arr(entries)])
  {
    var all, n := entries + [NewEntry(op)], |entries|;
    assert all[..n] + all[n + 1..] == entries;
  }

  // ---------------------------------------------------------------- timer operations are timer steps

  /** The step of the timer machine that an operation takes; clearing starts over. */
  function TimerEvent(op: Op, before: TimerRecord, freshId: Uuid): TimerRuns.Event
    requires op.IsTimer() && !op.TimerClear?
  {
    if op.TimerPause? then TimerRuns.Pause(false)
    else if op.TimerStartWithOptions? then TimerRuns.Start(op.duration, freshId)
    else if before.state.Paused? || before.state.Interrupted? then TimerRuns.Resume(freshId)
    else TimerRuns.Start(if op.seconds.Some? then op.seconds.value else 60.0, freshId)
  }

  lemma {:induction false} StoreKeepsTimer(c: Dict, t: TimerRecord, fields: Dict)
    requires Admissible(t)
    ensures StoreTimer(c, t, fields).Done? ==> StoredTimer(StoreTimer(c, t, fields).control) == Success(t)
  {
    ParseTimerRoundTrip(t);
  }

  /**
   An accepted timer operation stores the default record or takes one step of the
   timer machine, and arms it when it starts.
   */
  lemma {:induction false} TimerOpIsStep(c: Dict, op: Op, now: ClockStamp, freshId: Uuid)
    requires op.IsTimer() && ApplyTimerOp(c, op, now, freshId).Done?
    ensures var after := ApplyTimerOp(c, op, now, freshId).control;
            if op.TimerClear? then StoredTimer(after) == Success(DEFAULT_TIMER)
            else
              && StoredTimer(c).Success?
              && var tick := TimerRuns.Tick(TimerEvent(op, StoredTimer(c).value, freshId), now);
              && StoredTimer(after) == Success(TimerRuns.Step(StoredTimer(c).value, tick).0)
              && TimerRuns.Armings(StoredTimer(c).value, [tick]) == [!op.TimerPause?]
  {
    if op.TimerClear? {
      StoreKeepsTimer(c, DEFAULT_TIMER, OptionFields(false, false, false));
    } else {
      var before := StoredTimer(c).value;
      ParseTimerAdmits(c["timer"]);
      var next := TimerRuns.Step(before, TimerRuns.Tick(TimerEvent(op, before, freshId), now)).0;
      StepsStayAdmissible(before, now, 0.0, freshId, false);
      StoreKeepsTimer(c, next, if op.TimerPause? then ReqField(false) else if op.TimerStartOrResume? then ReqField(true)
                               else OptionFields(true, op.shutdown, op.keepWarm));
    }
  }
}
