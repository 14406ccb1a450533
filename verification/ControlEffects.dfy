/**
 What each accepted operation does to the control dictionary, member by member and
 field by field, in the names that the dictionary itself uses.
 */
module ControlEffects {
  import opened Wrappers
  import opened JsonValues
  import opened ClockDomain
  import opened Timers
  import opened ControlDeltas
  import opened ControlFootprints

  // ---------------------------------------------------------------- sameness and places

  /** A key is absent from both, or holds the same in both. */
  predicate SameAt(c: Dict, d: Dict, k: string) {
    (k in c <==> k in d) && (k in c ==> c[k] == d[k])
  }

  ghost predicate SameExcept(c: Dict, d: Dict, keys: set<string>) {
    forall k | k !in keys :: SameAt(c, d, k)
  }

  predicate HasList(c: Dict) {
    "notify_data" in c && c["notify_data"].Arr?
  }

  function List(c: Dict): seq<Json>
    requires HasList(c)
  {
    c["notify_data"].items
  }

  predicate OfTimer(entry: Json) {
    entry.Obj? && "type" in entry.members && entry.members["type"] == Str("timer")
  }

  /** The first entry of type "timer" is the one at `i`. */
  ghost predicate TimerAt(c: Dict, i: nat) {
    HasList(c) && i < |List(c)| && OfTimer(List(c)[i]) && forall j | 0 <= j < i :: !OfTimer(List(c)[j])
  }

  /** `entry.get(key) == value`. */
  predicate Holds(entry: Dict, key: string, value: Json) {
    PyEq(if key in entry then entry[key] else Null, value)
  }

  predicate Named(entry: Json, entryLabel: Json, kind: Json) {
    entry.Obj? && Holds(entry.members, "label", entryLabel) && Holds(entry.members, "type", kind)
  }

  /** The first entry with this label and type is the one at `i`. */
  ghost predicate NamedAt(c: Dict, entryLabel: Json, kind: Json, i: nat) {
    && HasList(c) && i < |List(c)| && Named(List(c)[i], entryLabel, kind)
    && forall j | 0 <= j < i :: !Named(List(c)[j], entryLabel, kind)
  }

  /** Only the entry at `i` of the notify list has changed, and it is still a mapping. */
  ghost predicate OnlyEntry(c: Dict, d: Dict, i: nat) {
    && HasList(c) && HasList(d) && |List(d)| == |List(c)|
    && i < |List(c)| && List(c)[i].Obj? && List(d)[i].Obj?
    && forall j | 0 <= j < |List(c)| && j != i :: List(d)[j] == List(c)[j]
  }

  lemma {:induction false} TimerPlace(c: Dict, i: nat)
    ensures TimerAt(c, i) <==> Find(c, TimerKind) == At(i)
  {
    if HasList(c) {
      forall j | 0 <= j < |List(c)| ensures Matches(List(c)[j], TimerKind) <==> OfTimer(List(c)[j]) {
      }
      var k := FirstMatch(List(c), TimerKind);
    }
  }

  lemma {:induction false} NamedPlace(c: Dict, entryLabel: Json, kind: Json, i: nat)
    ensures NamedAt(c, entryLabel, kind, i) <==> Find(c, Labelled(entryLabel, kind)) == At(i)
  {
    if HasList(c) {
      var a := Labelled(entryLabel, kind);
      forall j | 0 <= j < |List(c)| ensures Matches(List(c)[j], a) <==> Named(List(c)[j], entryLabel, kind) {
      }
      var k := FirstMatch(List(c), a);
    }
  }

  /** A value that cannot be looped over: no list, no text and no mapping. */
  predicate NoList(value: Json) {
    value.Null? || value.Bool? || value.IsNumber()
  }

  /** A search raises exactly on a value that cannot be looped over; texts and mappings hold no entries. */
  lemma {:induction false} SearchRaises(c: Dict, a: Address)
    ensures Find(c, a).NotIterable? <==> "notify_data" in c && NoList(c["notify_data"])
    ensures Find(c, a).At? ==> HasList(c)
  {
  }

  // ---------------------------------------------------------------- timer operations

  /** What an accepted timer operation makes of the timer's notify entry. */
  ghost predicate TimerEntry(op: Op, before: Dict, after: Dict)
    requires op.IsTimer()
  {
    && SameExcept(before, after, {"req", "shutdown", "keep_warm"})
    && "req" in after
    && match op
       case TimerClear(_) =>
         && after["req"] == Bool(false)
         && "shutdown" in after && after["shutdown"] == Bool(false)
         && "keep_warm" in after && after["keep_warm"] == Bool(false)
       case TimerPause(_) =>
         after["req"] == Bool(false) && SameAt(before, after, "shutdown") && SameAt(before, after, "keep_warm")
       case TimerStartOrResume(_, _) =>
         after["req"] == Bool(true) && SameAt(before, after, "shutdown") && SameAt(before, after, "keep_warm")
       case TimerStartWithOptions(_, _, shutdown, keepWarm) =>
         && after["req"] == Bool(true)
         && "shutdown" in after && after["shutdown"] == Bool(shutdown)
         && "keep_warm" in after && after["keep_warm"] == Bool(keepWarm)
  }

  lemma {:induction false} TimerOpStores(c: Dict, op: Op, now: ClockStamp, freshId: Uuid) returns (t: TimerRecord)
    requires op.IsTimer() && ApplyTimerOp(c, op, now, freshId).Done?
    ensures ApplyTimerOp(c, op, now, freshId) == StoreTimer(c, t, EntryFields(op))
  {
    if op.TimerClear? {
      t := DEFAULT_TIMER;
    } else {
      var before := StoredTimer(c).value;
      var seconds := if op.TimerStartOrResume? && op.seconds.Some? then op.seconds.value else DEFAULT_TIMER_SECONDS;
      t := if op.TimerPause? then PauseTimer(before, now, false)
           else if op.TimerStartWithOptions? then StartTimer(op.duration, now, freshId).value
           else if before.state.Paused? || before.state.Interrupted? then ResumeTimer(before, now, freshId).value
           else StartTimer(seconds, now, freshId).value;
    }
  }

  lemma {:induction false} FieldsFit(op: Op, before: Dict)
    requires op.IsTimer()
    ensures TimerEntry(op, before, before + EntryFields(op))
  {
  }

  lemma {:induction false} StoreEffect(c: Dict, t: TimerRecord, fields: Dict)
    requires StoreTimer(c, t, fields).Done?
    ensures var after := StoreTimer(c, t, fields).control;
            && SameExcept(c, after, {"timer", "notify_data"})
            && (Find(c, TimerKind).At? ==>
                  var i := Find(c, TimerKind).index;
                  OnlyEntry(c, after, i) && List(after)[i].members == List(c)[i].members + fields)
            && (!Find(c, TimerKind).At? ==> SameAt(c, after, "notify_data"))
  {
  }

  /**
   An accepted timer operation changes the timer and, of the first entry of type
   "timer", the flags that it names; without such an entry the timer alone.
   */
  lemma {:induction false} TimerOpEffect(c: Dict, op: Op, now: ClockStamp, freshId: Uuid)
    requires op.IsTimer() && ApplyOp(c, op, now, freshId).Done?
    ensures var after := ApplyOp(c, op, now, freshId).control;
            && SameExcept(c, after, {"timer", "notify_data"})
            && (forall i: nat | TimerAt(c, i) ::
                  OnlyEntry(c, after, i) && TimerEntry(op, List(c)[i].members, List(after)[i].members))
            && ((forall i: nat :: !TimerAt(c, i)) ==> SameAt(c, after, "notify_data"))
  {
    forall i: nat ensures TimerAt(c, i) <==> Find(c, TimerKind) == At(i) {
      TimerPlace(c, i);
    }
    var t := TimerOpStores(c, op, now, freshId);
    StoreEffect(c, t, EntryFields(op));
    if Find(c, TimerKind).At? {
      var i := Find(c, TimerKind).index;
      assert TimerAt(c, i);
      FieldsFit(op, List(c)[i].members);
    }
  }

  // ---------------------------------------------------------------- notify operations

  /** A notify operation raises where it cannot search, or has to append to what is no list; nothing changes then. */
  lemma {:induction false} NotifyRaises(c: Dict, op: Op, now: ClockStamp, freshId: Uuid)
    requires op.IsNotify()
    ensures var outcome := ApplyOp(c, op, now, freshId);
            && (outcome.Raised? <==>
                  && !op.NotifyReplace? && "notify_data" in c
                  && (if op.NotifySet? then !c["notify_data"].Arr? else NoList(c["notify_data"])))
            && (outcome.Raised? ==> outcome.control == c)
  {
    if !op.NotifyReplace? {
      SearchRaises(c, Labelled(op.entryLabel, op.kind));
    }
  }

  /** `notify.set` writes each given field into the entry it finds, or appends an entry of these fields. */
  lemma {:induction false} NotifySetEffect(c: Dict, op: Op, now: ClockStamp, freshId: Uuid)
    requires op.NotifySet? && ApplyOp(c, op, now, freshId).Done?
    ensures var after := ApplyOp(c, op, now, freshId).control;
            && SameExcept(c, after, {"notify_data"})
            && (forall i: nat | NamedAt(c, op.entryLabel, op.kind, i) ::
                  && OnlyEntry(c, after, i)
                  && SameExcept(List(c)[i].members, List(after)[i].members, op.fields.Keys)
                  && forall f | f in op.fields ::
                       f in List(after)[i].members && List(after)[i].members[f] == op.fields[f])
            && ((forall i: nat :: !NamedAt(c, op.entryLabel, op.kind, i)) ==>
                  && HasList(after) && List(after) != []
                  && List(after)[..|List(after)| - 1] == (if HasList(c) then List(c) else [])
                  && IsNewEntry(List(after)[|List(after)| - 1], op))
  {
    forall i: nat
      ensures NamedAt(c, op.entryLabel, op.kind, i) <==> Find(c, Labelled(op.entryLabel, op.kind)) == At(i)
    {
      NamedPlace(c, op.entryLabel, op.kind, i);
    }
    if Find(c, Labelled(op.entryLabel, op.kind)).At? {
      assert NamedAt(c, op.entryLabel, op.kind, Find(c, Labelled(op.entryLabel, op.kind)).index);
    }
  }

  /** An entry of the operation's label and type with its fields, which may replace either. */
  ghost predicate IsNewEntry(entry: Json, op: Op)
    requires op.NotifySet?
  {
    && entry.Obj? && entry.members.Keys == {"label", "type"} + op.fields.Keys
    && (forall f | f in op.fields :: entry.members[f] == op.fields[f])
    && ("label" !in op.fields ==> entry.members["label"] == op.entryLabel)
    && ("type" !in op.fields ==> entry.members["type"] == op.kind)
  }

  /** `notify.delete` takes out the first entry of that label and type, and nothing else. */
  lemma {:induction false} NotifyDeleteEffect(c: Dict, op: Op, now: ClockStamp, freshId: Uuid)
    requires op.NotifyDelete? && ApplyOp(c, op, now, freshId).Done?
    ensures var after := ApplyOp(c, op, now, freshId).control;
            && SameExcept(c, after, {"notify_data"})
            && (forall i: nat | NamedAt(c, op.entryLabel, op.kind, i) ::
                  && HasList(after) && |List(after)| == |List(c)| - 1
                  && (forall j | 0 <= j < i :: List(after)[j] == List(c)[j])
                  && (forall j | i < j < |List(c)| :: List(after)[j - 1] == List(c)[j]))
            && ((forall i: nat :: !NamedAt(c, op.entryLabel, op.kind, i)) ==> SameAt(c, after, "notify_data"))
  {
    forall i: nat
      ensures NamedAt(c, op.entryLabel, op.kind, i) <==> Find(c, Labelled(op.entryLabel, op.kind)) == At(i)
    {
      NamedPlace(c, op.entryLabel, op.kind, i);
    }
    if Find(c, Labelled(op.entryLabel, op.kind)).At? {
      assert NamedAt(c, op.entryLabel, op.kind, Find(c, Labelled(op.entryLabel, op.kind)).index);
    }
  }

  /** `notify.replace` is always accepted, and the list is then the given one. */
  lemma {:induction false} NotifyReplaceEffect(c: Dict, op: Op, now: ClockStamp, freshId: Uuid)
    requires op.NotifyReplace?
    ensures var outcome := ApplyOp(c, op, now, freshId);
            && outcome.Done? && SameExcept(c, outcome.control, {"notify_data"})
            && HasList(outcome.control) && List(outcome.control) == op.entries
  {
  }

  // ---------------------------------------------------------------- setpoint and calibration

  /** `hold.set_setpoint` is always accepted; it raises `updated` exactly when it enters the mode. */
  lemma {:induction false} HoldEffect(c: Dict, op: Op, now: ClockStamp, freshId: Uuid)
    requires op.HoldSetSetpoint?
    ensures var outcome := ApplyOp(c, op, now, freshId);
            && outcome.Done?
            && var after := outcome.control;
            && SameExcept(c, after, {"mode", "updated", "primary_setpoint"})
            && "primary_setpoint" in after && after["primary_setpoint"] == op.setpoint
            && "mode" in after && after["mode"] == Str("Hold")
            && (if "mode" in c && c["mode"] == Str("Hold") then SameAt(c, after, "updated")
                else "updated" in after && after["updated"] == Bool(true))
  {
  }

  /** The register's value under a revision, if it is a mapping that carries one. */
  predicate Revisioned(value: Json) {
    value.Obj? && "revision" in value.members && value.members["revision"].Int?
  }

  /** A queued command in the names that the register uses. */
  ghost predicate IsCommand(value: Json, command: CalibrationCommand) {
    && value.Obj?
    && value.members.Keys ==
       {"action", "revision", "ambient_c", "ambient_source", "empty_grill_confirmed", "pellets_confirmed"}
    && value.members["action"] == Str(command.action) && value.members["revision"] == Int(command.revision)
    && value.members["ambient_c"] == Real(command.ambient) && value.members["ambient_source"] == Str(command.source)
    && value.members["empty_grill_confirmed"] == Bool(true) && value.members["pellets_confirmed"] == Bool(true)
  }

  /**
   `mpc_calibration.set` is always accepted. It stores the command in an empty
   register, or over a lower revision; otherwise the register stays.
   */
  lemma {:induction false} CalibrationEffect(c: Dict, op: Op, now: ClockStamp, freshId: Uuid)
    requires op.CalibrationSet?
    ensures var outcome := ApplyOp(c, op, now, freshId);
            && outcome.Done? && SameExcept(c, outcome.control, {"mpc_calibration"})
            && var previous := if "mpc_calibration" in c then c["mpc_calibration"] else Null;
               if previous.Null? || (Revisioned(previous) && previous.members["revision"].i < op.command.revision)
               then "mpc_calibration" in outcome.control &&
                    IsCommand(outcome.control["mpc_calibration"], op.command)
               else SameAt(c, outcome.control, "mpc_calibration")
  {
  }

  // ---------------------------------------------------------------- footprints

  /**
   The footprint of one operation: its own members; for timer operations the timer
   and the first entry of that type; for a `notify.set` that keeps label and type the
   entry it finds; and the whole list where no entry is found or the list changes.
   */
  lemma {:induction false} FootprintExactly(op: Op, c: Dict, r: Region)
    ensures op.HoldSetSetpoint? ==>
              (OpTouches(op, c, r) <==>
                 r == Member(["mode"]) || r == Member(["updated"]) || r == Member(["primary_setpoint"]))
    ensures op.CalibrationSet? ==> (OpTouches(op, c, r) <==> r == Member(["mpc_calibration"]))
    ensures op.IsTimer() ==>
              && (forall i: nat | TimerAt(c, i) :: OpTouches(op, c, r) <==> r == Member(["timer"]) || r == Entry(i))
              && ((forall i: nat :: !TimerAt(c, i)) ==>
                    (OpTouches(op, c, r) <==> r == Member(["timer"]) || r == Member(["notify_data"])))
    ensures op.NotifySet? && "label" !in op.fields && "type" !in op.fields ==>
              && (forall i: nat | NamedAt(c, op.entryLabel, op.kind, i) :: OpTouches(op, c, r) <==> r == Entry(i))
              && ((forall i: nat :: !NamedAt(c, op.entryLabel, op.kind, i)) ==>
                    (OpTouches(op, c, r) <==> r == Member(["notify_data"])))
    ensures op.NotifySet? && ("label" in op.fields || "type" in op.fields) ==>
              (OpTouches(op, c, r) <==> r == Member(["notify_data"]))
    ensures op.NotifyDelete? || op.NotifyReplace? ==> (OpTouches(op, c, r) <==> r == Member(["notify_data"]))
  {
    if op.IsTimer() {
      forall i: nat ensures TimerAt(c, i) <==> Find(c, TimerKind) == At(i) {
        TimerPlace(c, i);
      }
    } else if op.NotifySet? {
      forall i: nat
        ensures NamedAt(c, op.entryLabel, op.kind, i) <==> Find(c, Labelled(op.entryLabel, op.kind)) == At(i)
      {
        NamedPlace(c, op.entryLabel, op.kind, i);
      }
    }
  }

  /** Two places clash exactly when one lies in the other; an entry lies in the list and in no other entry. */
  lemma {:induction false} ClashExactly(p: seq<string>, q: seq<string>, i: nat, j: nat)
    ensures Clash(Member(p), Member(q)) <==> p <= q || q <= p
    ensures Clash(Entry(i), Entry(j)) <==> i == j
    ensures Clash(Member(p), Entry(i)) <==> p == [] || p[0] == "notify_data"
    ensures Clash(Entry(i), Member(p)) <==> Clash(Member(p), Entry(i))
  {
    if p != [] && p[0] == "notify_data" {
      assert ["notify_data"] <= p;
    }
  }

  // ---------------------------------------------------------------- two writers of the notify list

  /** The fields of one operation are in the entry that it finds. */
  ghost predicate Survives(c: Dict, op: Op)
    requires op.NotifySet?
  {
    forall i: nat | NamedAt(c, op.entryLabel, op.kind, i) ::
      forall f | f in op.fields :: f in List(c)[i].members && List(c)[i].members[f] == op.fields[f]
  }

  /**
   Two writers that patch different entries, or different fields of one, both survive:
   in either order the list is the same, and holds the fields of both.
   */
  lemma {:induction false} BothWritersSurvive(c: Dict, a: Op, b: Op, i: nat, j: nat)
    requires a.NotifySet? && b.NotifySet? && KeepsAddress(a.fields) && KeepsAddress(b.fields)
    requires NamedAt(c, a.entryLabel, a.kind, i) && NamedAt(c, b.entryLabel, b.kind, j)
    requires i != j || a.fields.Keys !! b.fields.Keys
    ensures ApplyNotifyOp(c, a).Done? && ApplyNotifyOp(c, b).Done?
    ensures var first, second := ApplyNotifyOp(c, a).control, ApplyNotifyOp(c, b).control;
            && ApplyNotifyOp(first, b) == ApplyNotifyOp(second, a)
            && ApplyNotifyOp(first, b).Done?
            && Survives(ApplyNotifyOp(first, b).control, a) && Survives(ApplyNotifyOp(first, b).control, b)
  {
    NamedPlace(c, a.entryLabel, a.kind, i);
    NamedPlace(c, b.entryLabel, b.kind, j);
    SetAfterPatch(c, a, i, b, j);
    SetAfterPatch(c, b, j, a, i);
    PatchesMeet(c, i, a.fields, j, b.fields);
    FieldsInBoth(c, i, a.fields, j, b.fields);
    var both := Patch(Patch(c, i, a.fields), j, b.fields);
    forall k: nat | NamedAt(both, a.entryLabel, a.kind, k) ensures k == i {
      NamedPlace(both, a.entryLabel, a.kind, k);
    }
    forall k: nat | NamedAt(both, b.entryLabel, b.kind, k) ensures k == j {
      NamedPlace(both, b.entryLabel, b.kind, k);
    }
  }

  /** After the patch of one writer the other one finds its entry, and both are found where they were. */
  lemma {:induction false} SetAfterPatch(c: Dict, a: Op, i: nat, b: Op, j: nat)
    requires a.NotifySet? && b.NotifySet? && KeepsAddress(a.fields) && KeepsAddress(b.fields)
    requires Find(c, Labelled(a.entryLabel, a.kind)) == At(i) && Find(c, Labelled(b.entryLabel, b.kind)) == At(j)
    ensures ApplyNotifyOp(c, a) == Done(Patch(c, i, a.fields)) && HasList(Patch(c, i, a.fields))
    ensures j < |List(Patch(c, i, a.fields))| && List(Patch(c, i, a.fields))[j].Obj?
    ensures var both := Patch(Patch(c, i, a.fields), j, b.fields);
            && ApplyNotifyOp(Patch(c, i, a.fields), b) == Done(both)
            && Find(both, Labelled(a.entryLabel, a.kind)) == At(i)
            && Find(both, Labelled(b.entryLabel, b.kind)) == At(j)
  {
    var first := Patch(c, i, a.fields);
    PatchKeepsFind(c, i, a.fields, Labelled(a.entryLabel, a.kind));
    PatchKeepsFind(c, i, a.fields, Labelled(b.entryLabel, b.kind));
    PatchKeepsFind(first, j, b.fields, Labelled(a.entryLabel, a.kind));
    PatchKeepsFind(first, j, b.fields, Labelled(b.entryLabel, b.kind));
  }

  lemma {:induction false} FieldsInBoth(c: Dict, i: nat, f: Dict, j: nat, g: Dict)
    requires HasList(c) && i < |List(c)| && List(c)[i].Obj? && j < |List(c)| && List(c)[j].Obj?
    requires i != j || f.Keys !! g.Keys
    ensures var both := Patch(Patch(c, i, f), j, g);
            && HasList(both) && |List(both)| == |List(c)| && List(both)[i].Obj? && List(both)[j].Obj?
            && (forall k | k in f :: k in List(both)[i].members && List(both)[i].members[k] == f[k])
            && (forall k | k in g :: k in List(both)[j].members && List(both)[j].members[k] == g[k])
  {
  }

  lemma {:induction false} PatchesMeet(c: Dict, i: nat, f: Dict, j: nat, g: Dict)
    requires HasList(c) && i < |List(c)| && List(c)[i].Obj? && j < |List(c)| && List(c)[j].Obj?
    requires i != j || f.Keys !! g.Keys
    ensures Patch(Patch(c, i, f), j, g) == Patch(Patch(c, j, g), i, f)
  {
    if i != j {
      PatchesCommute(c, i, f, j, g);
    } else {
      var members := List(c)[i].members;
      assert (members + f) + g == (members + g) + f;
      var items, x, y := List(c), Obj(members + f), Obj(members + g);
      assert items[i := x][i := Obj(members + f + g)] == items[i := y][i := Obj(members + g + f)];
    }
  }
}
