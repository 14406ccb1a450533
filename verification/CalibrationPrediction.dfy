/**
 What a request handler says the calibration register will hold, from live state
 and the queue, against what the drain of that queue leaves there.
 */
module CalibrationPrediction {
  import opened Wrappers
  import opened JsonValues
  import opened JsonTrees
  import opened ClockDomain
  import opened UuidTexts
  import opened ControlDeltas
  import opened ControlFootprints
  import opened ControlWriters
  import opened ControlEnvelopes
  import opened ControlMeanings
  import opened ControlDrain
  import opened CalibrationRegister

  const MEMBER := "mpc_calibration"

  // ---------------------------------------------------------------- the handler

  /** The command of the first calibration entry that has one, valid or not. */
  function FirstIn(entries: seq<Json>): Option<Dict> {
    if entries == [] then None
    else if entries[0].Obj? && Get(entries[0].members, "op") == Str("mpc_calibration.set") &&
            Get(entries[0].members, "command").Obj? then Some(Get(entries[0].members, "command").members)
    else FirstIn(entries[1..])
  }

  /** What the handler takes from one queued envelope; looking through `ops` raises when they cannot be iterated. */
  datatype Announcement = Raises | Nothing | Announces(command: Dict)

  function Announced(envelope: Json): Announcement {
    if !envelope.Obj? || "ops" !in envelope.members then Nothing
    else
      match envelope.members["ops"]
      case Arr(entries) => (match FirstIn(entries) case Some(command) => Announces(command) case None => Nothing)
      case Str(_) => Nothing
      case Obj(_) => Nothing
      case _ => Raises
  }

  /** The commands the handler sees, in queue order. */
  function Announcements(rows: seq<Row>): Option<seq<Dict>> {
    if rows == [] then Some([])
    else
      match (Announcements(rows[..|rows| - 1]), Announced(rows[|rows| - 1].command))
      case (Some(before), Nothing) => Some(before)
      case (Some(before), Announces(command)) => Some(before + [command])
      case (_, _) => None
  }

  function KnownRevision(accepted: Json): int {
    if accepted.Obj? && Get(accepted.members, "revision").Int? then Get(accepted.members, "revision").i else -1
  }

  /** `mpc_calibration_command_state`: a command replaces what is accepted so far when its revision is higher. */
  function Scan(live: Json, commands: seq<Dict>): Json {
    if commands == [] then live
    else
      var accepted, next := Scan(live, commands[..|commands| - 1]), commands[|commands| - 1];
      if Get(next, "revision").Int? && Get(next, "revision").i > KnownRevision(accepted) then Obj(next) else accepted
  }

  /** The register as a handler reads it: anything but a mapping counts as none. */
  function Shown(value: Json): Json {
    if value.Obj? then value else Null
  }

  function Seen(c: Dict): Json {
    Shown(Get(c, MEMBER))
  }

  function Predicted(c: Dict, rows: seq<Row>): Option<Json> {
    match Announcements(rows)
    case Some(commands) => Some(Scan(Seen(c), commands))
    case None => None
  }

  /** An entry that the handler takes for a calibration command. */
  predicate CarriesCommand(entry: Json, command: Dict) {
    && entry.Obj? && "op" in entry.members && entry.members["op"] == Str("mpc_calibration.set")
    && "command" in entry.members && entry.members["command"] == Obj(command)
  }

  /** Of a list of entries the first that carries a command is taken, whatever else the entries are. */
  lemma {:induction false} FirstInMeaning(entries: seq<Json>) returns (i: nat)
    ensures i <= |entries| && forall j, other | 0 <= j < i :: !CarriesCommand(entries[j], other)
    ensures if i < |entries| then FirstIn(entries).Some? && CarriesCommand(entries[i], FirstIn(entries).value)
            else FirstIn(entries).None?
  {
    i := 0;
    if entries != [] && (forall command :: !CarriesCommand(entries[0], command)) {
      var k := FirstInMeaning(entries[1..]);
      i := k + 1;
      NothingCarried(entries[0]);
      assert forall j | 1 <= j < i :: entries[j] == entries[1..][j - 1];
    }
  }

  lemma {:induction false} NothingCarried(entry: Json)
    requires forall command :: !CarriesCommand(entry, command)
    ensures FirstIn([entry]) == None
    ensures forall rest :: FirstIn([entry] + rest) == FirstIn(rest)
  {
    if entry.Obj? && Get(entry.members, "command").Obj? {
      assert !CarriesCommand(entry, Get(entry.members, "command").members);
    }
    forall rest ensures FirstIn([entry] + rest) == FirstIn(rest) {
      assert ([entry] + rest)[1..] == rest;
    }
    assert FirstIn([entry]) == FirstIn([entry] + []) == FirstIn([]);
  }

  /** What is announced of an envelope, by what its operations are. */
  lemma {:induction false} AnnouncedMeaning(envelope: Json)
    ensures Announced(envelope) == Raises <==>
            envelope.Obj? && "ops" in envelope.members &&
            (envelope.members["ops"].Null? || envelope.members["ops"].Bool? || envelope.members["ops"].IsNumber())
    ensures forall command :: Announced(envelope) == Announces(command) <==>
              envelope.Obj? && "ops" in envelope.members && envelope.members["ops"].Arr? &&
              FirstIn(envelope.members["ops"].items) == Some(command)
  {
  }

  /** The revision of a command that has one. */
  predicate HasRevision(value: Json, revision: int) {
    value.Obj? && "revision" in value.members && value.members["revision"] == Int(revision)
  }

  lemma {:induction false} KnownMeans(value: Json)
    ensures || HasRevision(value, KnownRevision(value))
            || (KnownRevision(value) == -1 && forall r :: !HasRevision(value, r))
    ensures forall r | HasRevision(value, r) :: r == KnownRevision(value)
  {
    if value.Obj? && "revision" in value.members && value.members["revision"].Int? {
      assert HasRevision(value, value.members["revision"].i);
    }
  }

  /**
   The scan answers with the first of the commands at their highest revision, if that
   is above the live one (or above -1 where there is none), and else with the live value.
   */
  lemma {:induction false} ScanMeaning(live: Json, commands: seq<Dict>) returns (k: nat, best: int)
    ensures k <= |commands| && Scan(live, commands) == if k < |commands| then Obj(commands[k]) else live
    ensures if k < |commands| then HasRevision(Obj(commands[k]), best)
            else HasRevision(live, best) || (best == -1 && forall r :: !HasRevision(live, r))
    ensures k < |commands| ==> forall r | HasRevision(live, r) :: r < best
    ensures k < |commands| ==> best > -1 || exists r :: HasRevision(live, r)
    ensures forall j, r | 0 <= j < |commands| && HasRevision(Obj(commands[j]), r) ::
              r <= best && (j < k < |commands| ==> r < best)
    decreases |commands|
  {
    if commands == [] {
      k, best := 0, KnownRevision(live);
      KnownMeans(live);
    } else {
      var n := |commands| - 1;
      var next := commands[n];
      k, best := ScanMeaning(live, commands[..n]);
      var known := KnownRevision(Scan(live, commands[..n]));
      KnownMeans(Scan(live, commands[..n]));
      assert forall j | 0 <= j < n :: commands[..n][j] == commands[j];
      assert forall r | HasRevision(Obj(next), r) :: r == Get(next, "revision").i;
      if Get(next, "revision").Int? && Get(next, "revision").i > known {
        k, best := n, Get(next, "revision").i;
      } else if k == n {
        k := |commands|;
      }
      assert k < |commands| && best <= -1 ==> exists r :: HasRevision(live, r);
    }
  }

  /** A handler reads the register's value when it is a mapping, and none otherwise; from there it scans. */
  lemma {:induction false} HandlerReads(c: Dict, rows: seq<Row>)
    ensures Seen(c) == if "mpc_calibration" in c && c["mpc_calibration"].Obj? then c["mpc_calibration"] else Null
    ensures Predicted(c, rows).None? <==> exists i | 0 <= i < |rows| :: Announced(rows[i].command) == Raises
    ensures Announcements(rows).Some? ==> Predicted(c, rows) == Some(Scan(Seen(c), Announcements(rows).value))
  {
    NoneRaised(rows);
  }

  lemma {:induction false} NoneRaised(rows: seq<Row>)
    ensures Announcements(rows).None? <==> exists i | 0 <= i < |rows| :: Announced(rows[i].command) == Raises
  {
    if rows != [] {
      var n := |rows| - 1;
      NoneRaised(rows[..n]);
      if i :| 0 <= i < |rows| && Announced(rows[i].command) == Raises {
        assert i < n ==> rows[..n][i] == rows[i];
      }
    }
  }

  // ---------------------------------------------------------------- the drain

  function Base(durable: Option<Dict>, defaults: Dict): Dict {
    if durable.Some? then durable.value else defaults
  }

  function Calibrations(ops: seq<Op>): seq<CalibrationCommand> {
    if ops == [] then []
    else (if ops[0].CalibrationSet? then [ops[0].command] else []) + Calibrations(ops[1..])
  }

  /** The calibration commands of a write, in order. */
  function CommandsOf(delta: Delta): seq<CalibrationCommand> {
    if delta.ops.Given? then Calibrations(delta.ops.value) else []
  }

  /** The write sets the register, or deletes it or something inside it, without a calibration command. */
  predicate Rewrites(delta: Delta) {
    || (delta.setValues.Given? && MEMBER in delta.setValues.value)
    || (delta.deletes.Given? && exists i | 0 <= i < |delta.deletes.value| :: [MEMBER] <= delta.deletes.value[i])
  }

  /**
   The value the register had before the queue, or after the last row that rewrote
   it, and the commands that accepted rows applied since.
   */
  ghost function History(durable: Option<Dict>, rows: seq<Row>, now: ClockStamp, defaults: Dict)
    : (Json, seq<CalibrationCommand>)
  {
    if rows == [] then (Get(Base(durable, defaults), MEMBER), [])
    else
      var n, row := |rows| - 1, rows[|rows| - 1];
      var (start, applied) := History(durable, rows[..n], now, defaults);
      var c := Base(Drained(durable, rows[..n], now, defaults), defaults);
      if !Accepted(c, row.command, now, row.ids) then (start, applied)
      else if Rewrites(Decode(row.command).value) then
        (Get(ApplyControlDelta(c, row.command, now, row.ids).control, MEMBER), [])
      else (start, applied + CommandsOf(Decode(row.command).value))
  }

  lemma {:induction false} RunFillsRegister(prims: seq<Prim>, ops: seq<Op>, c: Dict, now: ClockStamp)
    requires AllWellFormed(prims) && RunPrims(prims, c, now).Done? && |prims| == |ops|
    requires forall i | 0 <= i < |prims| :: prims[i].PerformOp? && prims[i].op == ops[i]
    ensures Get(RunPrims(prims, c, now).control, MEMBER) == Register(Get(c, MEMBER), Calibrations(ops))
    decreases |prims|
  {
    if prims != [] {
      var next := Do(prims[0], c, now).control;
      StepIsLocal(prims[0], c, c, now);
      RunFillsRegister(prims[1..], ops[1..], next, now);
      if ops[0].CalibrationSet? {
        assert Get(next, MEMBER) == NextCalibration(Get(c, MEMBER), ops[0].command);
        assert Calibrations(ops)[1..] == Calibrations(ops[1..]);
      } else {
        assert MEMBER !in Keys(prims[0]);
        assert Calibrations(ops) == Calibrations(ops[1..]);
      }
    }
  }

  lemma {:induction false} ComparableWithTop(p: Path, k: string)
    requires p != []
    ensures Comparable(p, [k]) <==> [k] <= p
  {
  }

  lemma {:induction false} GetLookup(c: Dict, d: Dict, k: string)
    requires Lookup(Obj(c), [k]) == Lookup(Obj(d), [k])
    ensures Get(c, k) == Get(d, k)
  {
    LookupTop(c, k);
    LookupTop(d, k);
  }

  /** An accepted write that does not rewrite the register applies its commands to it. */
  lemma {:induction false} AcceptedFillsRegister(c: Dict, envelope: Json, now: ClockStamp, ids: nat -> Uuid)
    requires Accepted(c, envelope, now, ids) && !Rewrites(Decode(envelope).value)
    ensures Get(ApplyControlDelta(c, envelope, now, ids).control, MEMBER) ==
            Register(Get(c, MEMBER), CommandsOf(Decode(envelope).value))
  {
    var delta := Decode(envelope).value;
    AcceptedRuns(c, envelope, now, ids);
    StepsWellFormed(envelope, ids);
    Phases(delta, c, now, ids);
    var x := if delta.setValues.Given? then DeepAssign(c, delta.setValues.value) else c;
    var y := RunPrims(OpSteps(delta, ids), x, now).control;
    RunFillsRegister(OpSteps(delta, ids), if delta.ops.Given? then delta.ops.value else [], x, now);
    assert Get(x, MEMBER) == Get(c, MEMBER);
    var paths := if delta.deletes.Given? then delta.deletes.value else [];
    RemovalsMeaning(y, paths, now, [MEMBER]);
    forall i | 0 <= i < |paths| ensures !Comparable(paths[i], [MEMBER]) {
      ComparableWithTop(paths[i], MEMBER);
    }
    GetLookup(RunPrims(DeleteSteps(delta), y, now).control, y, MEMBER);
  }

  lemma {:induction false} RegisterConcat(start: Json, a: seq<CalibrationCommand>, b: seq<CalibrationCommand>)
    ensures Register(start, a + b) == Register(Register(start, a), b)
    decreases |a|
  {
    if a == [] {
      assert a + b == b;
    } else {
      assert (a + b)[1..] == a[1..] + b;
      RegisterConcat(NextCalibration(start, a[0]), a[1..], b);
    }
  }

  lemma {:induction false} DrainLast(durable: Option<Dict>, rows: seq<Row>, now: ClockStamp, defaults: Dict)
    requires rows != []
    ensures Drained(durable, rows, now, defaults) ==
            DrainRow(Drained(durable, rows[..|rows| - 1], now, defaults), rows[|rows| - 1], now, defaults)
  {
    var n, row := |rows| - 1, rows[|rows| - 1];
    assert rows == rows[..n] + [row] && [row][1..] == [];
    DrainConcat(durable, rows[..n], [row], now, defaults);
  }

  /** What the drain leaves in the register. */
  lemma {:induction false} DrainFillsRegister(durable: Option<Dict>, rows: seq<Row>, now: ClockStamp, defaults: Dict)
    ensures var (start, applied) := History(durable, rows, now, defaults);
            Get(Base(Drained(durable, rows, now, defaults), defaults), MEMBER) == Register(start, applied)
  {
    if rows != [] {
      var n, row := |rows| - 1, rows[|rows| - 1];
      DrainFillsRegister(durable, rows[..n], now, defaults);
      DrainLast(durable, rows, now, defaults);
      var reached := Drained(durable, rows[..n], now, defaults);
      DrainIsAtomic(reached, row, now, defaults);
      var c := Base(reached, defaults);
      if Accepted(c, row.command, now, row.ids) && !Rewrites(Decode(row.command).value) {
        var (start, applied) := History(durable, rows[..n], now, defaults);
        AcceptedFillsRegister(c, row.command, now, row.ids);
        RegisterConcat(start, applied, CommandsOf(Decode(row.command).value));
      }
    }
  }

  // ---------------------------------------------------------------- when the prediction is right

  /** A value that a command's revision can be compared with: nothing yet, or a mapping that carries one. */
  predicate Readable(value: Json) {
    value.Null? || (value.Obj? && Get(value.members, "revision").Int?)
  }

  predicate Outranks(x: CalibrationCommand, value: Json)
    requires Readable(value)
  {
    value.Null? || x.revision > Get(value.members, "revision").i
  }

  /** The drain drops every command: nothing can be compared, or nothing outranks what is there. */
  predicate AllDropped(start: Json, applied: seq<CalibrationCommand>) {
    !Readable(start) || forall i | 0 <= i < |applied| :: !Outranks(applied[i], start)
  }

  lemma {:induction false} AllDroppedStays(start: Json, applied: seq<CalibrationCommand>)
    requires AllDropped(start, applied)
    ensures Register(start, applied) == start
    decreases |applied|
  {
    if applied != [] {
      assert forall i | 0 <= i < |applied[1..]| :: applied[1..][i] == applied[i + 1];
      AllDroppedStays(start, applied[1..]);
    }
  }

  lemma {:induction false} FirstHighestIsOne(commands: seq<CalibrationCommand>, i: nat, k: nat)
    requires FirstHighest(commands, i) && FirstHighest(commands, k)
    ensures i == k
  {
    assert commands[i].revision == commands[k].revision;
  }

  /** Otherwise the first command at the highest revision stays. */
  lemma {:induction false} FirstHighestStays(start: Json, applied: seq<CalibrationCommand>) returns (k: nat)
    requires !AllDropped(start, applied)
    ensures FirstHighest(applied, k) && Outranks(applied[k], start)
    ensures Register(start, applied) == EncodeCommand(applied[k])
    decreases |applied|
  {
    var x, rest := applied[0], applied[1..];
    assert applied == [x] + rest;
    if Outranks(x, start) {
      k := RegisterFrom(x, rest);
    } else {
      var i :| 0 <= i < |applied| && Outranks(applied[i], start);
      assert rest[i - 1] == applied[i];
      var j := FirstHighestStays(start, rest);
      k := j + 1;
      forall l | 0 <= l < |applied|
        ensures l < k ==> applied[l].revision < applied[k].revision
        ensures k < l ==> applied[l].revision <= applied[k].revision
      {
        assert l == 0 || applied[l] == rest[l - 1];
      }
    }
  }

  /**
   The prediction names what survives: the value nothing outranks, or else the first
   command at the highest revision of all that are applied.
   */
  ghost predicate NamesSurvivor(p: Json, start: Json, applied: seq<CalibrationCommand>) {
    if AllDropped(start, applied) then PyEq(p, Shown(start))
    else exists i: nat :: FirstHighest(applied, i) && PyEq(p, EncodeCommand(applied[i]))
  }

  /**
   A handler predicts what it would read after the drain, exactly when its answer
   names the survivor among the register's value and the commands of accepted rows
   since the last row that rewrote it.
   */
  lemma {:induction false} PredictionIsExact(
    durable: Option<Dict>, rows: seq<Row>, now: ClockStamp, defaults: Dict)
    requires Predicted(Base(durable, defaults), rows).Some?
    ensures var p := Predicted(Base(durable, defaults), rows).value;
            var (start, applied) := History(durable, rows, now, defaults);
            PyEq(p, Seen(Base(Drained(durable, rows, now, defaults), defaults))) <==> NamesSurvivor(p, start, applied)
  {
    var (start, applied) := History(durable, rows, now, defaults);
    DrainFillsRegister(durable, rows, now, defaults);
    SurvivorIsShown(Predicted(Base(durable, defaults), rows).value, start, applied);
  }

  lemma {:induction false} SurvivorIsShown(p: Json, start: Json, applied: seq<CalibrationCommand>)
    ensures PyEq(p, Shown(Register(start, applied))) <==> NamesSurvivor(p, start, applied)
  {
    if AllDropped(start, applied) {
      AllDroppedStays(start, applied);
    } else {
      var k := FirstHighestStays(start, applied);
      OnlyFirstHighest(applied, k);
    }
  }

  lemma {:induction false} OnlyFirstHighest(commands: seq<CalibrationCommand>, k: nat)
    requires FirstHighest(commands, k)
    ensures forall i: nat | FirstHighest(commands, i) :: i == k
  {
    forall i: nat | FirstHighest(commands, i) ensures i == k {
      FirstHighestIsOne(commands, i, k);
    }
  }

  // ---------------------------------------------------------------- announced and applied commands

  lemma {:induction false} CalibrationEntry(entry: Json)
    requires DecodeOp(entry).Some?
    ensures var op := DecodeOp(entry).value;
            && (op.CalibrationSet? <==> Get(entry.members, "op") == Str("mpc_calibration.set"))
            && (op.CalibrationSet? ==> DecodeCommand(Get(entry.members, "command")) == Some(op.command))
  {
  }

  lemma {:induction false} FirstInDecodes(entries: seq<Json>, ops: seq<Op>)
    requires |entries| == |ops| && forall i | 0 <= i < |entries| :: DecodeOp(entries[i]) == Some(ops[i])
    ensures FirstIn(entries).None? <==> Calibrations(ops) == []
    ensures FirstIn(entries).Some? ==> DecodeCommand(Obj(FirstIn(entries).value)) == Some(Calibrations(ops)[0])
    decreases |entries|
  {
    if entries != [] {
      CalibrationEntry(entries[0]);
      FirstInDecodes(entries[1..], ops[1..]);
    }
  }

  /** Of an envelope the drain can read, the handler takes the first calibration command. */
  lemma {:induction false} AnnouncedDecodes(envelope: Json)
    requires Decode(envelope).Some? && !Decode(envelope).value.ops.NullGiven?
    ensures var commands := CommandsOf(Decode(envelope).value);
            if commands == [] then Announced(envelope) == Nothing
            else Announced(envelope).Announces? && DecodeCommand(Obj(Announced(envelope).command)) == Some(commands[0])
  {
    if "ops" in envelope.members {
      var entries := envelope.members["ops"].items;
      DecodeOpsEach(entries);
      FirstInDecodes(entries, DecodeOps(entries).value);
    }
  }

  /** A command as it was queued equals a stored one exactly when it says the same. */
  lemma {:induction false} QueuedEquals(queued: Json, x: CalibrationCommand, y: CalibrationCommand)
    requires DecodeCommand(queued) == Some(x)
    ensures PyEq(queued, EncodeCommand(y)) <==> x == y
    ensures queued.Obj? && Get(queued.members, "revision") == Int(x.revision) && x.revision >= 1
  {
    var d, e := queued.members, EncodeCommand(y).members;
    assert e.Keys == d.Keys;
    if PyEq(queued, EncodeCommand(y)) {
      assert PyEq(d["action"], e["action"]) && PyEq(d["revision"], e["revision"]);
      assert PyEq(d["ambient_c"], e["ambient_c"]) && PyEq(d["ambient_source"], e["ambient_source"]);
    }
    if x == y {
      forall k | k in d ensures PyEq(d[k], e[k]) {
      }
    }
  }

  // ---------------------------------------------------------------- orderly queues

  /** Every row that announces a command is accepted, and no accepted row rewrites the register. */
  ghost predicate Orderly(durable: Option<Dict>, rows: seq<Row>, now: ClockStamp, defaults: Dict) {
    forall i | 0 <= i < |rows| ::
      var c := Base(Drained(durable, rows[..i], now, defaults), defaults);
      && (Announced(rows[i].command).Announces? ==> Accepted(c, rows[i].command, now, rows[i].ids))
      && (Accepted(c, rows[i].command, now, rows[i].ids) ==> !Rewrites(Decode(rows[i].command).value))
  }

  lemma {:induction false} OrderlyPrefix(durable: Option<Dict>, rows: seq<Row>, now: ClockStamp, defaults: Dict)
    requires Orderly(durable, rows, now, defaults) && rows != []
    ensures Orderly(durable, rows[..|rows| - 1], now, defaults)
  {
    var short := rows[..|rows| - 1];
    forall i | 0 <= i < |short| ensures short[i] == rows[i] && short[..i] == rows[..i] {
    }
  }

  /** The calibration commands of a queued envelope; an unreadable one has none. */
  function CommandsIn(envelope: Json): seq<CalibrationCommand> {
    if Decode(envelope).Some? then CommandsOf(Decode(envelope).value) else []
  }

  /** The calibration commands of a queue, in order. */
  function Queued(rows: seq<Row>): seq<CalibrationCommand> {
    if rows == [] then [] else Queued(rows[..|rows| - 1]) + CommandsIn(rows[|rows| - 1].command)
  }

  /** The first calibration command of each queued envelope that has one. */
  function Firsts(rows: seq<Row>): seq<CalibrationCommand> {
    if rows == [] then []
    else
      var commands := CommandsIn(rows[|rows| - 1].command);
      Firsts(rows[..|rows| - 1]) + if commands == [] then [] else [commands[0]]
  }

  /** What a scan over commands answers: the live value if none outranks it, else the first at the highest revision. */
  ghost predicate Answers(p: Json, live: Json, firsts: seq<CalibrationCommand>)
    requires Readable(live)
  {
    if AllDropped(live, firsts) then p == live
    else exists k: nat :: FirstHighest(firsts, k) && Outranks(firsts[k], live) && DecodeCommand(p) == Some(firsts[k])
  }

  /** One more command is scanned. */
  lemma {:induction false} AnswersStep(
    p: Json, live: Json, firsts: seq<CalibrationCommand>, queued: Dict, x: CalibrationCommand)
    requires Readable(live) && Answers(p, live, firsts) && DecodeCommand(Obj(queued)) == Some(x)
    ensures Answers(if x.revision > KnownRevision(p) then Obj(queued) else p, live, firsts + [x])
    ensures Get(queued, "revision") == Int(x.revision)
  {
    var more := firsts + [x];
    QueuedEquals(Obj(queued), x, x);
    if AllDropped(live, firsts) {
      AppendToDropped(live, firsts, x);
    } else {
      var k: nat :| FirstHighest(firsts, k) && Outranks(firsts[k], live) && DecodeCommand(p) == Some(firsts[k]);
      QueuedEquals(p, firsts[k], firsts[k]);
      FirstHighestAppend(firsts, k, x);
      var best := if x.revision > firsts[k].revision then |firsts| else k;
      assert FirstHighest(more, best) && Outranks(more[best], live);
    }
  }

  lemma {:induction false} FirstHighestAppend(firsts: seq<CalibrationCommand>, k: nat, x: CalibrationCommand)
    requires FirstHighest(firsts, k)
    ensures FirstHighest(firsts + [x], if x.revision > firsts[k].revision then |firsts| else k)
  {
  }

  lemma {:induction false} AppendToDropped(live: Json, firsts: seq<CalibrationCommand>, x: CalibrationCommand)
    requires Readable(live) && AllDropped(live, firsts)
    ensures if Outranks(x, live) then FirstHighest(firsts + [x], |firsts|) && !AllDropped(live, firsts + [x])
            else AllDropped(live, firsts + [x])
  {
    var more, n := firsts + [x], |firsts|;
    assert forall i | 0 <= i < n :: more[i] == firsts[i] && !Outranks(firsts[i], live);
    assert more[n] == x;
  }

  lemma {:induction false} AnnouncedRow(c: Dict, row: Row, now: ClockStamp)
    requires Announced(row.command) != Raises
    requires Announced(row.command).Announces? ==> Accepted(c, row.command, now, row.ids)
    ensures CommandsIn(row.command) != [] <==> Announced(row.command).Announces?
    ensures CommandsIn(row.command) != [] ==>
              && Accepted(c, row.command, now, row.ids)
              && DecodeCommand(Obj(Announced(row.command).command)) == Some(CommandsIn(row.command)[0])
  {
    if Decode(row.command).Some? {
      if !Decode(row.command).value.ops.NullGiven? {
        AnnouncedDecodes(row.command);
      }
    } else {
      assert !Accepted(c, row.command, now, row.ids);
    }
  }

  lemma {:induction false} LastAnnouncement(rows: seq<Row>)
    requires rows != [] && Announcements(rows).Some?
    ensures var before, last := Announcements(rows[..|rows| - 1]), Announced(rows[|rows| - 1].command);
            && before.Some? && last != Raises
            && Announcements(rows).value == before.value + if last.Announces? then [last.command] else []
  {
  }

  lemma {:induction false} AnswersLonger(
    seen: Json, live: Json, firsts: seq<CalibrationCommand>, before: seq<Dict>, queued: Dict, x: CalibrationCommand)
    requires Readable(live) && Answers(Scan(seen, before), live, firsts) && DecodeCommand(Obj(queued)) == Some(x)
    ensures Answers(Scan(seen, before + [queued]), live, firsts + [x])
  {
    assert (before + [queued])[..|before|] == before;
    AnswersStep(Scan(seen, before), live, firsts, queued, x);
  }

  lemma {:induction false} OrderlyScan(durable: Option<Dict>, rows: seq<Row>, now: ClockStamp, defaults: Dict)
    requires Orderly(durable, rows, now, defaults) && Announcements(rows).Some?
    requires Readable(Get(Base(durable, defaults), MEMBER))
    ensures var live := Base(durable, defaults);
            Answers(Scan(Seen(live), Announcements(rows).value), Get(live, MEMBER), Firsts(rows))
  {
    if rows != [] {
      var n, row := |rows| - 1, rows[|rows| - 1];
      OrderlyPrefix(durable, rows, now, defaults);
      OrderlyScan(durable, rows[..n], now, defaults);
      AnnouncedRow(Base(Drained(durable, rows[..n], now, defaults), defaults), row, now);
      LastAnnouncement(rows);
      if Announced(row.command).Announces? {
        AnswersLonger(Seen(Base(durable, defaults)), Get(Base(durable, defaults), MEMBER), Firsts(rows[..n]),
                      Announcements(rows[..n]).value, Announced(row.command).command, CommandsIn(row.command)[0]);
      } else {
        assert Firsts(rows) == Firsts(rows[..n]) + [] == Firsts(rows[..n]);
      }
    }
  }

  /**
   An orderly queue that can be announced is drained in full: the register starts
   from its value before the queue and meets all the commands the queue holds.
   */
  lemma {:induction false} OrderlyHistory(durable: Option<Dict>, rows: seq<Row>, now: ClockStamp, defaults: Dict)
    requires Orderly(durable, rows, now, defaults) && Announcements(rows).Some?
    ensures History(durable, rows, now, defaults) == (Get(Base(durable, defaults), MEMBER), Queued(rows))
  {
    if rows != [] {
      var n, row := |rows| - 1, rows[|rows| - 1];
      OrderlyPrefix(durable, rows, now, defaults);
      OrderlyHistory(durable, rows[..n], now, defaults);
      AnnouncedRow(Base(Drained(durable, rows[..n], now, defaults), defaults), row, now);
      if CommandsIn(row.command) == [] {
        assert Queued(rows) == Queued(rows[..n]);
        assert Queued(rows[..n]) + [] == Queued(rows[..n]);
      }
    }
  }

  lemma {:induction false} FirstsAreQueued(rows: seq<Row>)
    ensures forall x | x in Firsts(rows) :: x in Queued(rows)
  {
    if rows != [] {
      FirstsAreQueued(rows[..|rows| - 1]);
    }
  }

  /**
   The highest of all commands is not the highest of the first ones: an envelope
   hides it behind its first command.
   */
  ghost predicate HiddenWinner(firsts: seq<CalibrationCommand>, applied: seq<CalibrationCommand>) {
    forall i: nat, k: nat | FirstHighest(applied, i) && FirstHighest(firsts, k) :: applied[i] != firsts[k]
  }

  /**
   On an orderly queue over a readable register the prediction fails exactly when
   some queued command outranks the register and the one that wins among all queued
   commands is not the one that wins among the first commands of each envelope.
   */
  lemma {:induction false} OrderlyPrediction(durable: Option<Dict>, rows: seq<Row>, now: ClockStamp, defaults: Dict)
    requires Predicted(Base(durable, defaults), rows).Some? && Orderly(durable, rows, now, defaults)
    requires Readable(Get(Base(durable, defaults), MEMBER))
    ensures var p, live := Predicted(Base(durable, defaults), rows).value, Get(Base(durable, defaults), MEMBER);
            PyEq(p, Seen(Base(Drained(durable, rows, now, defaults), defaults))) <==>
            AllDropped(live, Queued(rows)) || !HiddenWinner(Firsts(rows), Queued(rows))
  {
    var p, live := Predicted(Base(durable, defaults), rows).value, Get(Base(durable, defaults), MEMBER);
    PredictionIsExact(durable, rows, now, defaults);
    OrderlyScan(durable, rows, now, defaults);
    OrderlyHistory(durable, rows, now, defaults);
    FirstsAreQueued(rows);
    WinnersCompared(p, live, Firsts(rows), Queued(rows));
  }

  lemma {:induction false} WinnersCompared(
    p: Json, live: Json, firsts: seq<CalibrationCommand>, applied: seq<CalibrationCommand>)
    requires Readable(live) && Answers(p, live, firsts) && forall x | x in firsts :: x in applied
    ensures NamesSurvivor(p, live, applied) <==> AllDropped(live, applied) || !HiddenWinner(firsts, applied)
  {
    if AllDropped(live, applied) {
      forall k | 0 <= k < |firsts| ensures !Outranks(firsts[k], live) {
        assert firsts[k] in firsts;
      }
      PyEqReflexive(p);
    } else {
      var i := FirstHighestStays(live, applied);
      OnlyFirstHighest(applied, i);
      if AllDropped(live, firsts) {
        LiveIsNoWinner(live, firsts, applied[i]);
      } else {
        var k: nat :| FirstHighest(firsts, k) && Outranks(firsts[k], live) && DecodeCommand(p) == Some(firsts[k]);
        OnlyFirstHighest(firsts, k);
        QueuedEquals(p, firsts[k], applied[i]);
      }
    }
  }

  lemma {:induction false} LiveIsNoWinner(live: Json, firsts: seq<CalibrationCommand>, x: CalibrationCommand)
    requires Readable(live) && AllDropped(live, firsts) && Outranks(x, live)
    ensures !PyEq(live, EncodeCommand(x))
    ensures forall k | 0 <= k < |firsts| :: firsts[k] != x
  {
    if live.Obj? {
      var e := EncodeCommand(x).members;
      assert "revision" in e && e["revision"] == Int(x.revision);
      assert !PyEq(live.members["revision"], e["revision"]);
    }
  }

  ghost predicate OneEach(rows: seq<Row>) {
    forall i | 0 <= i < |rows| :: |CommandsIn(rows[i].command)| <= 1
  }

  lemma {:induction false} AtMostOne(commands: seq<CalibrationCommand>)
    requires |commands| <= 1
    ensures commands == if commands == [] then [] else [commands[0]]
  {
  }

  lemma {:induction false} OneEachFirsts(rows: seq<Row>)
    requires OneEach(rows)
    ensures Firsts(rows) == Queued(rows)
  {
    if rows != [] {
      var n := |rows| - 1;
      forall i | 0 <= i < n ensures |CommandsIn(rows[..n][i].command)| <= 1 {
        assert rows[..n][i] == rows[i];
      }
      OneEachFirsts(rows[..n]);
      AtMostOne(CommandsIn(rows[n].command));
    }
  }

  /** With one command per envelope an orderly queue is always predicted right. */
  lemma {:induction false} OneEachIsRight(durable: Option<Dict>, rows: seq<Row>, now: ClockStamp, defaults: Dict)
    requires Predicted(Base(durable, defaults), rows).Some? && Orderly(durable, rows, now, defaults) && OneEach(rows)
    requires Readable(Get(Base(durable, defaults), MEMBER))
    ensures PyEq(Predicted(Base(durable, defaults), rows).value,
                 Seen(Base(Drained(durable, rows, now, defaults), defaults)))
  {
    OrderlyPrediction(durable, rows, now, defaults);
    OneEachFirsts(rows);
    var live := Get(Base(durable, defaults), MEMBER);
    if !AllDropped(live, Queued(rows)) {
      var k := FirstHighestStays(live, Queued(rows));
    }
  }

  // ---------------------------------------------------------------- inputs on which it fails

  lemma {:induction false} OneAnnounced(row: Row)
    requires Announced(row.command).Announces?
    ensures Announcements([row]) == Some([Announced(row.command).command])
  {
    assert [row][..0] == [];
    assert Announcements([row][..0]) == Some([]);
    assert [] + [Announced(row.command).command] == [Announced(row.command).command];
  }

  lemma {:induction false} OneRow(durable: Option<Dict>, row: Row, now: ClockStamp, defaults: Dict)
    ensures Drained(durable, [row], now, defaults) == DrainRow(durable, row, now, defaults)
  {
    assert [row][1..] == [];
    assert Drained(durable, [row], now, defaults) == Drained(DrainRow(durable, row, now, defaults), [], now, defaults);
  }

  /**
   A command queued beside a timer operation for a retired generation: the row is
   dropped, but its command was announced.
   */
  lemma {:induction false} RejectedCommandPredicted(
    x: CalibrationCommand, target: string, durable: Option<Dict>, ids: nat -> Uuid, now: ClockStamp, defaults: Dict)
    requires ValidCommand(x) && UuidText(target) && target != now.runtimeId
    requires MEMBER !in Base(durable, defaults)
    ensures var row := Row(BuildEnvelope(map[], [], [CalibrationSet(x), TimerPause(target)], 0.0), ids);
            && Predicted(Base(durable, defaults), [row]) == Some(EncodeCommand(x))
            && Drained(durable, [row], now, defaults) == durable
  {
    var ops := [CalibrationSet(x), TimerPause(target)];
    var row := Row(BuildEnvelope(map[], [], ops, 0.0), ids);
    var none: Dict := map[];
    assert none.Keys !! SET_FORBIDDEN;
    EnvelopeRoundTrip(map[], [], ops, 0.0);
    EnvelopeParts(map[], [], ops, 0.0);
    assert ValidOps(ops) && AllDeletable([]);
    assert Decode(row.command) == Some(Intent(map[], [], ops));
    assert Retired(ops[1], now);
    assert !Admitted(row.command, now);
    FirstOfQueued(x, ops, row);
    OneRow(durable, row, now, defaults);
    DrainIsAtomic(durable, row, now, defaults);
  }

  lemma {:induction false} FirstOfQueued(x: CalibrationCommand, ops: seq<Op>, row: Row)
    requires |ops| > 0 && ops[0] == CalibrationSet(x) && row.command == BuildEnvelope(map[], [], ops, 0.0)
    ensures Announced(row.command) == Announces(EncodeCommand(x).members)
    ensures Announcements([row]) == Some([EncodeCommand(x).members])
    ensures x.revision >= 1 ==> Scan(Null, [EncodeCommand(x).members]) == EncodeCommand(x)
  {
    EnvelopeParts(map[], [], ops, 0.0);
    FirstEntry(x, EncodeOps(ops, 0.0));
    OneAnnounced(row);
    ScanOne(x);
  }

  lemma {:induction false} FirstEntry(x: CalibrationCommand, entries: seq<Json>)
    requires entries != [] && entries[0] == EncodeOp(CalibrationSet(x), 0.0)
    ensures FirstIn(entries) == Some(EncodeCommand(x).members)
  {
    var d := entries[0].members;
    assert Get(d, "op") == Str("mpc_calibration.set") && Get(d, "command") == EncodeCommand(x);
  }

  lemma {:induction false} ScanOne(x: CalibrationCommand)
    ensures x.revision >= 1 ==> Scan(Null, [EncodeCommand(x).members]) == EncodeCommand(x)
  {
    var commands := [EncodeCommand(x).members];
    assert commands[..0] == [];
    assert Get(commands[0], "revision") == Int(x.revision);
    assert Scan(Null, commands[..0]) == Null;
  }

  /** Two rising commands in one envelope: the drain keeps the second, the handler sees only the first. */
  lemma {:induction false} SecondCommandUnseen(
    x: CalibrationCommand, y: CalibrationCommand,
    durable: Option<Dict>, ids: nat -> Uuid, now: ClockStamp, defaults: Dict)
    requires ValidCommand(x) && ValidCommand(y) && x.revision < y.revision && MEMBER !in Base(durable, defaults)
    ensures var row := Row(BuildEnvelope(map[], [], [CalibrationSet(x), CalibrationSet(y)], 0.0), ids);
            && Predicted(Base(durable, defaults), [row]) == Some(EncodeCommand(x))
            && Seen(Base(Drained(durable, [row], now, defaults), defaults)) == EncodeCommand(y) != EncodeCommand(x)
  {
    var ops := [CalibrationSet(x), CalibrationSet(y)];
    var row := Row(BuildEnvelope(map[], [], ops, 0.0), ids);
    FirstOfQueued(x, ops, row);
    EncodingsDiffer(x, y);
    TwoCommands(x, y, row.command, Base(durable, defaults), now, ids);
    OneRow(durable, row, now, defaults);
    DrainIsAtomic(durable, row, now, defaults);
  }

  lemma {:induction false} TwoCommandsRead(x: CalibrationCommand, y: CalibrationCommand, now: ClockStamp)
    requires ValidCommand(x) && ValidCommand(y)
    ensures var ops := [CalibrationSet(x), CalibrationSet(y)];
            var envelope := BuildEnvelope(map[], [], ops, 0.0);
            Decode(envelope) == Some(Intent(map[], [], ops)) && Admitted(envelope, now)
  {
    var ops := [CalibrationSet(x), CalibrationSet(y)];
    var none: Dict := map[];
    assert none.Keys !! SET_FORBIDDEN && ValidOps(ops) && AllDeletable([]);
    EnvelopeRoundTrip(map[], [], ops, 0.0);
  }

  lemma {:induction false} TwoCommands(
    x: CalibrationCommand, y: CalibrationCommand, envelope: Json, c: Dict, now: ClockStamp, ids: nat -> Uuid)
    requires ValidCommand(x) && ValidCommand(y) && x.revision < y.revision && MEMBER !in c
    requires envelope == BuildEnvelope(map[], [], [CalibrationSet(x), CalibrationSet(y)], 0.0)
    ensures Accepted(c, envelope, now, ids)
    ensures Get(ApplyControlDelta(c, envelope, now, ids).control, MEMBER) == EncodeCommand(y)
  {
    var ops := [CalibrationSet(x), CalibrationSet(y)];
    TwoCommandsRead(x, y, now);
    OperationsFillRegister(c, [x, y], now, ids);
    assert ops == seq(2, i requires 0 <= i < 2 => CalibrationSet([x, y][i]));
    assert Steps(Intent(map[], [], ops), ids) == Performs(ops, ids);
    AcceptedRuns(c, envelope, now, ids);
    var k := RegisterKeepsFirstHighest([x, y]);
    assert k == 1;
  }
}
