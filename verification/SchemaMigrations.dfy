/**
 Bringing a datastore to the current schema: a frozen legacy bootstrap up to
 version 10, then registered migrations recorded by name, all in one
 transaction. The registry of sqlite_utils is not part of this model; it is
 taken to run each unrecorded migration in registration order and record it.
 */
module SchemaMigrations {
  import opened Wrappers

  const LEGACY_SCHEMA_VERSION: nat := 10
  const CURRENT_SCHEMA_VERSION: nat := 14

  const V11 := "v0011_adopt_sqlite_utils_registry"
  const V12 := "v0012_trajectory_role_generation"
  const V13 := "v0013_trajectory_clock_domains"
  const V14 := "v0014_metric_monotonic_duration"

  const MIGRATIONS := [V11, V12, V13, V14]
  const KNOWN := {V11, V12, V13, V14}

  function Target(name: string): nat
    requires name in KNOWN
  {
    if name == V11 then 11 else if name == V12 then 12 else if name == V13 then 13 else 14
  }

  /** A trajectory frame row: its payload version, which the table's CHECK restricts, and everything else. */
  datatype FrameRow = FrameRow(payloadVersion: int, content: string)

  datatype FrameTable = FrameTable(allowed: set<int>, rows: seq<FrameRow>)

  /** A number as a column holds it. */
  datatype Cell = Whole(i: int) | Floating(r: real)

  /** A history row: its setpoint, and everything else. */
  datatype HistoryRow = HistoryRow(setpoint: Cell, content: string)

  datatype HistoryTable = HistoryTable(columns: set<string>, rows: seq<HistoryRow>)

  /** The metrics of the cook in progress; `columns` lists those that a migration adds. */
  datatype MetricsTable = MetricsTable(columns: set<string>, rows: seq<string>)

  const DUTY_COLUMNS := {"cycle_ratio", "realized_cycle_ratio", "fan_duty"}
  const DURATION_COLUMNS := {"elapsed_seconds", "delivery_complete"}

  /** The parts of the database the migrations read or change. */
  datatype Db = Db(
    version: nat,
    applied: set<string>,
    metrics: Option<MetricsTable>,
    history: Option<HistoryTable>,
    frames: Option<FrameTable>,
    challenger: bool)

  function Rows(db: Db): seq<FrameRow> {
    if db.frames.Some? then db.frames.value.rows else []
  }

  function HistoryRows(db: Db): seq<HistoryRow> {
    if db.history.Some? then db.history.value.rows else []
  }

  function MetricRows(db: Db): seq<string> {
    if db.metrics.Some? then db.metrics.value.rows else []
  }

  /** A number in a column of numeric affinity: whole ones in the range of 64 bits are integers. */
  function Numeric(c: Cell): Cell {
    if c.Floating? && c.r == c.r.Floor as real && -0x8000_0000_0000_0000 <= c.r.Floor < 0x8000_0000_0000_0000
    then Whole(c.r.Floor) else c
  }

  /** The rows copied into a table whose setpoints have numeric affinity. */
  function Copied(rows: seq<HistoryRow>): seq<HistoryRow> {
    if rows == [] then []
    else
      var n := |rows| - 1;
      Copied(rows[..n]) + [rows[n].(setpoint := Numeric(rows[n].setpoint))]
  }

  function CellValue(c: Cell): real {
    match c case Whole(i) => i as real case Floating(r) => r
  }

  lemma {:induction false} CopiedAt(rows: seq<HistoryRow>)
    ensures |Copied(rows)| == |rows|
    ensures forall i | 0 <= i < |rows| :: Copied(rows)[i] == rows[i].(setpoint := Numeric(rows[i].setpoint))
  {
    if rows != [] {
      CopiedAt(rows[..|rows| - 1]);
    }
  }

  /** Copying changes no number and nothing else of a row, and a second copy nothing at all. */
  lemma {:induction false} CopiedMeaning(rows: seq<HistoryRow>)
    ensures |Copied(rows)| == |rows| && Copied(Copied(rows)) == Copied(rows)
    ensures forall i | 0 <= i < |rows| ::
              && Copied(rows)[i].content == rows[i].content
              && CellValue(Copied(rows)[i].setpoint) == CellValue(rows[i].setpoint)
              && Numeric(Copied(rows)[i].setpoint) == Copied(rows)[i].setpoint
  {
    CopiedAt(rows);
    CopiedAt(Copied(rows));
  }

  // ---------------------------------------------------------------- single statements; None is a raised error

  /** Rename the frame table away, create it with a wider CHECK, copy every row, drop the old one. */
  function RebuildFrames(db: Db, allowed: set<int>): Option<Db> {
    if db.frames.None? then None
    else if exists i | 0 <= i < |db.frames.value.rows| :: db.frames.value.rows[i].payloadVersion !in allowed then None
    else Some(db.(frames := Some(FrameTable(allowed, db.frames.value.rows))))
  }

  /** `ALTER TABLE metrics ADD COLUMN`, twice. */
  function AddDurationColumns(db: Db): Option<Db> {
    if db.metrics.None? || !(db.metrics.value.columns !! DURATION_COLUMNS) then None
    else
      var metrics := db.metrics.value;
      Some(db.(metrics := Some(metrics.(columns := metrics.columns + DURATION_COLUMNS))))
  }

  function Bump(db: Option<Db>, version: nat): Option<Db> {
    if db.None? then None else Some(db.value.(version := version))
  }

  /** The body of one registered migration. */
  function RunMigration(name: string, db: Db): Option<Db>
    requires name in KNOWN
  {
    var v := db.version;
    if name == V11 then
      if v >= 11 then Some(db) else if v != LEGACY_SCHEMA_VERSION then None else Bump(Some(db), 11)
    else if name == V12 then
      if v >= 12 then Some(db) else if v != 11 then None else Bump(RebuildFrames(db, {2, 3}), 12)
    else if name == V13 then
      if v >= 13 then Some(db) else if v != 12 then None else Bump(RebuildFrames(db, {2, 3, 4}), 13)
    else
      if v >= 14 then Some(db) else if v != 13 then None else Bump(AddDurationColumns(db), 14)
  }

  /** Run and record a migration unless it is recorded. */
  function Pending(db: Option<Db>, name: string): Option<Db>
    requires name in KNOWN
  {
    if db.None? || name in db.value.applied then db
    else
      match RunMigration(name, db.value)
      case Some(next) => Some(next.(applied := next.applied + {name}))
      case None => None
  }

  function ApplyPending(db: Db): Option<Db> {
    Pending(Pending(Pending(Pending(Some(db), V11), V12), V13), V14)
  }

  ghost predicate Unknown(db: Db) {
    !(db.applied <= KNOWN)
  }

  predicate Ahead(db: Db) {
    exists name | name in KNOWN :: name in db.applied && db.version < Target(name)
  }

  predicate Missing(db: Db) {
    exists name | name in KNOWN :: db.version >= Target(name) && name !in db.applied
  }

  function ApplyRegistered(db: Db): Option<Db> {
    match ApplyPending(db)
    case None => None
    case Some(next) =>
      if !(next.applied <= KNOWN) || Ahead(next) || Missing(next) || next.version < CURRENT_SCHEMA_VERSION then None
      else Some(next)
  }

  /** `_ensure_legacy_schema`: tables that are missing, then the steps up to version 10. */
  function Legacy(db: Db): Option<Db> {
    var v := db.version;
    var created := db.(
      metrics := if db.metrics.None? then Some(MetricsTable({}, [])) else db.metrics,
      history := if db.history.None? then Some(HistoryTable(DUTY_COLUMNS, [])) else db.history);
    var d3 := if 0 < v < 3 then created.(metrics := Some(MetricsTable({}, []))) else created;
    var d4 := if 0 < v < 4 then d3.(history := Some(HistoryTable(DUTY_COLUMNS, Copied(d3.history.value.rows)))) else d3;
    var d8 := if v < 8 then
                var h4 := d4.history.value;
                d4.(version := 8, history := Some(h4.(columns := h4.columns + DUTY_COLUMNS)))
              else d4;
    var d9 := if v < 9 then
                d8.(version := 9, frames := if d8.frames.None? then Some(FrameTable({2, 3}, [])) else d8.frames)
              else d8;
    if v >= 10 then Some(d9)
    else if d9.challenger then None
    else Some(d9.(version := 10, challenger := true))
  }

  /** `_ensure_schema`: all of it, or the database as it was. */
  function EnsureSchema(db: Db): (Db, bool) {
    match Legacy(db)
    case None => (db, false)
    case Some(legacy) =>
      match ApplyRegistered(legacy)
      case None => (db, false)
      case Some(current) => (current, true)
  }

  // ---------------------------------------------------------------- what each version left behind

  /** A database as some released version left it: its tables fit its version number. */
  ghost predicate Shaped(db: Db) {
    && (db.version == 0 ==> db.metrics.None? && db.history.None?)
    && (db.version > 0 ==> db.metrics.Some? && db.history.Some?)
    && (db.metrics.Some? ==>
          var columns := db.metrics.value.columns;
          if db.version >= 14 then {"elapsed_seconds", "delivery_complete"} <= columns else columns == {})
    && (db.version >= 8 ==> {"cycle_ratio", "realized_cycle_ratio", "fan_duty"} <= db.history.value.columns)
    && (db.frames.Some? <==> db.version >= 9)
    && (db.frames.Some? ==>
          && db.frames.value.allowed == (if db.version >= 13 then {2, 3, 4} else {2, 3})
          && var frames := db.frames.value;
          forall i | 0 <= i < |frames.rows| :: frames.rows[i].payloadVersion in frames.allowed)
    && (db.challenger <==> db.version >= 10)
  }

  /** Every recorded migration is known and not ahead of the version number. */
  ghost predicate Honest(db: Db) {
    forall name | name in db.applied ::
      || (name == "v0011_adopt_sqlite_utils_registry" && db.version >= 11)
      || (name == "v0012_trajectory_role_generation" && db.version >= 12)
      || (name == "v0013_trajectory_clock_domains" && db.version >= 13)
      || (name == "v0014_metric_monotonic_duration" && db.version >= 14)
  }

  lemma {:induction false} HonestMeans(db: Db)
    ensures Honest(db) <==> !Unknown(db) && !Ahead(db)
  {
    assert V11 in KNOWN && V12 in KNOWN && V13 in KNOWN && V14 in KNOWN;
    if Honest(db) {
      forall name | name in KNOWN && name in db.applied ensures db.version >= Target(name) {
      }
    }
  }

  /** The history a bootstrap leaves: every row, from before version 4 with whole setpoints as integers. */
  function HistoryAfter(db: Db): seq<HistoryRow> {
    if 0 < db.version < 4 then Copied(HistoryRows(db)) else HistoryRows(db)
  }

  /** The metrics a bootstrap leaves: those of versions 1 and 2 are dropped. */
  function MetricsAfter(db: Db): seq<string> {
    if 0 < db.version < 3 then [] else MetricRows(db)
  }

  lemma {:induction false} LegacyReachesTen(db: Db)
    requires Shaped(db)
    ensures Legacy(db).Some?
    ensures var next := Legacy(db).value;
            && Shaped(next) && next.applied == db.applied
            && next.version == (if db.version < 10 then 10 else db.version)
            && Rows(next) == Rows(db) && HistoryRows(next) == HistoryAfter(db) && MetricRows(next) == MetricsAfter(db)
            && (db.version >= 10 ==> next == db)
  {
  }

  /**
   The legacy bootstrap on any database, also one without a version: only what a
   version says is old is dropped or copied, and only the challenger's table can be
   in the way.
   */
  lemma {:induction false} LegacyOnAnything(db: Db)
    ensures Legacy(db).None? <==> db.version < 10 && db.challenger
    ensures Legacy(db).Some? ==>
              var next := Legacy(db).value;
              && next.version == (if db.version < 10 then 10 else db.version) && next.applied == db.applied
              && MetricRows(next) == (if db.version == 1 || db.version == 2 then [] else MetricRows(db))
              && HistoryRows(next) == (if 1 <= db.version <= 3 then Copied(HistoryRows(db)) else HistoryRows(db))
              && Rows(next) == Rows(db) && (db.frames.Some? ==> next.frames == db.frames)
  {
  }

  ghost predicate SameRows(next: Db, db: Db) {
    Rows(next) == Rows(db) && HistoryRows(next) == HistoryRows(db) && MetricRows(next) == MetricRows(db)
  }

  /** One migration on a well-shaped database at the version before it: the version rises by one, no row is touched. */
  lemma {:induction false} MigrationKeepsRows(name: string, db: Db)
    requires Shaped(db) && name in KNOWN && db.version >= 10
    ensures RunMigration(name, db).Some? <==> db.version >= Target(name) - 1
    ensures RunMigration(name, db).Some? ==>
              var next := RunMigration(name, db).value;
              && Shaped(next) && next.applied == db.applied
              && next.version == (if db.version >= Target(name) then db.version else Target(name))
              && SameRows(next, db)
  {
  }

  lemma {:induction false} PendingStep(db: Db, name: string)
    requires Shaped(db) && name in KNOWN && db.version >= 10
    ensures var next := Pending(Some(db), name);
            && (next.Some? <==> name in db.applied || db.version >= Target(name) - 1)
            && (next.Some? ==>
                  && Shaped(next.value) && next.value.applied == db.applied + {name}
                  && SameRows(next.value, db)
                  && next.value.version ==
                     (if name in db.applied || db.version >= Target(name) then db.version else Target(name)))
  {
    MigrationKeepsRows(name, db);
    assert name in db.applied ==> db.applied + {name} == db.applied;
  }

  /** Where the registered migrations end, step by step. */
  lemma {:induction false} PendingRun(db: Db)
    requires Shaped(db) && db.version >= 10
    ensures ApplyPending(db).Some? ==>
              var next := ApplyPending(db).value;
              && Shaped(next) && next.applied == db.applied + KNOWN
              && SameRows(next, db)
    ensures !Ahead(db) ==>
              ApplyPending(db).Some? && ApplyPending(db).value.version == (if db.version < 14 then 14 else db.version)
    ensures Ahead(db) && ApplyPending(db).Some? ==> Ahead(ApplyPending(db).value)
  {
    PendingStep(db, V11);
    var a := Pending(Some(db), V11);
    if a.Some? {
      PendingStep(a.value, V12);
      var b := Pending(a, V12);
      if b.Some? {
        PendingStep(b.value, V13);
        var c := Pending(b, V13);
        if c.Some? {
          PendingStep(c.value, V14);
          assert db.applied + {V11} + {V12} + {V13} + {V14} == db.applied + KNOWN;
        }
      }
    }
  }

  /** After the pending migrations ran, none can be missing: that conflict is unreachable. */
  lemma {:induction false} MissingIsUnreachable(db: Db)
    requires Shaped(db) && db.version >= 10 && ApplyPending(db).Some?
    ensures !Missing(ApplyPending(db).value)
  {
    PendingRun(db);
  }

  /**
   The bootstrap succeeds exactly when every recorded migration is known and not
   ahead of the version number. It then ends at the current version (or at the
   newer one it found) with all migrations recorded, every frame row as it was,
   every history row carried over, and the metrics of versions 1 and 2 dropped;
   otherwise nothing has changed.
   */
  lemma {:induction false} BootstrapConverges(db: Db)
    requires Shaped(db)
    ensures var (next, ok) := EnsureSchema(db);
            && (ok <==> Honest(db))
            && (!ok ==> next == db)
            && (ok ==>
                  && Shaped(next)
                  && next.applied == {"v0011_adopt_sqlite_utils_registry", "v0012_trajectory_role_generation",
                                      "v0013_trajectory_clock_domains", "v0014_metric_monotonic_duration"}
                  && next.version == (if db.version < 14 then 14 else db.version)
                  && Rows(next) == Rows(db) && HistoryRows(next) == HistoryAfter(db)
                  && MetricRows(next) == MetricsAfter(db))
  {
    HonestMeans(db);
    LegacyReachesTen(db);
    var legacy := Legacy(db).value;
    PendingRun(legacy);
    assert Ahead(legacy) <==> Ahead(db) by {
      AheadAfterLegacy(db, legacy);
    }
    if ApplyPending(legacy).Some? {
      MissingIsUnreachable(legacy);
      var next := ApplyPending(legacy).value;
      assert next.applied <= KNOWN <==> db.applied <= KNOWN;
    }
  }

  lemma {:induction false} AheadAfterLegacy(db: Db, legacy: Db)
    requires legacy.applied == db.applied && legacy.version == (if db.version < 10 then 10 else db.version)
    ensures Ahead(legacy) <==> Ahead(db)
  {
    if name :| name in KNOWN && name in db.applied && db.version < Target(name) {
      assert legacy.version < Target(name);
    }
  }

  /** A second bootstrap changes nothing. */
  lemma {:induction false} BootstrapIsIdempotent(db: Db)
    requires Shaped(db) && EnsureSchema(db).1
    ensures EnsureSchema(EnsureSchema(db).0) == (EnsureSchema(db).0, true)
  {
    BootstrapConverges(db);
    var next := EnsureSchema(db).0;
    LegacyReachesTen(next);
    assert ApplyPending(next) == Some(next);
  }

  // ---------------------------------------------------------------- the database object

  class Database {
    var db: Db

    constructor (db: Db)
      ensures this.db == db
    {
      this.db := db;
    }

    method RebuildFrameTable(allowed: set<int>) returns (ok: bool)
      modifies this
      ensures if ok then RebuildFrames(old(db), allowed) == Some(db) else RebuildFrames(old(db), allowed).None?
    {
      if db.frames.None? {
        return false;
      }
      var source := db.frames.value.rows;
      var copied: seq<FrameRow> := [];
      for i := 0 to |source|
        invariant copied == source[..i] && db == old(db)
        invariant forall k | 0 <= k < i :: source[k].payloadVersion in allowed
      {
        if source[i].payloadVersion !in allowed {
          return false;
        }
        copied := copied + [source[i]];
      }
      assert source[..|source|] == source;
      db := db.(frames := Some(FrameTable(allowed, copied)));
      ok := true;
    }

    method Migrate(name: string) returns (ok: bool)
      requires name in KNOWN
      modifies this
      ensures if ok then RunMigration(name, old(db)) == Some(db) else RunMigration(name, old(db)).None?
    {
      ok := true;
      var target := Target(name);
      if db.version >= target {
        return;
      }
      if db.version != target - 1 {
        return false;
      }
      if name == V12 {
        ok := RebuildFrameTable({2, 3});
      } else if name == V13 {
        ok := RebuildFrameTable({2, 3, 4});
      } else if name == V14 {
        if db.metrics.None? || !(db.metrics.value.columns !! DURATION_COLUMNS) {
          return false;
        }
        var metrics := db.metrics.value;
        db := db.(metrics := Some(metrics.(columns := metrics.columns + DURATION_COLUMNS)));
      }
      if ok {
        db := db.(version := target);
      }
    }

    /** Run the registry over the database, then check what it recorded. */
    method ApplyRegisteredMigrations() returns (ok: bool)
      modifies this
      ensures if ok then ApplyRegistered(old(db)) == Some(db) else ApplyRegistered(old(db)).None?
    {
      assert MIGRATIONS[0] == V11 && MIGRATIONS[1] == V12 && MIGRATIONS[2] == V13 && MIGRATIONS[3] == V14;
      for i := 0 to 4
        invariant PendingFrom(db, i) == ApplyPending(old(db))
      {
        var name := MIGRATIONS[i];
        if name !in db.applied {
          ok := Migrate(name);
          if !ok {
            return;
          }
          db := db.(applied := db.applied + {name});
        }
      }
      ok := db.applied <= KNOWN && !Ahead(db) && !Missing(db) && db.version >= CURRENT_SCHEMA_VERSION;
    }

    /** The bootstrap as one transaction: an error rolls everything back. */
    method Ensure() returns (ok: bool)
      modifies this
      ensures (db, ok) == EnsureSchema(old(db))
    {
      var before := db;
      var legacy := Legacy(db);
      if legacy.None? {
        return false;
      }
      db := legacy.value;
      ok := ApplyRegisteredMigrations();
      if !ok {
        db := before;
      }
    }
  }

  /** The migrations from the `i`th on. */
  function PendingFrom(db: Db, i: nat): Option<Db> {
    if i == 0 then ApplyPending(db)
    else if i == 1 then Pending(Pending(Pending(Some(db), V12), V13), V14)
    else if i == 2 then Pending(Pending(Some(db), V13), V14)
    else if i == 3 then Pending(Some(db), V14)
    else Some(db)
  }
}
