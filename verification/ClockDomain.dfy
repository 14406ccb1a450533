/**
 Clock stamps and the one rule by which time may pass between two of them:
 inside one boot and one runtime generation, by the monotonic clock, and with
 no suspend in between. Seconds are reals, so every coordinate is finite.
 */
module ClockDomain {
  import opened Wrappers
  import opened JsonValues

  const CLOCK_STAMP_SCHEMA: int := 1
  const CONTROL_DISCONTINUITY_SECONDS: real := 60.0

  datatype ClockStamp = ClockStamp(
    bootId: Option<Uuid>,
    runtimeId: Uuid,
    monotonic: real,
    wall: real,
    suspendOffset: Option<real>)

  const STAMP_FIELDS := {"schema_version", "boot_id", "runtime_id",
                         "observed_monotonic_s", "observed_wall_s", "suspend_offset_s"}

  function EncodeStamp(s: ClockStamp): Json {
    Obj(map[
      "schema_version" := Int(CLOCK_STAMP_SCHEMA),
      "boot_id" := if s.bootId.Some? then Str(s.bootId.value) else Null,
      "runtime_id" := Str(s.runtimeId),
      "observed_monotonic_s" := Real(s.monotonic),
      "observed_wall_s" := Real(s.wall),
      "suspend_offset_s" := if s.suspendOffset.Some? then Real(s.suspendOffset.value) else Null
    ])
  }

  /** `parse_clock_stamp`: anything but a complete current stamp is unknown. */
  function ParseStamp(value: Json): Option<ClockStamp> {
    if !value.Obj? || value.members.Keys != STAMP_FIELDS then None
    else
      var d := value.members;
      var boot, runtime, offset := d["boot_id"], d["runtime_id"], d["suspend_offset_s"];
      if d["schema_version"] != Int(CLOCK_STAMP_SCHEMA) then None
      else if !(boot.Null? || (boot.Str? && CanonicalUuid(boot.text))) then None
      else if !(runtime.Str? && CanonicalUuid(runtime.text)) then None
      else if !d["observed_monotonic_s"].IsNumber() || !d["observed_wall_s"].IsNumber() then None
      else if !(offset.Null? || offset.IsNumber()) then None
      else
        Some(ClockStamp(
               if boot.Null? then None else Some(boot.text),
               runtime.text,
               d["observed_monotonic_s"].Numeric(),
               d["observed_wall_s"].Numeric(),
               if offset.Null? then None else Some(offset.Numeric())))
  }

  lemma {:induction false} StampRoundTrip(s: ClockStamp)
    ensures ParseStamp(EncodeStamp(s)) == Some(s)
  {
    assert EncodeStamp(s).members.Keys == STAMP_FIELDS;
  }

  /** A value or nothing, as a number or null. */
  predicate SpellsOption(value: Json, r: Option<real>) {
    if r.Some? then Spells(value, r.value) else value == Null
  }

  /** A dictionary that says what a stamp says, in exactly its six fields. */
  predicate SpellsStamp(value: Json, s: ClockStamp) {
    && value.Obj?
    && var d := value.members;
    && d.Keys == {"schema_version", "boot_id", "runtime_id",
                  "observed_monotonic_s", "observed_wall_s", "suspend_offset_s"}
    && d["schema_version"] == Int(1)
    && d["boot_id"] == (if s.bootId.Some? then Str(s.bootId.value) else Null)
    && d["runtime_id"] == Str(s.runtimeId)
    && Spells(d["observed_monotonic_s"], s.monotonic) && Spells(d["observed_wall_s"], s.wall)
    && SpellsOption(d["suspend_offset_s"], s.suspendOffset)
  }

  /** Parsing takes exactly the dictionaries that spell a stamp, and gives that stamp. */
  lemma {:induction false} ParseStampExactly(value: Json, s: ClockStamp)
    ensures ParseStamp(value) == Some(s) <==> SpellsStamp(value, s)
  {
    if value.Obj? && value.members.Keys == STAMP_FIELDS {
      var offset := value.members["suspend_offset_s"];
      assert offset.IsNumber() && ParseStamp(value) == Some(s) ==> s.suspendOffset == Some(offset.Numeric());
    }
  }

  /** `stamp_age_s`: an age within one generation, or unknown. */
  function StampAge(
    stamp: ClockStamp, monotonic: real, bootId: Option<Uuid>, runtimeId: Option<Uuid>, suspendOffset: Option<real>)
    : Option<real>
  {
    if bootId.None? || runtimeId.None? || stamp.bootId != bootId || Some(stamp.runtimeId) != runtimeId then None
    else if suspendOffset.None? || stamp.suspendOffset.None? then None
    else if suspendOffset.value - stamp.suspendOffset.value > CONTROL_DISCONTINUITY_SECONDS then None
    else if monotonic - stamp.monotonic >= 0.0 then Some(monotonic - stamp.monotonic)
    else None
  }

  /** The age of one stamp at another, as the controller asks for it. */
  function AgeAt(stamp: ClockStamp, now: ClockStamp): Option<real> {
    StampAge(stamp, now.monotonic, now.bootId, Some(now.runtimeId), now.suspendOffset)
  }

  predicate ContinuityLost(previous: ClockStamp, current: ClockStamp, maxActiveGap: real)
    requires maxActiveGap >= 0.0
  {
    var age := AgeAt(previous, current);
    age.None? || age.value > maxActiveGap
  }

  /** A stamp that can be aged at all: its boot and its suspend offset are known. */
  predicate Known(s: ClockStamp) {
    s.bootId.Some? && s.suspendOffset.Some?
  }

  predicate SameGeneration(a: ClockStamp, b: ClockStamp) {
    Known(a) && Known(b) && a.bootId == b.bootId && a.runtimeId == b.runtimeId
  }

  /** When time provably passed between two stamps: what "known age" means, without computing one. */
  predicate Continuous(from: ClockStamp, to: ClockStamp) {
    && SameGeneration(from, to)
    && to.suspendOffset.value <= from.suspendOffset.value + 60.0
    && from.monotonic <= to.monotonic
  }

  lemma {:induction false} AgeMeaning(from: ClockStamp, to: ClockStamp)
    ensures AgeAt(from, to) == if Continuous(from, to) then Some(to.monotonic - from.monotonic) else None
  {
  }

  /** Continuity is lost unless time provably passed, and no more of it than the gap allows. */
  lemma {:induction false} ContinuityMeaning(previous: ClockStamp, current: ClockStamp, maxActiveGap: real)
    requires maxActiveGap >= 0.0
    ensures ContinuityLost(previous, current, maxActiveGap) <==>
            !(Continuous(previous, current) && current.monotonic <= previous.monotonic + maxActiveGap)
  {
    AgeMeaning(previous, current);
  }

  function HeartbeatRuntimeId(
    heartbeat: Option<ClockStamp>, current: Option<ClockStamp>, staleAfter: real): Option<Uuid>
  {
    if heartbeat.None? || current.None? then None
    else
      var h, c := heartbeat.value, current.value;
      var age := StampAge(h, c.monotonic, c.bootId, Some(h.runtimeId), c.suspendOffset);
      if age.Some? && age.value <= staleAfter then Some(h.runtimeId) else None
  }

  function QualifiedStampAge(
    stamp: Option<ClockStamp>, heartbeat: Option<ClockStamp>, current: Option<ClockStamp>, staleAfter: real)
    : Option<real>
  {
    if stamp.None? || current.None? then None
    else
      var c := current.value;
      StampAge(stamp.value, c.monotonic, c.bootId, HeartbeatRuntimeId(heartbeat, current, staleAfter), c.suspendOffset)
  }

  /** The stamp the controller itself would have taken when a reader took `current`. */
  function ControllerStamp(current: ClockStamp, heartbeat: ClockStamp): ClockStamp {
    current.(runtimeId := heartbeat.runtimeId)
  }

  /** A reader in another process ages a stamp exactly as the controller would, while its heartbeat is fresh. */
  lemma {:induction false} QualifiedAgeMeaning(
    stamp: ClockStamp, heartbeat: ClockStamp, current: ClockStamp, staleAfter: real)
    ensures QualifiedStampAge(Some(stamp), Some(heartbeat), Some(current), staleAfter) ==
            var own := ControllerStamp(current, heartbeat);
            if Continuous(heartbeat, own) && own.monotonic - heartbeat.monotonic <= staleAfter
            then AgeAt(stamp, own) else None
  {
  }
}
