/**
 Durable learning trajectories: frames of delivered time, the run-length audit
 of their role generations, and the segments that must tile time without gaps.
 Milliseconds are integers; delivered seconds and duties are reals.
 */
module TrajectorySegments {
  import opened Wrappers
  import opened JsonValues

  const FRAME_MILLISECONDS: int := 20_000
  const OBSERVATION_SCHEMA_VERSION: int := 4

  datatype Frame = Frame(
    sequence: nat,
    monotonicStart: nat, monotonicEnd: nat,
    wallStart: nat, wallEnd: nat,
    sampleMonotonic: nat, sampleWall: nat,
    sampleAge: nat, sampleWallAge: int, sampleSkew: int,
    probeValid: bool, probeSource: Option<string>,
    augerOnSeconds: real, augerDuty: real,
    fanOnSeconds: real, fanDutyIntegral: real, meanFanDuty: real,
    augerExact: bool, fanExact: bool,
    effectiveMode: string,
    complete: bool, continuous: bool, partial: bool,
    boundaryReason: Option<string>,
    roleGeneration: Option<nat>)
  {
    function Duration(): int {
      monotonicEnd - monotonicStart
    }

    function Seconds(): real {
      Duration() as real / 1000.0
    }
  }

  predicate Close(a: real, b: real) {
    -0.000000000001 <= a - b <= 0.000000000001
  }

  /** `LearningTrajectoryFrame.validate_frame`, with the field bounds it relies on. */
  predicate ValidFrame(f: Frame) {
    && f.Duration() > 0
    && f.sampleMonotonic <= f.monotonicEnd
    && f.sampleAge == f.monotonicEnd - f.sampleMonotonic
    && f.sampleWallAge == f.wallEnd - f.sampleWall
    && f.sampleSkew == f.sampleWallAge - f.sampleAge
    && (if f.partial then f.Duration() < FRAME_MILLISECONDS && !f.complete && f.boundaryReason.Some?
        else f.Duration() == FRAME_MILLISECONDS && f.complete && f.boundaryReason.None?)
    && 0.0 <= f.augerOnSeconds <= f.Seconds()
    && 0.0 <= f.fanOnSeconds <= f.Seconds()
    && 0.0 <= f.fanDutyIntegral <= f.Seconds()
    && Close(f.augerDuty, f.augerOnSeconds / f.Seconds())
    && Close(f.meanFanDuty, f.fanDutyIntegral / f.Seconds())
    && (f.probeValid <==> f.probeSource.Some?)
  }

  // ---------------------------------------------------------------- generation audit

  datatype Range = Range(start: int, end: int, generation: nat)

  /** One frame's attribution. */
  datatype Stamp = Stamp(sequence: int, generation: nat)

  /** The ordered attributions of the frames that have one. */
  function Attributed(frames: seq<Frame>): seq<Stamp> {
    if frames == [] then []
    else
      var rest, last := Attributed(frames[..|frames| - 1]), frames[|frames| - 1];
      if last.roleGeneration.None? then rest else rest + [Stamp(last.sequence, last.roleGeneration.value)]
  }

  function Expand(r: Range): seq<Stamp> {
    if r.start <= r.end then seq(r.end - r.start + 1, k => Stamp(r.start + k, r.generation)) else []
  }

  function ExpandAll(ranges: seq<Range>): seq<Stamp> {
    if ranges == [] then [] else Expand(ranges[0]) + ExpandAll(ranges[1..])
  }

  /** Two neighbours that one longer range would cover. */
  predicate Mergeable(a: Range, b: Range) {
    a.generation == b.generation && a.end + 1 == b.start
  }

  ghost predicate Canonical(ranges: seq<Range>) {
    && (forall i | 0 <= i < |ranges| :: ranges[i].start <= ranges[i].end)
    && (forall i, j | 0 <= i < |ranges| && j == i + 1 && j < |ranges| :: !Mergeable(ranges[i], ranges[j]))
  }

  lemma {:induction false} ExpandAppend(ranges: seq<Range>, last: Range)
    ensures ExpandAll(ranges + [last]) == ExpandAll(ranges) + Expand(last)
  {
    if ranges == [] {
      assert ranges + [last] == [last] && [last][1..] == [];
    } else {
      assert (ranges + [last])[1..] == ranges[1..] + [last];
      ExpandAppend(ranges[1..], last);
    }
  }

  lemma {:induction false} ExtendLast(ranges: seq<Range>)
    requires ranges != [] && Canonical(ranges)
    ensures var last := ranges[|ranges| - 1];
            var longer := ranges[|ranges| - 1 := last.(end := last.end + 1)];
            Canonical(longer) && ExpandAll(longer) == ExpandAll(ranges) + [Stamp(last.end + 1, last.generation)]
  {
    var n := |ranges| - 1;
    var last := ranges[n];
    var more := last.(end := last.end + 1);
    assert ranges == ranges[..n] + [last] && ranges[n := more] == ranges[..n] + [more];
    ExpandAppend(ranges[..n], last);
    ExpandAppend(ranges[..n], more);
    ExpandLonger(last);
  }

  lemma {:induction false} ExpandLonger(r: Range)
    requires r.start <= r.end
    ensures Expand(r.(end := r.end + 1)) == Expand(r) + [Stamp(r.end + 1, r.generation)]
  {
  }

  lemma {:induction false} OpenRange(ranges: seq<Range>, sequence: int, generation: nat)
    requires Canonical(ranges)
    requires ranges == [] || !Mergeable(ranges[|ranges| - 1], Range(sequence, sequence, generation))
    ensures var more := ranges + [Range(sequence, sequence, generation)];
            Canonical(more) && ExpandAll(more) == ExpandAll(ranges) + [Stamp(sequence, generation)]
  {
    ExpandAppend(ranges, Range(sequence, sequence, generation));
    assert Expand(Range(sequence, sequence, generation)) == [Stamp(sequence, generation)];
  }

  lemma {:induction false} AttributedNext(frames: seq<Frame>, i: nat)
    requires i < |frames|
    ensures Attributed(frames[..i + 1]) ==
            Attributed(frames[..i]) +
            if frames[i].roleGeneration.None? then [] else [Stamp(frames[i].sequence, frames[i].roleGeneration.value)]
  {
    assert frames[..i + 1][..i] == frames[..i];
  }

  /** `canonical_generation_audit_ranges`: extend the last range in place or open a new one. */
  method CanonicalGenerationAuditRanges(frames: seq<Frame>) returns (ranges: seq<Range>)
    ensures Canonical(ranges) && ExpandAll(ranges) == Attributed(frames)
  {
    ranges := [];
    for i := 0 to |frames|
      invariant Canonical(ranges)
      invariant ExpandAll(ranges) == Attributed(frames[..i])
    {
      AttributedNext(frames, i);
      if frames[i].roleGeneration.Some? {
        var generation, sequence := frames[i].roleGeneration.value, frames[i].sequence;
        var n := |ranges| - 1;
        if n >= 0 && ranges[n].generation == generation && ranges[n].end + 1 == sequence {
          ExtendLast(ranges);
          ranges := ranges[n := ranges[n].(end := sequence)];
        } else {
          OpenRange(ranges, sequence, generation);
          ranges := ranges + [Range(sequence, sequence, generation)];
        }
      }
    }
    assert frames[..|frames|] == frames;
  }

  /** No two different canonical lists of ranges say the same. */
  lemma {:induction false} CanonicalIsUnique(a: seq<Range>, b: seq<Range>)
    requires Canonical(a) && Canonical(b) && ExpandAll(a) == ExpandAll(b)
    ensures a == b
    decreases |a|
  {
    assert a != [] ==> Expand(a[0]) != [];
    assert b != [] ==> Expand(b[0]) != [];
    if a != [] && b != [] {
      FirstRangesEqual(a, b);
      assert ExpandAll(a) == Expand(a[0]) + ExpandAll(a[1..]);
      assert ExpandAll(b) == Expand(b[0]) + ExpandAll(b[1..]);
      assert ExpandAll(a[1..]) == ExpandAll(a)[|Expand(a[0])|..] == ExpandAll(b[1..]);
      TailCanonical(a);
      TailCanonical(b);
      CanonicalIsUnique(a[1..], b[1..]);
    }
  }

  lemma {:induction false} TailCanonical(a: seq<Range>)
    requires Canonical(a) && a != []
    ensures Canonical(a[1..])
  {
    forall i, j | 0 <= i < |a[1..]| && j == i + 1 && j < |a[1..]| ensures !Mergeable(a[1..][i], a[1..][j]) {
      assert a[1..][i] == a[i + 1] && a[1..][j] == a[j + 1];
      assert !Mergeable(a[i + 1], a[j + 1]);
    }
  }

  /** The first range is a maximal run of the expansion: what follows it does not continue it. */
  lemma {:induction false} HeadIsMaximalRun(a: seq<Range>)
    requires a != [] && Canonical(a)
    ensures var n := a[0].end - a[0].start + 1;
            && 1 <= n <= |ExpandAll(a)|
            && (forall k | 0 <= k < n :: ExpandAll(a)[k] == Stamp(a[0].start + k, a[0].generation))
            && (n < |ExpandAll(a)| ==> ExpandAll(a)[n] != Stamp(a[0].end + 1, a[0].generation))
  {
    var n := |Expand(a[0])|;
    if n < |ExpandAll(a)| {
      assert ExpandAll(a)[n] == ExpandAll(a[1..])[0];
      assert ExpandAll(a[1..])[0] == Expand(a[1])[0] == Stamp(a[1].start, a[1].generation);
      assert !Mergeable(a[0], a[1]);
    }
  }

  lemma {:induction false} FirstRangesEqual(a: seq<Range>, b: seq<Range>)
    requires a != [] && b != [] && Canonical(a) && Canonical(b) && ExpandAll(a) == ExpandAll(b)
    ensures a[0] == b[0]
  {
    HeadIsMaximalRun(a);
    HeadIsMaximalRun(b);
    assert ExpandAll(a)[0] == ExpandAll(b)[0];
    assert a[0].start == b[0].start && a[0].generation == b[0].generation;
  }

  /** The list of ranges the frames call for: the one canonical list with their attributions. */
  ghost predicate Covers(ranges: seq<Range>, frames: seq<Frame>) {
    Canonical(ranges) && ExpandAll(ranges) == Attributed(frames)
  }

  // ---------------------------------------------------------------- the recorded audit

  const AUDIT_FIELDS := {"start_sequence", "end_sequence", "role_generation"}

  function EncodeRange(r: Range): Dict {
    map["start_sequence" := Int(r.start), "end_sequence" := Int(r.end), "role_generation" := Int(r.generation)]
  }

  function EncodeRanges(ranges: seq<Range>): seq<Dict> {
    seq(|ranges|, i requires 0 <= i < |ranges| => EncodeRange(ranges[i]))
  }

  /** Python's `!=` on the recorded and the expected tuple of dictionaries is the negation. */
  predicate SameAudit(recorded: seq<Dict>, expected: seq<Dict>) {
    |recorded| == |expected| && forall i | 0 <= i < |recorded| :: PyEq(Obj(recorded[i]), Obj(expected[i]))
  }

  /** A JSON value that Python counts as a whole number: an integer, a float without fraction, or a bool. */
  predicate Whole(value: Json) {
    (value.IsNumber() || value.Bool?) && value.Numeric() == value.Numeric().Floor as real
  }

  /** A recorded item that names a range: exactly its three fields, each a whole number. */
  predicate NamesRange(item: Dict) {
    item.Keys == AUDIT_FIELDS && (forall k | k in item :: Whole(item[k])) && item["role_generation"].Numeric() >= 0.0
  }

  function NamedRange(item: Dict): Range
    requires NamesRange(item)
  {
    Range(item["start_sequence"].Numeric().Floor,
          item["end_sequence"].Numeric().Floor,
          item["role_generation"].Numeric().Floor)
  }

  predicate NamesRanges(recorded: seq<Dict>) {
    forall i | 0 <= i < |recorded| :: NamesRange(recorded[i])
  }

  function NamedRanges(recorded: seq<Dict>): seq<Range>
    requires NamesRanges(recorded)
  {
    seq(|recorded|, i requires 0 <= i < |recorded| => NamedRange(recorded[i]))
  }

  lemma {:induction false} SameItem(item: Dict, r: Range)
    ensures PyEq(Obj(item), Obj(EncodeRange(r))) <==> NamesRange(item) && NamedRange(item) == r
  {
    assert EncodeRange(r).Keys == AUDIT_FIELDS;
    if item.Keys == AUDIT_FIELDS {
      SameNumber(item["start_sequence"], r.start);
      SameNumber(item["end_sequence"], r.end);
      SameNumber(item["role_generation"], r.generation);
      assert forall k | k in item :: k in AUDIT_FIELDS;
      if PyEq(Obj(item), Obj(EncodeRange(r))) {
        assert forall k | k in item :: PyEq(item[k], EncodeRange(r)[k]);
      }
    }
  }

  lemma {:induction false} SameNumber(value: Json, n: int)
    ensures PyEq(value, Int(n)) <==> Whole(value) && value.Numeric().Floor == n
  {
    if value.IsNumber() || value.Bool? {
      assert (n as real).Floor == n;
    }
  }

  lemma {:induction false} SameAuditMeans(recorded: seq<Dict>, ranges: seq<Range>)
    ensures SameAudit(recorded, EncodeRanges(ranges)) <==> NamesRanges(recorded) && NamedRanges(recorded) == ranges
  {
    forall i | 0 <= i < |recorded| && i < |ranges|
      ensures PyEq(Obj(recorded[i]), Obj(EncodeRanges(ranges)[i])) <==>
              NamesRange(recorded[i]) && NamedRange(recorded[i]) == ranges[i]
    {
      SameItem(recorded[i], ranges[i]);
    }
    if SameAudit(recorded, EncodeRanges(ranges)) {
      assert forall i | 0 <= i < |recorded| :: NamesRange(recorded[i]) && NamedRange(recorded[i]) == ranges[i];
    }
    if NamesRanges(recorded) && NamedRanges(recorded) == ranges {
      assert forall i | 0 <= i < |recorded| :: NamedRanges(recorded)[i] == ranges[i];
    }
  }

  /** A recorded audit says what the frames call for: it names the canonical ranges that cover them. */
  ghost predicate Audits(recorded: seq<Dict>, frames: seq<Frame>) {
    NamesRanges(recorded) && Covers(NamedRanges(recorded), frames)
  }

  /**
   The check of a recorded audit accepts exactly those that name the one canonical
   cover, in any spelling of its numbers.
   */
  method AuditMatches(recorded: seq<Dict>, frames: seq<Frame>) returns (ok: bool)
    ensures ok <==> Audits(recorded, frames)
  {
    var expected := CanonicalGenerationAuditRanges(frames);
    ok := SameAudit(recorded, EncodeRanges(expected));
    SameAuditMeans(recorded, expected);
    if Audits(recorded, frames) {
      CanonicalIsUnique(NamedRanges(recorded), expected);
    }
  }

  /** All fields are integers, as the canonical encoding writes them. */
  predicate Integers(recorded: seq<Dict>) {
    forall i, k | 0 <= i < |recorded| && k in recorded[i] :: recorded[i][k].Int?
  }

  /**
   Of the accepted audits exactly one is the canonical encoding: the one whose fields
   are all integers. Any other spelling of the same numbers is accepted as well.
   */
  lemma {:induction false} OneIntegerAudit(recorded: seq<Dict>, ranges: seq<Range>, frames: seq<Frame>)
    requires Covers(ranges, frames)
    ensures Audits(recorded, frames) && Integers(recorded) <==> recorded == EncodeRanges(ranges)
  {
    SameAuditMeans(EncodeRanges(ranges), ranges);
    EncodingIsSame(ranges);
    if Audits(recorded, frames) && Integers(recorded) {
      CanonicalIsUnique(NamedRanges(recorded), ranges);
      forall i | 0 <= i < |recorded| ensures recorded[i] == EncodeRanges(ranges)[i] {
        assert NamedRanges(recorded)[i] == ranges[i];
        assert recorded[i].Keys == AUDIT_FIELDS == EncodeRange(ranges[i]).Keys;
        forall k | k in recorded[i] ensures recorded[i][k] == EncodeRange(ranges[i])[k] {
          assert recorded[i][k] == Int(recorded[i][k].i) && (recorded[i][k].i as real).Floor == recorded[i][k].i;
        }
      }
    }
  }

  lemma {:induction false} EncodingIsSame(ranges: seq<Range>)
    ensures SameAudit(EncodeRanges(ranges), EncodeRanges(ranges)) && Integers(EncodeRanges(ranges))
  {
    forall i | 0 <= i < |ranges| ensures PyEq(Obj(EncodeRange(ranges[i])), Obj(EncodeRange(ranges[i]))) {
      var item := EncodeRange(ranges[i]);
      assert forall k | k in item :: PyEq(item[k], item[k]);
    }
  }

  const FLOAT_ITEM: Dict :=
    map["start_sequence" := Real(0.0), "end_sequence" := Bool(false), "role_generation" := Int(1)]

  /** A frame of sequence zero may be recorded as from 0.0 to False: accepted, and no canonical encoding. */
  lemma {:induction false} FloatAuditAccepted(f: Frame)
    requires f.sequence == 0 && f.roleGeneration == Some(1)
    ensures Audits([FLOAT_ITEM], [f]) && [FLOAT_ITEM] != EncodeRanges([Range(0, 0, 1)])
  {
    var item := FLOAT_ITEM;
    assert [f][..0] == [];
    assert Attributed([f]) == [Stamp(0, 1)];
    var r := Range(0, 0, 1);
    assert item.Keys == AUDIT_FIELDS;
    assert NamedRange(item) == r;
    assert NamedRanges([item]) == [r];
    assert [r][1..] == [] && Expand(r) == [Stamp(0, 1)];
    assert item["start_sequence"] != EncodeRange(r)["start_sequence"];
    assert EncodeRanges([r])[0] == EncodeRange(r);
  }

  // ---------------------------------------------------------------- segments

  datatype HoldEntry = HoldEntry(monotonic: nat, wall: nat, probeValid: bool, probeSource: Option<string>)

  datatype State = Open | Finalized | Quarantined

  datatype Segment = Segment(
    observationVersion: int,
    traceSessionIds: seq<string>,
    preRoll: seq<Frame>,
    holdEntry: Option<HoldEntry>,
    scored: seq<Frame>,
    audit: seq<Dict>,
    startMonotonic: nat, endMonotonic: nat,
    startWall: nat, endWall: nat,
    startSequence: nat, endSequence: nat,
    terminalReason: Option<string>,
    state: State)
  {
    predicate IsHistorical() {
      observationVersion < 4
    }

    function Frames(): seq<Frame> {
      preRoll + scored
    }
  }

  /** One step of `_validate_frame_tuple_chronology`, for neighbours that may not have a gap. */
  predicate Chronological(previous: Frame, current: Frame, historical: bool) {
    && current.sequence == previous.sequence + 1
    && current.monotonicStart == previous.monotonicEnd
    && (historical ==> current.wallStart == previous.wallEnd)
  }

  predicate ChronologicalFrames(frames: seq<Frame>, historical: bool) {
    forall i, j | 0 <= i < |frames| && j == i + 1 && j < |frames| :: Chronological(frames[i], frames[j], historical)
  }

  /** Between the last pre-roll frame and the first scored one, historical records may show a typed boundary. */
  predicate Junction(previous: Frame, current: Frame, historical: bool) {
    && current.sequence == previous.sequence + 1
    && current.monotonicStart >= previous.monotonicEnd
    && (historical ==> current.wallStart >= previous.wallEnd)
    && var gap := current.monotonicStart != previous.monotonicEnd ||
                  (historical && current.wallStart != previous.wallEnd);
    gap ==> historical && previous.partial && previous.boundaryReason.Some?
  }

  predicate PreRollFrame(f: Frame) {
    f.continuous && f.augerExact && f.fanExact
  }

  predicate ScoredFrame(f: Frame) {
    && !f.partial && f.complete && f.continuous && f.probeValid
    && f.effectiveMode == "Hold" && f.augerExact && f.fanExact
  }

  predicate HoldEntryAgrees(s: Segment)
    requires s.Frames() != []
  {
    if s.scored != [] then
      var first := s.scored[0];
      && s.holdEntry.Some?
      && var h := s.holdEntry.value;
      && first.monotonicStart <= h.monotonic <= first.sampleMonotonic
      && (s.IsHistorical() ==>
            && first.wallStart <= h.wall <= first.sampleWall
            && h.monotonic - first.monotonicStart == h.wall - first.wallStart)
      && h.probeValid
    else if s.holdEntry.Some? then
      var h, last := s.holdEntry.value, s.preRoll[|s.preRoll| - 1];
      h.monotonic == last.monotonicEnd && (s.IsHistorical() ==> h.wall == last.wallEnd) && h.probeValid
    else true
  }

  predicate BoundsMatch(s: Segment)
    requires s.Frames() != []
  {
    var first, last := s.Frames()[0], s.Frames()[|s.Frames()| - 1];
    && s.startMonotonic == first.monotonicStart && s.endMonotonic == last.monotonicEnd
    && s.startWall == first.wallStart && s.endWall == last.wallEnd
    && s.startSequence == first.sequence && s.endSequence == last.sequence
  }

  /** The checks of `LearningTrajectorySegment.validate_segment` that place the frames in time and order. */
  predicate Timeline(s: Segment)
    requires s.Frames() != []
  {
    && ChronologicalFrames(s.preRoll, s.IsHistorical())
    && ChronologicalFrames(s.scored, s.IsHistorical())
    && (s.preRoll != [] && s.scored != [] ==>
          Junction(s.preRoll[|s.preRoll| - 1], s.scored[0], s.IsHistorical()))
    && BoundsMatch(s)
  }

  /** `validate_segment` on a segment of valid frames. */
  ghost predicate Accepted(s: Segment) {
    && s.observationVersion in {2, 3, OBSERVATION_SCHEMA_VERSION}
    && s.Frames() != []
    && s.traceSessionIds != []
    && (forall i, j | 0 <= i < j < |s.traceSessionIds| :: s.traceSessionIds[i] != s.traceSessionIds[j])
    && (forall i | 0 <= i < |s.Frames()| :: ValidFrame(s.Frames()[i]))
    && (s.IsHistorical() ==> forall i | 0 <= i < |s.Frames()| ::
          s.Frames()[i].wallEnd - s.Frames()[i].wallStart == s.Frames()[i].Duration())
    && Timeline(s)
    && (forall i | 0 <= i < |s.preRoll| :: PreRollFrame(s.preRoll[i]))
    && (forall i | 0 <= i < |s.scored| :: ScoredFrame(s.scored[i]))
    && (s.observationVersion >= 3 ==>
          && (forall i | 0 <= i < |s.scored| :: s.scored[i].roleGeneration.Some?)
          && Audits(s.audit, s.Frames()))
    && HoldEntryAgrees(s)
    && (s.state.Open? <==> s.terminalReason.None?)
  }

  // ---------------------------------------------------------------- tiling

  function TotalDuration(frames: seq<Frame>): int {
    if frames == [] then 0 else TotalDuration(frames[..|frames| - 1]) + frames[|frames| - 1].Duration()
  }

  function TotalAuger(frames: seq<Frame>): real {
    if frames == [] then 0.0 else TotalAuger(frames[..|frames| - 1]) + frames[|frames| - 1].augerOnSeconds
  }

  /** Frames numbered without gaps, each beginning where the one before ended. */
  ghost predicate Tiles(frames: seq<Frame>, startSequence: int) {
    && (forall i | 0 <= i < |frames| :: frames[i].sequence == startSequence + i)
    && (forall i, j | 0 <= i < |frames| && j == i + 1 && j < |frames| ::
          frames[j].monotonicStart == frames[i].monotonicEnd)
  }

  lemma {:induction false} TilesAddUp(frames: seq<Frame>, startSequence: int)
    requires frames != [] && Tiles(frames, startSequence)
    ensures TotalDuration(frames) == frames[|frames| - 1].monotonicEnd - frames[0].monotonicStart
    decreases |frames|
  {
    var n := |frames| - 1;
    if n > 0 {
      TilesAddUp(frames[..n], startSequence);
    } else {
      assert frames[..0] == [];
    }
  }

  lemma {:induction false} AugerWithinTime(frames: seq<Frame>)
    requires forall i | 0 <= i < |frames| :: ValidFrame(frames[i])
    ensures 0.0 <= TotalAuger(frames) <= TotalDuration(frames) as real / 1000.0
    decreases |frames|
  {
    if frames != [] {
      AugerWithinTime(frames[..|frames| - 1]);
    }
  }

  lemma {:induction false} FullFramesAddUp(frames: seq<Frame>)
    requires forall i | 0 <= i < |frames| :: ValidFrame(frames[i]) && !frames[i].partial
    ensures TotalDuration(frames) == FRAME_MILLISECONDS * |frames|
    decreases |frames|
  {
    if frames != [] {
      FullFramesAddUp(frames[..|frames| - 1]);
    }
  }

  lemma {:induction false} SequencesCount(frames: seq<Frame>, historical: bool, i: nat)
    requires ChronologicalFrames(frames, historical) && i < |frames|
    ensures frames[i].sequence == frames[0].sequence + i
    decreases i
  {
    if i > 0 {
      SequencesCount(frames, historical, i - 1);
      assert Chronological(frames[i - 1], frames[i], historical);
    }
  }

  /**
   For current records the separate checks on pre-roll, junction, scored frames and
   bounds say one thing: the whole tiles time.
   */
  lemma {:induction false} TimelineMeansTiling(s: Segment)
    requires !s.IsHistorical() && s.Frames() != []
    ensures Timeline(s) <==> BoundsMatch(s) && Tiles(s.Frames(), s.startSequence)
  {
    var all, n := s.Frames(), |s.preRoll|;
    if Timeline(s) {
      forall i | 0 <= i < |all| ensures all[i].sequence == s.startSequence + i {
        if i < n {
          SequencesCount(s.preRoll, false, i);
        } else {
          SequencesCount(s.scored, false, i - n);
          if n > 0 {
            SequencesCount(s.preRoll, false, n - 1);
          }
        }
      }
      forall i, j | 0 <= i < |all| && j == i + 1 && j < |all| ensures all[j].monotonicStart == all[i].monotonicEnd {
        if j < n {
          assert Chronological(s.preRoll[i], s.preRoll[j], false);
        } else if i >= n {
          assert Chronological(s.scored[i - n], s.scored[j - n], false);
        }
      }
    }
    if BoundsMatch(s) && Tiles(all, s.startSequence) {
      forall i, j | 0 <= i < n && j == i + 1 && j < n ensures Chronological(s.preRoll[i], s.preRoll[j], false) {
        assert all[i] == s.preRoll[i] && all[j] == s.preRoll[j];
      }
      forall i, j | 0 <= i < |s.scored| && j == i + 1 && j < |s.scored|
        ensures Chronological(s.scored[i], s.scored[j], false)
      {
        assert all[i + n] == s.scored[i] && all[j + n] == s.scored[j];
      }
      if n > 0 && s.scored != [] {
        assert all[n - 1] == s.preRoll[n - 1] && all[n] == s.scored[0];
        assert all[n].monotonicStart == all[n - 1].monotonicEnd;
      }
    }
  }

  /**
   The frames are numbered from start to end without gaps, their durations sum to
   end minus start, the scored part spans exactly twenty seconds per frame, and
   the auger was on for no longer than the segment lasts.
   */
  ghost predicate TilesTime(s: Segment) {
    && Tiles(s.Frames(), s.startSequence) && s.endSequence == s.startSequence + |s.Frames()| - 1
    && TotalDuration(s.Frames()) == s.endMonotonic - s.startMonotonic
    && (s.scored != [] ==>
          s.scored[|s.scored| - 1].monotonicEnd - s.scored[0].monotonicStart == FRAME_MILLISECONDS * |s.scored|)
    && 0.0 <= TotalAuger(s.Frames()) <= (s.endMonotonic - s.startMonotonic) as real / 1000.0
  }

  /** Every accepted current segment tiles time. */
  lemma {:induction false} AcceptedSegmentsTileTime(s: Segment)
    requires Accepted(s) && s.observationVersion == OBSERVATION_SCHEMA_VERSION
    ensures TilesTime(s)
  {
    ValidTimelineTiles(s);
  }

  lemma {:induction false} ValidTimelineTiles(s: Segment)
    requires !s.IsHistorical() && s.Frames() != [] && Timeline(s)
    requires forall i | 0 <= i < |s.Frames()| :: ValidFrame(s.Frames()[i])
    requires forall i | 0 <= i < |s.scored| :: !s.scored[i].partial
    ensures TilesTime(s)
  {
    var all := s.Frames();
    TimelineMeansTiling(s);
    TilesAddUp(all, s.startSequence);
    AugerWithinTime(all);
    if s.scored != [] {
      ScoredPartTiles(s);
      TilesAddUp(s.scored, s.scored[0].sequence);
      forall i | 0 <= i < |s.scored| ensures ValidFrame(s.scored[i]) {
        assert all[i + |s.preRoll|] == s.scored[i];
      }
      FullFramesAddUp(s.scored);
    }
  }

  lemma {:induction false} ScoredPartTiles(s: Segment)
    requires s.scored != [] && ChronologicalFrames(s.scored, s.IsHistorical())
    ensures Tiles(s.scored, s.scored[0].sequence)
  {
    forall i | 0 <= i < |s.scored| ensures s.scored[i].sequence == s.scored[0].sequence + i {
      SequencesCount(s.scored, s.IsHistorical(), i);
    }
    forall i, j | 0 <= i < |s.scored| && j == i + 1 && j < |s.scored|
      ensures s.scored[j].monotonicStart == s.scored[i].monotonicEnd
    {
      assert Chronological(s.scored[i], s.scored[j], s.IsHistorical());
    }
  }

  /** Historical segments may miss time at one place only: between a partial, typed pre-roll end and the scored part. */
  lemma {:induction false} HistoricalGapIsAtTheJunction(s: Segment)
    requires Accepted(s) && s.IsHistorical()
    ensures var gap := if s.preRoll != [] && s.scored != []
                       then s.scored[0].monotonicStart - s.preRoll[|s.preRoll| - 1].monotonicEnd else 0;
            && gap >= 0
            && TotalDuration(s.preRoll) + gap + TotalDuration(s.scored) == s.endMonotonic - s.startMonotonic
            && (gap > 0 ==> s.preRoll[|s.preRoll| - 1].partial && s.preRoll[|s.preRoll| - 1].boundaryReason.Some?)
  {
    if s.preRoll != [] {
      ChronologicalTiles(s.preRoll);
      TilesAddUp(s.preRoll, s.preRoll[0].sequence);
    }
    if s.scored != [] {
      ChronologicalTiles(s.scored);
      TilesAddUp(s.scored, s.scored[0].sequence);
    }
  }

  lemma {:induction false} ChronologicalTiles(frames: seq<Frame>)
    requires frames != [] && ChronologicalFrames(frames, true)
    ensures Tiles(frames, frames[0].sequence)
  {
    forall i | 0 <= i < |frames| ensures frames[i].sequence == frames[0].sequence + i {
      SequencesCount(frames, true, i);
    }
    forall i, j | 0 <= i < |frames| && j == i + 1 && j < |frames|
      ensures frames[j].monotonicStart == frames[i].monotonicEnd
    {
      assert Chronological(frames[i], frames[j], true);
    }
  }
}
