/**
 Which segments are accepted: the checks in the order in which they are made, loop
 by loop, and the one condition they come to.
 */
module SegmentValidation {
  import opened Wrappers
  import opened JsonValues
  import opened TrajectorySegments

  // ---------------------------------------------------------------- the checks, one after another

  /** `_validate_frame_tuple_chronology` where no gap is allowed. */
  method ChronologyHolds(frames: seq<Frame>, historical: bool) returns (ok: bool)
    ensures ok <==> ChronologicalFrames(frames, historical)
  {
    var i := 1;
    while i < |frames|
      invariant 1 <= i
      invariant forall k, j | 0 <= k < |frames| && j == k + 1 && j < |frames| && j < i ::
                  Chronological(frames[k], frames[j], historical)
    {
      var previous, current := frames[i - 1], frames[i];
      if current.sequence <= previous.sequence || current.sequence != previous.sequence + 1 ||
         current.monotonicStart < previous.monotonicEnd ||
         (historical && current.wallStart < previous.wallEnd) ||
         current.monotonicStart != previous.monotonicEnd ||
         (historical && current.wallStart != previous.wallEnd) {
        assert !Chronological(frames[i - 1], frames[i], historical);
        return false;
      }
      i := i + 1;
    }
    ok := true;
  }

  /** `len(set(ids)) == len(ids)`, one identity after another. */
  method AllDifferent(ids: seq<string>) returns (ok: bool)
    ensures ok <==> forall i, j | 0 <= i < j < |ids| :: ids[i] != ids[j]
  {
    var seen: set<string> := {};
    for j := 0 to |ids|
      invariant seen == set i | 0 <= i < j :: ids[i]
      invariant forall i, k | 0 <= i < k < j :: ids[i] != ids[k]
    {
      if ids[j] in seen {
        return false;
      }
      seen := seen + {ids[j]};
    }
    ok := true;
  }

  method FramesHold(s: Segment) returns (ok: bool)
    ensures ok <==> (forall i | 0 <= i < |s.preRoll| :: PreRollFrame(s.preRoll[i])) &&
                    (forall i | 0 <= i < |s.scored| :: ScoredFrame(s.scored[i]))
  {
    for i := 0 to |s.preRoll|
      invariant forall k | 0 <= k < i :: PreRollFrame(s.preRoll[k])
    {
      var f := s.preRoll[i];
      if !f.continuous || !f.augerExact || !f.fanExact {
        assert !PreRollFrame(s.preRoll[i]);
        return false;
      }
    }
    for i := 0 to |s.scored|
      invariant forall k | 0 <= k < i :: ScoredFrame(s.scored[k])
    {
      var f := s.scored[i];
      if f.partial || !f.complete || !f.continuous || !f.probeValid || f.effectiveMode != "Hold" ||
         !f.augerExact || !f.fanExact {
        assert !ScoredFrame(s.scored[i]);
        return false;
      }
    }
    ok := true;
  }

  /** The historical mapping of wall time, frame by frame. */
  method WallMappingHolds(frames: seq<Frame>) returns (ok: bool)
    ensures ok <==> forall i | 0 <= i < |frames| :: frames[i].wallEnd - frames[i].wallStart == frames[i].Duration()
  {
    for i := 0 to |frames|
      invariant forall k | 0 <= k < i :: frames[k].wallEnd - frames[k].wallStart == frames[k].Duration()
    {
      if frames[i].wallEnd - frames[i].wallStart != frames[i].monotonicEnd - frames[i].monotonicStart {
        return false;
      }
    }
    ok := true;
  }

  /** Attribution of every scored frame, and the recorded audit. */
  method AuditHolds(s: Segment) returns (ok: bool)
    ensures ok <==> (forall i | 0 <= i < |s.scored| :: s.scored[i].roleGeneration.Some?) &&
                    Audits(s.audit, s.Frames())
  {
    for i := 0 to |s.scored|
      invariant forall k | 0 <= k < i :: s.scored[k].roleGeneration.Some?
    {
      if s.scored[i].roleGeneration.None? {
        return false;
      }
    }
    ok := AuditMatches(s.audit, s.Frames());
  }

  method HoldEntryHolds(s: Segment) returns (ok: bool)
    requires s.Frames() != []
    ensures ok <==> HoldEntryAgrees(s)
  {
    var historical := s.IsHistorical();
    if s.scored != [] {
      if s.holdEntry.None? {
        return false;
      }
      var h, first := s.holdEntry.value, s.scored[0];
      if h.monotonic < first.monotonicStart || (historical && h.wall < first.wallStart) {
        return false;
      }
      if historical && h.monotonic - first.monotonicStart != h.wall - first.wallStart {
        return false;
      }
      if h.monotonic > first.sampleMonotonic || (historical && h.wall > first.sampleWall) {
        return false;
      }
      return h.probeValid;
    }
    if s.holdEntry.Some? {
      var h, last := s.holdEntry.value, s.preRoll[|s.preRoll| - 1];
      if h.monotonic != last.monotonicEnd || (historical && h.wall != last.wallEnd) {
        return false;
      }
      return h.probeValid;
    }
    ok := true;
  }

  method JunctionHolds(s: Segment) returns (ok: bool)
    ensures ok <==> (s.preRoll != [] && s.scored != [] ==>
                       Junction(s.preRoll[|s.preRoll| - 1], s.scored[0], s.IsHistorical()))
  {
    if s.preRoll == [] || s.scored == [] {
      return true;
    }
    var previous, current, historical := s.preRoll[|s.preRoll| - 1], s.scored[0], s.IsHistorical();
    if current.sequence <= previous.sequence || current.sequence != previous.sequence + 1 {
      return false;
    }
    if current.monotonicStart < previous.monotonicEnd || (historical && current.wallStart < previous.wallEnd) {
      return false;
    }
    var hasGap := current.monotonicStart != previous.monotonicEnd ||
                  (historical && current.wallStart != previous.wallEnd);
    ok := !(hasGap && !(historical && previous.partial && previous.boundaryReason.Some?));
  }

  /** `validate_segment`, on a segment whose frames were validated when they were made. */
  method ValidateSegment(s: Segment) returns (ok: bool)
    requires forall i | 0 <= i < |s.Frames()| :: ValidFrame(s.Frames()[i])
    ensures ok <==> Accepted(s)
  {
    if s.observationVersion !in {2, 3, OBSERVATION_SCHEMA_VERSION} || (s.preRoll == [] && s.scored == []) {
      return false;
    }
    var different := AllDifferent(s.traceSessionIds);
    if s.traceSessionIds == [] || !different {
      return false;
    }
    if s.observationVersion < 4 {
      var mapped := WallMappingHolds(s.Frames());
      if !mapped {
        return false;
      }
    }
    var before := ChronologyHolds(s.preRoll, s.IsHistorical());
    var after := ChronologyHolds(s.scored, s.IsHistorical());
    var certain := FramesHold(s);
    var joined := JunctionHolds(s);
    if !before || !after || !certain || !joined {
      return false;
    }
    if s.observationVersion >= 3 {
      var audited := AuditHolds(s);
      if !audited {
        return false;
      }
    }
    var first, last := s.Frames()[0], s.Frames()[|s.Frames()| - 1];
    if s.startMonotonic != first.monotonicStart || s.endMonotonic != last.monotonicEnd ||
       s.startWall != first.wallStart || s.endWall != last.wallEnd ||
       s.startSequence != first.sequence || s.endSequence != last.sequence {
      return false;
    }
    var entered := HoldEntryHolds(s);
    ok := entered && (s.state.Open? <==> s.terminalReason.None?);
  }

  // ---------------------------------------------------------------- what they come to

  /** A frame begins where the one before ended; only a typed, partial end of a historical pre-roll leaves a gap. */
  predicate Follows(s: Segment, i: int)
    requires 0 <= i < i + 1 < |s.Frames()|
  {
    var previous, current, historical := s.Frames()[i], s.Frames()[i + 1], s.observationVersion < 4;
    && current.sequence == previous.sequence + 1
    && if historical && i + 1 == |s.preRoll| && previous.partial && previous.boundaryReason.Some?
       then current.monotonicStart >= previous.monotonicEnd && current.wallStart >= previous.wallEnd
       else current.monotonicStart == previous.monotonicEnd && (historical ==> current.wallStart == previous.wallEnd)
  }

  ghost predicate AllFollow(s: Segment) {
    forall i | 0 <= i < i + 1 < |s.Frames()| :: Follows(s, i)
  }

  /** The first scored frame, or else the end of the pre-roll, is where the Hold mode was entered. */
  predicate EnteredHold(s: Segment)
    requires s.Frames() != []
  {
    match s.holdEntry
    case None => s.scored == []
    case Some(h) =>
      var historical := s.observationVersion < 4;
      && h.probeValid
      && if s.scored == [] then
           var last := s.Frames()[|s.Frames()| - 1];
           h.monotonic == last.monotonicEnd && (historical ==> h.wall == last.wallEnd)
         else
           var first := s.Frames()[|s.preRoll|];
           && first.monotonicStart <= h.monotonic <= first.sampleMonotonic
           && (historical ==>
                 h.wall == first.wallStart + (h.monotonic - first.monotonicStart) && h.wall <= first.sampleWall)
  }

  /** What a segment must be, over its frames as one sequence. */
  ghost predicate Sound(s: Segment) {
    var all, n := s.Frames(), |s.preRoll|;
    && 2 <= s.observationVersion <= 4 && all != []
    && s.traceSessionIds != [] && (forall i, j | 0 <= i < j < |s.traceSessionIds| ::
                                     s.traceSessionIds[i] != s.traceSessionIds[j])
    && (forall i | 0 <= i < |all| :: ValidFrame(all[i]))
    && (forall i | 0 <= i < |all| :: all[i].continuous && all[i].augerExact && all[i].fanExact)
    && (forall i | n <= i < |all| ::
          !all[i].partial && all[i].complete && all[i].probeValid && all[i].effectiveMode == "Hold")
    && AllFollow(s)
    && (s.observationVersion < 4 ==> forall i | 0 <= i < |all| ::
          all[i].wallEnd - all[i].wallStart == all[i].monotonicEnd - all[i].monotonicStart)
    && (s.observationVersion >= 3 ==>
          (forall i | n <= i < |all| :: all[i].roleGeneration.Some?) && Audits(s.audit, all))
    && s.startSequence == all[0].sequence && s.endSequence == all[|all| - 1].sequence
    && s.startMonotonic == all[0].monotonicStart && s.endMonotonic == all[|all| - 1].monotonicEnd
    && s.startWall == all[0].wallStart && s.endWall == all[|all| - 1].wallEnd
    && EnteredHold(s)
    && (s.terminalReason.None? <==> s.state == Open)
  }

  lemma {:induction false} FramesAt(s: Segment)
    ensures |s.Frames()| == |s.preRoll| + |s.scored|
    ensures forall i | 0 <= i < |s.preRoll| :: s.Frames()[i] == s.preRoll[i]
    ensures forall i | 0 <= i < |s.scored| :: s.Frames()[|s.preRoll| + i] == s.scored[i]
    ensures forall i | |s.preRoll| <= i < |s.Frames()| :: s.Frames()[i] == s.scored[i - |s.preRoll|]
  {
  }

  lemma {:induction false} TimelineFollows(s: Segment)
    requires s.Frames() != []
    ensures Timeline(s) <==> BoundsMatch(s) && AllFollow(s)
  {
    FramesAt(s);
    var all, n := s.Frames(), |s.preRoll|;
    if Timeline(s) {
      forall i | 0 <= i < i + 1 < |all| ensures Follows(s, i) {
        if i + 1 < n {
          assert Chronological(s.preRoll[i], s.preRoll[i + 1], s.IsHistorical());
        } else if i >= n {
          assert Chronological(s.scored[i - n], s.scored[i + 1 - n], s.IsHistorical());
        } else {
          assert Junction(s.preRoll[n - 1], s.scored[0], s.IsHistorical());
        }
      }
    }
    if AllFollow(s) {
      PreRollFollows(s);
      ScoredFollow(s);
      if s.preRoll != [] && s.scored != [] {
        PartsFollow(s);
      }
    }
  }

  /** Away from the junction, to follow is to be chronological. */
  lemma {:induction false} FollowsInPart(s: Segment, i: nat)
    requires i + 1 < |s.Frames()| && i + 1 != |s.preRoll| && Follows(s, i)
    ensures Chronological(s.Frames()[i], s.Frames()[i + 1], s.IsHistorical())
  {
  }

  lemma {:induction false} PreRollFollows(s: Segment)
    requires AllFollow(s)
    ensures ChronologicalFrames(s.preRoll, s.IsHistorical())
  {
    FramesAt(s);
    var n := |s.preRoll|;
    forall i, j | 0 <= i < n && j == i + 1 && j < n
      ensures Chronological(s.preRoll[i], s.preRoll[j], s.IsHistorical())
    {
      FollowsInPart(s, i);
    }
  }

  lemma {:induction false} ScoredPair(s: Segment, i: nat)
    requires i + 1 < |s.scored| && Follows(s, |s.preRoll| + i)
    ensures Chronological(s.scored[i], s.scored[i + 1], s.IsHistorical())
  {
    var k := |s.preRoll| + i;
    assert s.Frames()[k] == s.scored[i] && s.Frames()[k + 1] == s.scored[i + 1];
    FollowsInPart(s, k);
  }

  lemma {:induction false} ScoredFollow(s: Segment)
    requires AllFollow(s)
    ensures ChronologicalFrames(s.scored, s.IsHistorical())
  {
    forall i, j | 0 <= i < |s.scored| && j == i + 1 && j < |s.scored|
      ensures Chronological(s.scored[i], s.scored[j], s.IsHistorical())
    {
      assert Follows(s, |s.preRoll| + i);
      ScoredPair(s, i);
    }
  }

  lemma {:induction false} PartsFollow(s: Segment)
    requires AllFollow(s) && s.preRoll != [] && s.scored != []
    ensures Junction(s.preRoll[|s.preRoll| - 1], s.scored[0], s.IsHistorical())
  {
    FramesAt(s);
    assert Follows(s, |s.preRoll| - 1);
  }

  lemma {:induction false} KindsOfFrames(s: Segment)
    ensures (forall i | 0 <= i < |s.preRoll| :: PreRollFrame(s.preRoll[i])) &&
            (forall i | 0 <= i < |s.scored| :: ScoredFrame(s.scored[i])) <==>
            (forall i | 0 <= i < |s.Frames()| ::
               s.Frames()[i].continuous && s.Frames()[i].augerExact && s.Frames()[i].fanExact) &&
            (forall i | |s.preRoll| <= i < |s.Frames()| ::
               && !s.Frames()[i].partial && s.Frames()[i].complete && s.Frames()[i].probeValid
               && s.Frames()[i].effectiveMode == "Hold")
    ensures (forall i | 0 <= i < |s.scored| :: s.scored[i].roleGeneration.Some?) <==>
            (forall i | |s.preRoll| <= i < |s.Frames()| :: s.Frames()[i].roleGeneration.Some?)
  {
    FramesAt(s);
  }

  lemma {:induction false} HoldEntryMeans(s: Segment)
    requires s.Frames() != []
    ensures HoldEntryAgrees(s) <==> EnteredHold(s)
  {
    FramesAt(s);
  }

  /**
   A segment is accepted exactly when its frames, as one sequence, follow each other
   in number and time up to the one gap that historical records may show, each
   frame is of its part's kind, the audit names the canonical cover, the bounds are
   those of the first and last frame, and the Hold mode was entered where it says.
   */
  lemma {:induction false} AcceptedExactly(s: Segment)
    ensures Accepted(s) <==> Sound(s)
  {
    if s.Frames() != [] {
      TimelineFollows(s);
      KindsOfFrames(s);
      HoldEntryMeans(s);
    }
  }

  // ---------------------------------------------------------------- one frame

  /** The drift between the two clocks, as a wall-clock reading shows it beside a monotonic one. */
  function Drift(wall: int, monotonic: int): int {
    wall - monotonic
  }

  predicate Near(a: real, b: real) {
    b - 0.000000000001 <= a && a <= b + 0.000000000001
  }

  /**
   A frame is valid exactly when it lasts at most twenty seconds, less if and only if
   it is partial, incomplete and typed; the sample's age on either clock leads from
   the sample to the frame's end, and the skew is how far the clocks drifted apart in
   between; nothing was delivered for longer than the frame, and duties are shares of it.
   */
  lemma {:induction false} ValidExactly(f: Frame)
    ensures ValidFrame(f) <==>
            && f.monotonicStart < f.monotonicEnd <= f.monotonicStart + 20_000
            && (f.partial <==> f.monotonicEnd < f.monotonicStart + 20_000)
            && (f.partial <==> !f.complete) && (f.partial <==> f.boundaryReason.Some?)
            && f.sampleMonotonic + f.sampleAge == f.monotonicEnd && f.sampleWall + f.sampleWallAge == f.wallEnd
            && f.sampleSkew == Drift(f.wallEnd, f.monotonicEnd) - Drift(f.sampleWall, f.sampleMonotonic)
            && (f.probeSource == None <==> !f.probeValid)
            && 0.0 <= f.augerOnSeconds <= f.Seconds() && 0.0 <= f.fanOnSeconds <= f.Seconds()
            && 0.0 <= f.fanDutyIntegral <= f.Seconds()
            && Near(f.augerDuty, f.augerOnSeconds / f.Seconds())
            && Near(f.meanFanDuty, f.fanDutyIntegral / f.Seconds())
  {
  }
}
