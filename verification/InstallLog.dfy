/**
 Incremental reading of an installer's transcript: a polling client holds a
 buffer and a byte offset, and is told to append or to start over.
 */
module InstallLog {
  import opened Wrappers

  newtype byte = x: int | 0 <= x < 256

  type Bytes = seq<byte>

  const NEWLINE: byte := 10
  const MAX_BYTES: int := 256 * 1024

  /** A run marker: some text within one line. */
  ghost predicate IsMarker(m: Bytes) {
    m != [] && NEWLINE !in m
  }

  predicate OccursAt(data: Bytes, m: Bytes, i: int) {
    0 <= i <= |data| - |m| && data[i..i + |m|] == m
  }

  /** `data.rfind(m)`: the last occurrence, or -1. */
  function RFind(data: Bytes, m: Bytes): (i: int)
    requires m != []
    ensures -1 <= i && (i >= 0 ==> OccursAt(data, m, i))
    ensures forall j | i < j :: !OccursAt(data, m, j)
  {
    RFindUpTo(data, m, |data| - |m|)
  }

  function RFindUpTo(data: Bytes, m: Bytes, last: int): (i: int)
    requires m != [] && last <= |data| - |m|
    ensures -1 <= i && (i >= 0 ==> OccursAt(data, m, i))
    ensures forall j | i < j <= last :: !OccursAt(data, m, j)
    decreases last + 1
  {
    if last < 0 then -1 else if OccursAt(data, m, last) then last else RFindUpTo(data, m, last - 1)
  }

  /** The last newline before `end`, or -1. */
  function NewlineBefore(data: Bytes, end: nat): (i: int)
    requires end <= |data|
    ensures -1 <= i < end && (i >= 0 ==> data[i] == NEWLINE)
    ensures forall j | i < j < end :: data[j] != NEWLINE
  {
    if end == 0 then -1 else if data[end - 1] == NEWLINE then end - 1 else NewlineBefore(data, end - 1)
  }

  /** The first newline at or after `begin`, or the length. */
  function NewlineFrom(data: Bytes, begin: nat): (i: nat)
    requires begin <= |data|
    ensures begin <= i <= |data| && (i < |data| ==> data[i] == NEWLINE)
    ensures forall j | begin <= j < i :: data[j] != NEWLINE
    decreases |data| - begin
  {
    if begin == |data| || data[begin] == NEWLINE then begin else NewlineFrom(data, begin + 1)
  }

  /** `_run_start`: the beginning of the line that holds the last marker; without one, the whole file. */
  function RunStart(data: Bytes, m: Bytes): (start: nat)
    requires m != []
    ensures start <= |data|
  {
    var marker := RFind(data, m);
    if marker < 0 then 0 else NewlineBefore(data, marker) + 1
  }

  /** The marker occurs at `i`, and nowhere behind it. */
  ghost predicate LastAt(data: Bytes, m: Bytes, i: int) {
    OccursAt(data, m, i) && forall j | i < j :: !OccursAt(data, m, j)
  }

  /** The run starts at the beginning of the line that holds the last marker, or without one at that of the file. */
  lemma {:induction false} RunStartMeaning(data: Bytes, m: Bytes)
    requires m != []
    ensures var start := RunStart(data, m);
            && (start == 0 || data[start - 1] == NEWLINE)
            && ((forall i :: !OccursAt(data, m, i)) ==> start == 0)
            && (forall i | LastAt(data, m, i) :: start <= i && NEWLINE !in data[start..i])
  {
    var marker := RFind(data, m);
    if marker >= 0 {
      assert LastAt(data, m, marker);
      forall i | LastAt(data, m, i) ensures i == marker {
      }
    }
  }

  datatype Reply = Reply(chunk: Bytes, next: nat, reset: bool)

  /** Where this read would begin if there were no cap, and whether the client must start over. */
  function Resume(data: Bytes, offset: nat, m: Bytes): (int, bool)
    requires m != []
  {
    var start := RunStart(data, m);
    if offset <= start || offset > |data| then (start, true) else (offset, false)
  }

  /** `read_install_log`; `None` is a file that cannot be opened. */
  function ReadInstallLog(file: Option<Bytes>, offset: nat, m: Bytes): Reply
    requires m != []
  {
    if file.None? then Reply([], 0, offset != 0)
    else
      var data := file.value;
      var (begin, reset) := Resume(data, offset, m);
      if |data| - begin > MAX_BYTES then
        var newline := NewlineFrom(data, |data| - MAX_BYTES);
        Reply(data[if newline == |data| then |data| else newline + 1..], |data|, true)
      else Reply(data[begin..], |data|, reset)
  }

  // ---------------------------------------------------------------- the client

  datatype Client = Client(buffer: Bytes, offset: nat)

  const NEW_CLIENT := Client([], 0)

  function Poll(c: Client, file: Option<Bytes>, m: Bytes): Client
    requires m != []
  {
    var reply := ReadInstallLog(file, c.offset, m);
    Client(if reply.reset then reply.chunk else c.buffer + reply.chunk, reply.next)
  }

  predicate WholeLines(data: Bytes) {
    data == [] || data[|data| - 1] == NEWLINE
  }

  predicate LineAligned(data: Bytes, b: nat) {
    b <= |data| && (b == 0 || data[b - 1] == NEWLINE)
  }

  /** The client holds the lines of the current run from `b` to the end of the file. */
  ghost predicate SyncedFrom(c: Client, data: Bytes, m: Bytes, b: nat)
    requires m != []
  {
    RunStart(data, m) <= b <= |data| && LineAligned(data, b) && c == Client(data[b..], |data|)
  }

  /** The unread part of the file at a poll fits the cap. */
  predicate Fits(c: Client, data: Bytes, m: Bytes)
    requires m != []
  {
    |data| - Resume(data, c.offset, m).0 <= MAX_BYTES
  }

  // ---------------------------------------------------------------- growth

  lemma {:induction false} RunStartAligned(data: Bytes, m: Bytes)
    requires m != []
    ensures LineAligned(data, RunStart(data, m))
  {
  }

  /** A marker never straddles the end of a file of whole lines. */
  lemma {:induction false} MarkerDoesNotStraddle(seen: Bytes, data: Bytes, m: Bytes, i: nat)
    requires IsMarker(m) && WholeLines(seen) && seen <= data && OccursAt(data, m, i)
    ensures i + |m| <= |seen| || |seen| <= i
  {
    assert seen != [] ==> data[|seen| - 1] == NEWLINE;
    MarkerWithinLine(data, m, i);
  }

  lemma {:induction false} MarkerWithinLine(data: Bytes, m: Bytes, i: nat)
    requires IsMarker(m) && OccursAt(data, m, i)
    ensures forall k | i <= k < i + |m| :: data[k] != NEWLINE
  {
    forall k | i <= k < i + |m| ensures data[k] != NEWLINE {
      assert data[k] == data[i..i + |m|][k - i] == m[k - i];
    }
  }

  /** When the file grows, either the run begins in the new part, or it is the run it was. */
  lemma {:induction false} RunStartGrows(seen: Bytes, data: Bytes, m: Bytes)
    requires IsMarker(m) && WholeLines(seen) && seen <= data
    ensures RunStart(data, m) >= |seen| || RunStart(data, m) == RunStart(seen, m)
  {
    var i, j := RFind(data, m), RFind(seen, m);
    forall k | 0 <= k <= |seen| - |m| ensures OccursAt(seen, m, k) <==> OccursAt(data, m, k) {
      assert seen[k..k + |m|] == data[k..k + |m|];
    }
    if i >= 0 {
      MarkerDoesNotStraddle(seen, data, m, i);
      if i >= |seen| {
        if seen != [] {
          assert data[|seen| - 1] == NEWLINE;
        }
      } else {
        assert i == j;
        SamePrefixNewline(seen, data, i);
      }
    } else {
      assert j < 0;
    }
  }

  lemma {:induction false} SamePrefixNewline(seen: Bytes, data: Bytes, end: nat)
    requires seen <= data && end <= |seen|
    ensures NewlineBefore(seen, end) == NewlineBefore(data, end)
    decreases end
  {
    if end > 0 {
      SamePrefixNewline(seen, data, end - 1);
    }
  }

  /** A read that starts over leaves the client synced with the file, whatever it held before. */
  lemma {:induction false} StartingOverSyncs(c: Client, data: Bytes, m: Bytes) returns (b: nat)
    requires m != [] && WholeLines(data) && ReadInstallLog(Some(data), c.offset, m).reset
    ensures SyncedFrom(Poll(c, Some(data), m), data, m, b)
    ensures Fits(c, data, m) ==> b == RunStart(data, m)
  {
    var (begin, reset) := Resume(data, c.offset, m);
    RunStartAligned(data, m);
    if |data| - begin > MAX_BYTES {
      var newline := NewlineFrom(data, |data| - MAX_BYTES);
      assert newline < |data|;
      b := newline + 1;
    } else {
      b := begin;
    }
  }

  /**
   One poll of a file that grew by whole lines keeps the client synced, and keeps it
   whole if the unread part fits.
   */
  lemma {:induction false} PollKeepsSync(c: Client, seen: Bytes, data: Bytes, m: Bytes, b: nat) returns (b': nat)
    requires IsMarker(m) && WholeLines(seen) && WholeLines(data) && seen <= data && SyncedFrom(c, seen, m, b)
    ensures SyncedFrom(Poll(c, Some(data), m), data, m, b')
    ensures Fits(c, data, m) && b == RunStart(seen, m) ==> b' == RunStart(data, m)
  {
    var reply := ReadInstallLog(Some(data), c.offset, m);
    if reply.reset {
      b' := StartingOverSyncs(c, data, m);
    } else {
      RunStartGrows(seen, data, m);
      b' := b;
      assert seen[b..] + data[|seen|..] == data[b..];
    }
  }

  ghost predicate Growing(file: Bytes, later: seq<Bytes>)
    decreases |later|
  {
    WholeLines(file) && (later != [] ==> file <= later[0] && Growing(later[0], later[1..]))
  }

  function PollAll(c: Client, files: seq<Bytes>, m: Bytes): Client
    requires m != []
    decreases |files|
  {
    if files == [] then c else PollAll(Poll(c, Some(files[0]), m), files[1..], m)
  }

  predicate AllFit(c: Client, files: seq<Bytes>, m: Bytes)
    requires m != []
    decreases |files|
  {
    files == [] || (Fits(c, files[0], m) && AllFit(Poll(c, Some(files[0]), m), files[1..], m))
  }

  function Last(file: Bytes, later: seq<Bytes>): Bytes {
    if later == [] then file else later[|later| - 1]
  }

  /** A client synced with a file, and whether it holds the whole current run. */
  ghost predicate Follows(c: Client, data: Bytes, m: Bytes, whole: bool)
    requires m != []
  {
    exists b :: SyncedFrom(c, data, m, b) && (whole ==> b == RunStart(data, m))
  }

  lemma {:induction false} PollFollows(c: Client, seen: Bytes, data: Bytes, m: Bytes, whole: bool)
    requires IsMarker(m) && WholeLines(seen) && WholeLines(data) && seen <= data && Follows(c, seen, m, whole)
    ensures Follows(Poll(c, Some(data), m), data, m, whole && Fits(c, data, m))
  {
    var b :| SyncedFrom(c, seen, m, b) && (whole ==> b == RunStart(seen, m));
    var b' := PollKeepsSync(c, seen, data, m, b);
  }

  lemma {:induction false} PollOne(c: Client, file: Bytes, later: seq<Bytes>, m: Bytes)
    requires m != [] && later != []
    ensures var next := Poll(c, Some(later[0]), m);
            && PollAll(c, later, m) == PollAll(next, later[1..], m)
            && AllFit(c, later, m) == (Fits(c, later[0], m) && AllFit(next, later[1..], m))
    ensures Last(file, later) == Last(later[0], later[1..])
  {
  }

  lemma {:induction false} PollsFollow(c: Client, file: Bytes, later: seq<Bytes>, m: Bytes, whole: bool)
    requires IsMarker(m) && Growing(file, later) && Follows(c, file, m, whole)
    ensures Follows(PollAll(c, later, m), Last(file, later), m, whole && AllFit(c, later, m))
    decreases |later|
  {
    if later != [] {
      var next := Poll(c, Some(later[0]), m);
      PollFollows(c, file, later[0], m, whole);
      PollsFollow(next, later[0], later[1..], m, whole && Fits(c, later[0], m));
      PollOne(c, file, later, m);
    }
  }

  /** From `b` on there is no line before the one that holds the last marker. */
  ghost predicate NothingOlder(data: Bytes, m: Bytes, b: nat)
    requires b <= |data|
  {
    forall i | OccursAt(data, m, i) :: i < b || NEWLINE !in data[b..i]
  }

  lemma {:induction false} NothingBeforeTheRun(data: Bytes, m: Bytes, b: nat)
    requires m != [] && RunStart(data, m) <= b <= |data|
    ensures NothingOlder(data, m, b)
  {
    var last, start := RFind(data, m), RunStart(data, m);
    RunStartMeaning(data, m);
    forall i | OccursAt(data, m, i) && b <= i ensures NEWLINE !in data[b..i] {
      assert LastAt(data, m, last);
      NoNewlineWithin(data, start, last, b, i);
    }
  }

  lemma {:induction false} NoNewlineWithin(data: Bytes, start: int, last: int, b: int, i: int)
    requires 0 <= start <= b <= i <= last <= |data| && NEWLINE !in data[start..last]
    ensures NEWLINE !in data[b..i]
  {
    forall k | b <= k < i ensures data[k] != NEWLINE {
      assert data[k] == data[start..last][k - start];
    }
  }

  /**
   Any sequence of polls of a file that only grows by whole lines, new runs
   included, leaves a client with lines of the current run up to the end of the
   file, never with a splice of two runs; and with the whole run if the unread
   part always fitted the cap.
   */
  lemma {:induction false} ClientFollowsTheRun(files: seq<Bytes>, m: Bytes) returns (b: nat)
    requires IsMarker(m) && Growing([], files)
    ensures var data := Last([], files);
            && SyncedFrom(PollAll(NEW_CLIENT, files, m), data, m, b)
            && (AllFit(NEW_CLIENT, files, m) ==> b == RunStart(data, m))
            && NothingOlder(data, m, b)
  {
    assert SyncedFrom(NEW_CLIENT, [], m, 0);
    PollsFollow(NEW_CLIENT, [], files, m, true);
    var data, whole := Last([], files), AllFit(NEW_CLIENT, files, m);
    b :| SyncedFrom(PollAll(NEW_CLIENT, files, m), data, m, b) && (whole ==> b == RunStart(data, m));
    NothingBeforeTheRun(data, m, b);
  }

  /** A file that disappears leaves the client empty and ready for a new one. */
  lemma {:induction false} MissingFileStartsOver(c: Client, seen: Bytes, m: Bytes, b: nat)
    requires m != [] && SyncedFrom(c, seen, m, b)
    ensures Poll(c, None, m) == NEW_CLIENT && SyncedFrom(NEW_CLIENT, [], m, 0)
  {
  }

  // ---------------------------------------------------------------- rotation

  /**
   When a read starts over: nothing of this run was read yet, the file is shorter
   than what was read, or too much is unread.
   */
  lemma {:induction false} ResetExactly(data: Bytes, offset: nat, m: Bytes)
    requires m != []
    ensures ReadInstallLog(Some(data), offset, m).reset <==>
            offset <= RunStart(data, m) || offset > |data| || |data| - offset > MAX_BYTES
  {
  }

  /**
   What a read sends. Without a file nothing, and the client starts over if it held
   anything. Otherwise the file from the run's start, or from the offset when the
   client holds part of this run; or, if that is more than the cap, the lines that
   begin in the last `MAX_BYTES`, except for one that begins with them.
   */
  lemma {:induction false} ReadExactly(file: Option<Bytes>, offset: nat, m: Bytes) returns (b: nat)
    requires m != []
    ensures file.None? ==> ReadInstallLog(file, offset, m) == Reply([], 0, offset > 0)
    ensures file.Some? ==>
              var data, start := file.value, RunStart(file.value, m);
              var begin := if start < offset <= |data| then offset else start;
              && b <= |data|
              && ReadInstallLog(file, offset, m) ==
                 Reply(data[b..], |data|, |data| - begin > 262_144 || !(start < offset <= |data|))
              && if |data| - begin <= 262_144 then b == begin else FirstLineAfter(data, |data| - 262_144, b)
  {
    if file.Some? {
      var data := file.value;
      var begin := Resume(data, offset, m).0;
      if |data| - begin > MAX_BYTES {
        var newline := NewlineFrom(data, |data| - MAX_BYTES);
        b := if newline == |data| then |data| else newline + 1;
      } else {
        b := begin;
      }
    } else {
      b := 0;
    }
  }

  /** After `from` the first line begins at `b`; the end of the data when none does. */
  ghost predicate FirstLineAfter(data: Bytes, from: int, b: nat) {
    && 0 <= from < b <= |data| && (b == |data| || data[b - 1] == NEWLINE)
    && forall k | from <= k < b - 1 :: data[k] != NEWLINE
  }

  /** A client that some file of whole lines left at `offset`. */
  ghost predicate Holds(c: Client, seen: Bytes, m: Bytes, b: nat, offset: nat)
    requires m != []
  {
    WholeLines(seen) && SyncedFrom(c, seen, m, b) && c.offset == offset
  }

  ghost predicate Synced(c: Client, data: Bytes, m: Bytes)
    requires m != []
  {
    exists b :: SyncedFrom(c, data, m, b)
  }

  /** Whatever was seen before, a client at `offset` is in step with the file after this poll. */
  ghost predicate AlwaysInStep(offset: nat, data: Bytes, m: Bytes)
    requires m != []
  {
    forall c, seen, b: nat | Holds(c, seen, m, b, offset) :: Synced(Poll(c, Some(data), m), data, m)
  }

  /** A file of whole lines, other than the new one's beginning, that leaves its client at `offset`. */
  function OtherFile(data: Bytes, offset: nat): (seen: Bytes)
    requires 1 < offset <= |data| || (offset == 1 && data != [] && data[0] != NEWLINE)
    ensures |seen| == offset && WholeLines(seen) && seen != data[..offset]
    ensures forall k | 0 < k < offset :: seen[k] == NEWLINE
  {
    var first: byte := if data[0] == NEWLINE then 0 else NEWLINE;
    seq(offset, k requires 0 <= k < offset => if k == 0 then first else NEWLINE)
  }

  lemma {:induction false} BlankTailRuns(seen: Bytes, m: Bytes)
    requires IsMarker(m) && forall k | 0 < k < |seen| :: seen[k] == NEWLINE
    ensures RunStart(seen, m) == 0
  {
    var i := RFind(seen, m);
    if i >= 0 {
      MarkerWithinLine(seen, m, i);
      assert seen[i] != NEWLINE;
    }
  }

  lemma {:induction false} Overlooked(offset: nat, data: Bytes, m: Bytes)
    requires IsMarker(m) && !ReadInstallLog(Some(data), offset, m).reset
    requires offset != 1 || data[0] != NEWLINE
    ensures !AlwaysInStep(offset, data, m)
  {
    ResetExactly(data, offset, m);
    var seen := OtherFile(data, offset);
    BlankTailRuns(seen, m);
    var c := Client(seen, offset);
    assert seen[0..] == seen;
    assert Holds(c, seen, m, 0, offset);
    var after := Poll(c, Some(data), m);
    assert after.buffer == seen + data[offset..];
    forall b: nat | b <= |data| ensures after.buffer != data[b..] {
      if b == 0 {
        assert data[0..][..offset] == data[..offset] != seen == after.buffer[..offset];
      } else {
        assert |data[b..]| < |after.buffer|;
      }
    }
  }

  /** A single newline is all that a client at offset one can have seen. */
  lemma {:induction false} OneNewline(data: Bytes, m: Bytes)
    requires IsMarker(m) && !ReadInstallLog(Some(data), 1, m).reset && data[0] == NEWLINE
    ensures AlwaysInStep(1, data, m)
  {
    forall c, seen, b: nat | Holds(c, seen, m, b, 1) ensures Synced(Poll(c, Some(data), m), data, m) {
      OneNewlineSeen(c, seen, data, m, b);
    }
  }

  lemma {:induction false} OneNewlineSeen(c: Client, seen: Bytes, data: Bytes, m: Bytes, b: nat)
    requires IsMarker(m) && !ReadInstallLog(Some(data), 1, m).reset && data[0] == NEWLINE
    requires Holds(c, seen, m, b, 1)
    ensures SyncedFrom(Poll(c, Some(data), m), data, m, b)
  {
    ResetExactly(data, 1, m);
    assert |seen| == 1 && seen[0] == NEWLINE;
    assert RunStart(data, m) == 0 && LineAligned(data, b);
    assert c.buffer == (if b == 0 then [NEWLINE] else []);
    assert data == [NEWLINE] + data[1..];
    assert Poll(c, Some(data), m) == Client(c.buffer + data[1..], |data|);
    assert c.buffer + data[1..] == data[b..];
  }

  /**
   Another file in place of the one that was read: the poll brings every client that
   could hold this offset back in step exactly when the read starts over. The one
   exception is an offset of one, when both files begin with an empty line.
   */
  lemma {:induction false} RotationSeen(offset: nat, data: Bytes, m: Bytes)
    requires IsMarker(m) && WholeLines(data)
    ensures AlwaysInStep(offset, data, m) <==>
            ReadInstallLog(Some(data), offset, m).reset || (offset == 1 && data[0] == NEWLINE)
  {
    ResetExactly(data, offset, m);
    if ReadInstallLog(Some(data), offset, m).reset {
      forall c, seen, b: nat | Holds(c, seen, m, b, offset) ensures Synced(Poll(c, Some(data), m), data, m) {
        var b' := StartingOverSyncs(c, data, m);
      }
    } else if offset == 1 && data[0] == NEWLINE {
      OneNewline(data, m);
    } else {
      Overlooked(offset, data, m);
    }
  }

  /** So a rotated file that has grown past the cursor is spliced onto the seen run without notice. */
  lemma {:induction false} RegrownFileIsSpliced(m: Bytes, x: byte, y: byte)
    requires IsMarker(m) && x != y && x != NEWLINE && y != NEWLINE
    ensures var seen, data := m + [x, NEWLINE], m + [y, NEWLINE];
            var c := Poll(NEW_CLIENT, Some(seen), m);
            |m| + 2 <= MAX_BYTES ==>
              !ReadInstallLog(Some(data), c.offset, m).reset && Poll(c, Some(data), m).buffer == seen
  {
    var seen, data := m + [x, NEWLINE], m + [y, NEWLINE];
    FirstLineRuns(seen, m);
    FirstLineRuns(data, m);
    if |m| + 2 <= MAX_BYTES {
      assert Poll(NEW_CLIENT, Some(seen), m) == Client(seen[0..], |seen|);
      assert seen[0..] + data[|data|..] == seen;
    }
  }

  /** In a file of one line the run begins at the start. */
  lemma {:induction false} FirstLineRuns(data: Bytes, m: Bytes)
    requires m != [] && |data| > 0 && NEWLINE !in data[..|data| - 1]
    ensures RunStart(data, m) == 0
  {
    assert forall k | 0 <= k < |data| - 1 :: data[k] == data[..|data| - 1][k];
  }
}
