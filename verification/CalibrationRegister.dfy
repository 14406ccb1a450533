/** The revisioned calibration command: a register that many queued writers set. */
module CalibrationRegister {
  import opened JsonValues
  import opened ClockDomain
  import opened ControlDeltas

  /** The register after a sequence of accepted commands. */
  function Register(start: Json, commands: seq<CalibrationCommand>): Json
    decreases |commands|
  {
    if commands == [] then start else Register(NextCalibration(start, commands[0]), commands[1..])
  }

  /** The command at `i` is the first to arrive with the highest revision of all. */
  ghost predicate FirstHighest(commands: seq<CalibrationCommand>, i: nat) {
    && i < |commands|
    && (forall j | 0 <= j < i :: commands[j].revision < commands[i].revision)
    && (forall j | i < j < |commands| :: commands[j].revision <= commands[i].revision)
  }

  lemma {:induction false} NextOfStored(first: CalibrationCommand, next: CalibrationCommand)
    ensures NextCalibration(EncodeCommand(first), next) ==
            EncodeCommand(if next.revision > first.revision then next else first)
  {
  }

  lemma {:induction false} RegisterFrom(first: CalibrationCommand, rest: seq<CalibrationCommand>) returns (i: nat)
    ensures FirstHighest([first] + rest, i)
    ensures Register(EncodeCommand(first), rest) == EncodeCommand(([first] + rest)[i])
    decreases |rest|
  {
    if rest == [] {
      i := 0;
    } else {
      var all := [first] + rest;
      NextOfStored(first, rest[0]);
      if rest[0].revision > first.revision {
        var k := RegisterFrom(rest[0], rest[1..]);
        assert [rest[0]] + rest[1..] == rest;
        i := k + 1;
        LaterIsHighest(first, rest, k);
      } else {
        var k := RegisterFrom(first, rest[1..]);
        i := if k == 0 then 0 else k + 1;
        EarlierStaysHighest(first, rest, k);
      }
    }
  }

  lemma {:induction false} LaterIsHighest(first: CalibrationCommand, rest: seq<CalibrationCommand>, k: nat)
    requires FirstHighest(rest, k) && first.revision < rest[0].revision
    ensures FirstHighest([first] + rest, k + 1)
  {
    var all := [first] + rest;
    assert rest[0].revision <= rest[k].revision;
    forall j | 0 <= j < |all|
      ensures j < k + 1 ==> all[j].revision < all[k + 1].revision
      ensures k + 1 < j ==> all[j].revision <= all[k + 1].revision
    {
      assert j == 0 || all[j] == rest[j - 1];
    }
  }

  lemma {:induction false} EarlierStaysHighest(first: CalibrationCommand, rest: seq<CalibrationCommand>, k: nat)
    requires rest != [] && FirstHighest([first] + rest[1..], k) && rest[0].revision <= first.revision
    ensures FirstHighest([first] + rest, if k == 0 then 0 else k + 1)
  {
    var short, all, i := [first] + rest[1..], [first] + rest, if k == 0 then 0 else k + 1;
    assert k > 0 ==> short[0].revision < short[k].revision;
    forall j | 0 <= j < |all|
      ensures j < i ==> all[j].revision < all[i].revision
      ensures i < j ==> all[j].revision <= all[i].revision
    {
      assert j < 2 || all[j] == short[j - 1];
    }
  }

  /** From an empty register, any nonempty sequence leaves the first command that arrived with the highest revision. */
  lemma {:induction false} RegisterKeepsFirstHighest(commands: seq<CalibrationCommand>) returns (i: nat)
    requires commands != []
    ensures FirstHighest(commands, i) && Register(Null, commands) == EncodeCommand(commands[i])
  {
    i := RegisterFrom(commands[0], commands[1..]);
    assert [commands[0]] + commands[1..] == commands;
  }

  // ---------------------------------------------------------------- arrival orders

  /** Two different commands of one revision are both outranked by another command. */
  ghost predicate TiesOutranked(commands: seq<CalibrationCommand>) {
    forall i, j | 0 <= i < j < |commands| ::
      commands[i].revision == commands[j].revision && commands[i] != commands[j] ==> Outranked(commands, commands[i])
  }

  ghost predicate Outranked(commands: seq<CalibrationCommand>, x: CalibrationCommand) {
    exists k | 0 <= k < |commands| :: commands[k].revision > x.revision
  }

  lemma {:induction false} EncodingsDiffer(x: CalibrationCommand, y: CalibrationCommand)
    ensures EncodeCommand(x) == EncodeCommand(y) <==> x == y
  {
    if EncodeCommand(x) == EncodeCommand(y) {
      var m, n := EncodeCommand(x).members, EncodeCommand(y).members;
      assert m["action"] == n["action"] && m["revision"] == n["revision"];
      assert m["ambient_c"] == n["ambient_c"] && m["ambient_source"] == n["ambient_source"];
    }
  }

  /** One arrival order of the commands, with the one at `i` first. */
  function Leading(commands: seq<CalibrationCommand>, i: nat): (order: seq<CalibrationCommand>)
    requires i < |commands|
    ensures multiset(order) == multiset(commands)
  {
    assert commands == commands[..i] + [commands[i]] + commands[i + 1..];
    [commands[i]] + commands[..i] + commands[i + 1..]
  }

  /** Of commands that none outranks, the one that arrives first stays. */
  lemma {:induction false} LeaderStays(commands: seq<CalibrationCommand>, i: nat)
    requires i < |commands| && !Outranked(commands, commands[i])
    ensures Register(Null, Leading(commands, i)) == EncodeCommand(commands[i])
  {
    var order := Leading(commands, i);
    var k := RegisterKeepsFirstHighest(order);
    assert order[k] in multiset(commands);
    var l :| 0 <= l < |commands| && commands[l] == order[k];
    assert k == 0;
  }

  lemma {:induction false} SameWinner(a: seq<CalibrationCommand>, b: seq<CalibrationCommand>)
    requires multiset(a) == multiset(b) && TiesOutranked(a)
    ensures Register(Null, a) == Register(Null, b)
  {
    assert |a| == |multiset(a)| == |multiset(b)| == |b|;
    if a != [] {
      var i := RegisterKeepsFirstHighest(a);
      var j := RegisterKeepsFirstHighest(b);
      assert a[i] in multiset(b) && b[j] in multiset(a);
      var k :| 0 <= k < |a| && a[k] == b[j];
      var l :| 0 <= l < |b| && b[l] == a[i];
      assert a[k].revision <= a[i].revision && b[l].revision <= b[j].revision;
      if k != i {
        assert !Outranked(a, a[i]);
        assert !Outranked(a, a[k]);
      }
    }
  }

  /**
   All arrival orders of the same commands leave one register exactly when any two
   different commands of equal revision are outranked by another command.
   */
  lemma {:induction false} ArrivalOrderHidden(a: seq<CalibrationCommand>)
    ensures (forall b | multiset(b) == multiset(a) :: Register(Null, b) == Register(Null, a)) <==> TiesOutranked(a)
  {
    if TiesOutranked(a) {
      forall b | multiset(b) == multiset(a) ensures Register(Null, b) == Register(Null, a) {
        SameWinner(a, b);
      }
    } else {
      var i, j :| 0 <= i < j < |a| && a[i].revision == a[j].revision && a[i] != a[j] && !Outranked(a, a[i]);
      assert !Outranked(a, a[j]);
      LeaderStays(a, i);
      LeaderStays(a, j);
      EncodingsDiffer(a[i], a[j]);
      assert Register(Null, Leading(a, i)) != Register(Null, Leading(a, j));
    }
  }

  /** For instance two different commands of one revision: the earlier stays. */
  lemma {:induction false} RepeatedRevisionShowsOrder(x: CalibrationCommand, y: CalibrationCommand)
    requires x.revision == y.revision && x != y
    ensures Register(Null, [x, y]) == EncodeCommand(x) && Register(Null, [y, x]) == EncodeCommand(y)
    ensures EncodeCommand(x) != EncodeCommand(y)
  {
    var i := RegisterKeepsFirstHighest([x, y]);
    var j := RegisterKeepsFirstHighest([y, x]);
    EncodingsDiffer(x, y);
  }

  /** A run of calibration operations is always accepted, and leaves the register under its member. */
  lemma {:induction false} OperationsFillRegister(
    c: Dict, commands: seq<CalibrationCommand>, now: ClockStamp, ids: nat -> Uuid)
    ensures var ops := seq(|commands|, i requires 0 <= i < |commands| => CalibrationSet(commands[i]));
            var outcome := RunPrims(Performs(ops, ids), c, now);
            && outcome.Done?
            && Get(outcome.control, "mpc_calibration") == Register(Get(c, "mpc_calibration"), commands)
            && forall k | k != "mpc_calibration" ::
                 (k in outcome.control <==> k in c) && (k in c ==> outcome.control[k] == c[k])
    decreases |commands|
  {
    var ops := seq(|commands|, i requires 0 <= i < |commands| => CalibrationSet(commands[i]));
    var prims := Performs(ops, ids);
    if commands != [] {
      var next := ApplyOp(c, ops[0], now, ids(0)).control;
      assert prims[0] == PerformOp(ops[0], ids(0));
      var shifted := (n: nat) => ids(n + 1);
      OperationsFillRegister(next, commands[1..], now, shifted);
      assert ops[1..] == seq(|commands[1..]|, i requires 0 <= i < |commands[1..]| => CalibrationSet(commands[1..][i]));
      assert prims[1..] == Performs(ops[1..], shifted);
    }
  }
}
