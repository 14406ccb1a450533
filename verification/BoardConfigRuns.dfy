/**
 Whole runs of an overlay write on a file: the line is appended once, found again
 by the next run, and left alone from the third run on.
 */
module BoardConfigRuns {
  import opened Texts
  import opened Wrappers
  import opened BoardConfig
  import opened BoardConfigWrite
  import opened BoardConfigSettles

  // ---------------------------------------------------------------- lines of a file

  ghost predicate Whole(line: string) {
    line != "" && line[|line| - 1] == '\n' && '\n' !in line[..|line| - 1]
  }

  lemma {:induction false} ReadWhole(line: string, text: string)
    requires Whole(line)
    ensures ReadLines(line + text) == [line] + ReadLines(text)
  {
    var all := line + text;
    if |line| == 1 {
      assert all[1..] == text && line == "\n";
    } else {
      assert line[..|line| - 1][0] == line[0];
      assert line[1..][..|line| - 2] == line[..|line| - 1][1..];
      assert all[1..] == line[1..] + text;
      ReadWhole(line[1..], text);
      var rest := ReadLines(all[1..]);
      assert rest[1..] == ReadLines(text) && [line[0]] + line[1..] == line;
    }
  }

  ghost predicate AllWhole(lines: seq<string>) {
    forall i | 0 <= i < |lines| :: Whole(lines[i])
  }

  lemma {:induction false} ReadConcat(lines: seq<string>)
    requires AllWhole(lines)
    ensures ReadLines(Concat(lines)) == lines
  {
    if lines != [] {
      ReadConcat(lines[1..]);
      ReadWhole(lines[0], Concat(lines[1..]));
    }
  }

  lemma {:induction false} LinesAreWhole(text: string)
    requires text == "" || text[|text| - 1] == '\n'
    ensures AllWhole(ReadLines(text))
  {
    if text != "" {
      LinesAreWhole(text[1..]);
      var rest := ReadLines(text[1..]);
      if text[0] != '\n' {
        assert rest != [];
        var line := [text[0]] + rest[0];
        assert line[..|line| - 1] == [text[0]] + rest[0][..|rest[0]| - 1];
      }
    }
  }

  lemma {:induction false} KeptIsWhole(r: Request, lines: seq<string>)
    requires AllWhole(lines)
    ensures AllWhole(Kept(r, lines))
  {
    if lines != [] {
      KeptIsWhole(r, lines[1..]);
    }
  }

  lemma {:induction false} KeptAgain(r: Request, lines: seq<string>)
    ensures Kept(r, Kept(r, lines)) == Kept(r, lines)
  {
    if lines != [] {
      KeptAgain(r, lines[1..]);
      var rest := Kept(r, lines[1..]);
      if Superseded(r, lines[0]) {
        assert Kept(r, lines) == rest;
      } else {
        assert ([lines[0]] + rest)[1..] == rest;
      }
    }
  }

  lemma {:induction false} FirstMatchLast(r: Request, lines: seq<string>, line: string)
    requires FirstMatch(r, lines) == |lines| && Matches(r, line)
    ensures FirstMatch(r, lines + [line]) == |lines|
  {
    var all := lines + [line];
    assert forall i | 0 <= i < |lines| :: all[i] == lines[i];
    assert Matches(r, all[|lines|]);
  }

  /** A run over a file whose last line is the only match rewrites that line. */
  lemma {:induction false} LastLineIsRewritten(r: Request, kept: seq<string>, line: string)
    requires AllWhole(kept) && Kept(r, kept) == kept && FirstMatch(r, kept) == |kept|
    requires Whole(line) && Matches(r, line) && !Superseded(r, line) && EditLine(r, line).Some?
    ensures Rewritten(r, Concat(kept + [line])) == Concat(kept + [EditLine(r, line).value])
  {
    var lines := kept + [line];
    ReadConcat(lines);
    KeptEndWith(r, kept, line);
    FirstMatchLast(r, kept, line);
    assert lines[|kept| := EditLine(r, line).value] == kept + [EditLine(r, line).value];
  }

  // ---------------------------------------------------------------- an overlay line

  function OverlayLine(feature: string, ps: seq<Param>): string {
    Printed("dtoverlay", [Entry(feature, Feature(ps))])
  }

  lemma {:induction false} CommentEnds()
    ensures |COMMENT| > 0 && COMMENT[|COMMENT| - 1] == '\n' && '\n' !in COMMENT[..|COMMENT| - 1]
  {
    var words := BLANKS + "#" + (" Modified" + " by PiFire" + " Board" + " Configuration");
    assert COMMENT == words + " Utility\n";
    assert '\n' !in words;
    assert COMMENT[..|COMMENT| - 1] == words + " Utility";
  }

  lemma {:induction false} OptionsPlain(ps: seq<Param>)
    requires PlainParams(ps)
    ensures '\n' !in OptionsText(ps)
  {
    if ps != [] {
      var n := |ps| - 1;
      KeysAt(ps);
      KeysAt(ps[..n]);
      assert Keys(ps[..n]) == Keys(ps)[..n];
      OptionsPlain(ps[..n]);
      assert PlainParam(ps[n]);
    }
  }

  /** How an overlay line is made up. */
  lemma {:induction false} LineShape(feature: string, ps: seq<Param>)
    requires ps != []
    ensures var rest := OptionsText(ps) + COMMENT;
            && OverlayLine(feature, ps) == "dtoverlay=" + feature + rest
            && rest[0] == ','
  {
    var e := Entry(feature, Feature(ps));
    ItemsOfOne(e);
    JoinEntry(e);
    assert "dtoverlay" + "=" == "dtoverlay=";
    OptionsBegin(ps);
  }

  lemma {:induction false} OptionsBegin(ps: seq<Param>)
    requires ps != []
    ensures OptionsText(ps) != "" && OptionsText(ps)[0] == ','
  {
    if |ps| > 1 {
      OptionsBegin(ps[..|ps| - 1]);
    } else {
      assert ps[..|ps| - 1] == [];
    }
  }

  lemma {:induction false} NoNewline(a: string, b: string)
    requires '\n' !in a && '\n' !in b
    ensures '\n' !in a + b
  {
  }

  lemma {:induction false} Regroup(a: string, b: string, c: string)
    ensures a + b + c == a + (b + c)
  {
  }

  lemma {:induction false} HeadIsOneLine(feature: string, ps: seq<Param>)
    requires PlainParams(ps) && Plain(feature)
    ensures '\n' !in "dtoverlay=" + feature + OptionsText(ps)
  {
    assert '\n' !in "dtoverlay=";
    NoNewline("dtoverlay=", feature);
    OptionsPlain(ps);
    NoNewline("dtoverlay=" + feature, OptionsText(ps));
  }

  lemma {:induction false} LineIsWhole(feature: string, ps: seq<Param>)
    requires ps != [] && PlainParams(ps) && Plain(feature)
    ensures Whole(OverlayLine(feature, ps))
  {
    var head := "dtoverlay=" + feature + OptionsText(ps);
    LineShape(feature, ps);
    HeadIsOneLine(feature, ps);
    CommentedIsWhole(head);
    Regroup("dtoverlay=" + feature, OptionsText(ps), COMMENT);
  }

  lemma {:induction false} CommentedIsWhole(head: string)
    requires '\n' !in head
    ensures Whole(head + COMMENT)
  {
    CommentEnds();
    var line := head + COMMENT;
    assert line[..|line| - 1] == head + COMMENT[..|COMMENT| - 1];
  }

  lemma {:induction false} LineIsFound(r: Request, ps: seq<Param>)
    requires ps != [] && r.configType == "dtoverlay"
    ensures var line := OverlayLine(r.feature, ps);
            Matches(r, line) && !Superseded(r, line) && RemoveHashtag(line) == line
  {
    LineShape(r.feature, ps);
    OverlayTextIsFound(r, OptionsText(ps) + COMMENT);
  }

  lemma {:induction false} OverlayTextIsFound(r: Request, rest: string)
    requires r.configType == "dtoverlay"
    ensures var line := "dtoverlay=" + r.feature + rest;
            Matches(r, line) && !Superseded(r, line) && RemoveHashtag(line) == line
  {
    var line, n := "dtoverlay=" + r.feature + rest, |r.feature|;
    assert line[0..9] == "dtoverlay" && OccursAt(line, "dtoverlay", 0);
    assert line[10..10 + n] == r.feature && OccursAt(line, r.feature, 10);
    assert line[0] == 'd' && StripLeft(line) == line;
    if r.feature == "pwm-2chan" {
      assert line[13] == r.feature[3] == '-';
      assert "dtoverlay=pwm,"[13] == ',';
    }
  }

  lemma {:induction false} PlainIsClean(ps: seq<Param>)
    requires PlainParams(ps)
    ensures CleanParams(ps)
    ensures forall i | 0 <= i < |ps| :: !EndsWith(ps[i].key, "dtoverlay")
  {
    KeysAt(ps);
    assert forall i | 0 <= i < |ps| :: PlainParam(ps[i]);
  }

  /** Rewriting a line of an overlay edits its options and nothing else. */
  lemma {:induction false} LineIsEdited(r: Request, ps: seq<Param>)
    requires Overlay(r) && ps != [] && PlainParams(ps)
    ensures EditLine(r, OverlayLine(r.feature, ps)) == Some(OverlayLine(r.feature, Again(r, ps)))
  {
    LineIsFound(r, ps);
    LineIsParsed(r.feature, ps);
    EditFollowsParse(r, OverlayLine(r.feature, ps), ps);
  }

  /** How a line is edited that parses to one overlay. */
  lemma {:induction false} EditFollowsParse(r: Request, line: string, ps: seq<Param>)
    requires Overlay(r) && ps != [] && RemoveHashtag(line) == line
    requires Parsed(Without(line, "dtoverlay=")) == [Entry(r.feature, Feature(BlankedParams(ps)))]
    ensures EditLine(r, line) == Some(OverlayLine(r.feature, Again(r, ps)))
  {
    PutOnly(r.feature, Feature(BlankedParams(ps)), Feature(Again(r, ps)));
    assert r.configType + "=" == "dtoverlay=";
  }

  lemma {:induction false} LineIsParsed(feature: string, ps: seq<Param>)
    requires Plain(feature) && ps != [] && PlainParams(ps)
    ensures Parsed(Without(OverlayLine(feature, ps), "dtoverlay=")) == [Entry(feature, Feature(BlankedParams(ps)))]
  {
    var c := [Entry(feature, Feature(ps))];
    PlainIsClean(ps);
    ParseUndoesBuild("dtoverlay", c);
    assert "dtoverlay" + "=" == "dtoverlay=";
    assert Blanked(c) == [Entry(feature, Feature(BlankedParams(ps)))];
  }

  lemma {:induction false} PutOnly(key: string, before: Setting, after: Setting)
    ensures PutEntry([Entry(key, before)], key, after) == [Entry(key, after)]
    ensures FindEntry([Entry(key, before)], key) == Some(before)
  {
    assert [Entry(key, before)][1..] == [];
  }

  lemma {:induction false} DigitsArePlain(n: nat)
    ensures Plain(Decimal(n))
  {
    if n >= 10 {
      DigitsArePlain(n / 10);
    }
  }

  lemma {:induction false} FindAt(ps: seq<Param>, i: int)
    requires 0 <= i < |ps| && Distinct(Keys(ps))
    ensures Find(ps, ps[i].key) == Some(ps[i].value)
  {
    KeysAt(ps);
    if i > 0 {
      assert Keys(ps)[0] != Keys(ps)[i];
      assert Keys(ps)[1..] == Keys(ps[1..]);
      forall j, k | 0 <= j < k < |Keys(ps[1..])| ensures Keys(ps[1..])[j] != Keys(ps[1..])[k] {
        assert Keys(ps)[j + 1] != Keys(ps)[k + 1];
      }
      FindAt(ps[1..], i - 1);
    }
  }

  lemma {:induction false} SettledIsPlain(r: Request, ps: seq<Param>)
    requires Overlay(r) && Settled(r, ps)
    ensures PlainParams(ps)
  {
    KeysAt(ps);
    KeysAt(r.add);
    DigitsArePlain(r.pin.value);
    forall i | 0 <= i < |ps| ensures PlainParam(ps[i]) {
      FindAt(ps, i);
      var key := ps[i].key;
      assert key == Keys(ps)[i] && key in Keys(ps);
      if key in Keys(r.add) {
        var j :| 0 <= j < |r.add| && Keys(r.add)[j] == key;
        FindAt(r.add, j);
        assert PlainParam(r.add[j]);
      } else {
        assert key == r.pinType;
      }
    }
  }

  // ---------------------------------------------------------------- runs on a file

  /** A file with no line that this write would edit. */
  ghost predicate Unconfigured(r: Request, text: string) {
    forall i | 0 <= i < |Kept(r, ReadLines(text))| :: !Matches(r, Kept(r, ReadLines(text))[i])
  }

  /** No line without a newline is left for the new one to be glued to. */
  ghost predicate LinesEnd(r: Request, text: string) {
    AllWhole(Kept(r, ReadLines(text)))
  }

  lemma {:induction false} NewlineEndsLines(r: Request, text: string)
    requires text == "" || text[|text| - 1] == '\n'
    ensures LinesEnd(r, text)
  {
    LinesAreWhole(text);
    KeptIsWhole(r, ReadLines(text));
  }

  /** The file whose only overlay line of this write has options ps. */
  function WithLine(r: Request, text: string, ps: seq<Param>): string {
    Concat(Kept(r, ReadLines(text)) + [OverlayLine(r.feature, ps)])
  }

  lemma {:induction false} NoMatchBefore(r: Request, lines: seq<string>)
    requires forall i | 0 <= i < |lines| :: !Matches(r, lines[i])
    ensures FirstMatch(r, lines) == |lines|
  {
  }

  /** The first run adds one line at the end, besides dropping superseded ones. */
  lemma {:induction false} FirstRunAppends(r: Request, text: string)
    requires Overlay(r) && Unconfigured(r, text)
    ensures Rewritten(r, text) == WithLine(r, text, First(r))
  {
    NoMatchBefore(r, Kept(r, ReadLines(text)));
  }

  lemma {:induction false} NextRunRewrites(r: Request, text: string, ps: seq<Param>)
    requires Overlay(r) && Unconfigured(r, text) && LinesEnd(r, text) && ps != [] && PlainParams(ps)
    ensures Rewritten(r, WithLine(r, text, ps)) == WithLine(r, text, Again(r, ps))
  {
    var kept := Kept(r, ReadLines(text));
    KeptAgain(r, ReadLines(text));
    NoMatchBefore(r, kept);
    LineIsWhole(r.feature, ps);
    LineIsFound(r, ps);
    LineIsEdited(r, ps);
    LastLineIsRewritten(r, kept, OverlayLine(r.feature, ps));
  }

  lemma {:induction false} ConcatEndWith(lines: seq<string>, line: string)
    ensures Concat(lines + [line]) == Concat(lines) + line
  {
    if lines == [] {
      assert (lines + [line])[1..] == [];
    } else {
      assert (lines + [line])[1..] == lines[1..] + [line];
      ConcatEndWith(lines[1..], line);
    }
  }

  /** The text after n runs. */
  function Runs(r: Request, text: string, n: nat): string {
    if n == 0 then text else Rewritten(r, Runs(r, text, n - 1))
  }

  lemma {:induction false} RunsSettle(r: Request, text: string, n: nat)
    requires Overlay(r) && Unconfigured(r, text) && LinesEnd(r, text) && Told(r) && n >= 2
    ensures First(r) != [] && Runs(r, text, n) == WithLine(r, text, Again(r, First(r)))
  {
    FirstIsSettled(r);
    SettledIsPlain(r, First(r));
    AgainIsSettled(r, First(r));
    var x := Again(r, First(r));
    SettledIsPlain(r, x);
    if n == 2 {
      assert Runs(r, text, 1) == Rewritten(r, Runs(r, text, 0));
      FirstRunAppends(r, text);
      NextRunRewrites(r, text, First(r));
    } else {
      RunsSettle(r, text, n - 1);
      OptionsSettle(r, First(r));
      NextRunRewrites(r, text, x);
    }
  }

  /** A lone option under a name that is no pin noun gains two blanks at every run. */
  function Padding(n: nat): string {
    if n == 0 then "" else Padding(n - 1) + BLANKS
  }

  lemma {:induction false} PaddingIsPlain(s: string, n: nat)
    requires Plain(s)
    ensures Plain(s + Padding(n)) && |Padding(n)| == 2 * n
  {
    if n > 0 {
      PaddingIsPlain(s, n - 1);
    }
  }

  lemma {:induction false} LoneOptionGrows(r: Request, value: string)
    requires Overlay(r) && !Told(r)
    ensures Again(r, [Param(r.pinType, Some(value))]) == [Param(r.pinType, Some(value + BLANKS))]
  {
    var b := BlankedParams([Param(r.pinType, Some(value))]);
    assert b == [Param(r.pinType, Some(value + BLANKS))];
    NoNounNoEdit(b, NOUNS, r.pinType, IntText(r.pin.value));
  }

  lemma {:induction false} NoNounNoEdit(ps: seq<Param>, nouns: seq<string>, pinType: string, pin: string)
    requires forall i, k | 0 <= i < |ps| && 0 <= k < |nouns| :: ps[i].key != nouns[k]
    ensures PinEdit(ps, nouns, pinType, pin) == ps
    decreases |nouns|
  {
    if nouns != [] {
      assert !HasParam(ps, nouns[0]);
      NoNounNoEdit(ps, nouns[1..], pinType, pin);
    }
  }

  /** The options of a lone pin after n runs that rewrote its line. */
  function Padded(r: Request, n: nat): seq<Param>
    requires r.pin.Some?
  {
    [Param(r.pinType, Some(IntText(r.pin.value) + Padding(n)))]
  }

  lemma {:induction false} LinesGrow(r: Request, text: string, n: nat)
    requires Overlay(r) && Unconfigured(r, text) && LinesEnd(r, text) && !Told(r)
    ensures Runs(r, text, n + 1) == WithLine(r, text, Padded(r, n))
  {
    if n == 0 {
      LonePinAppended(r, text);
    } else {
      LinesGrow(r, text, n - 1);
      PaddedRun(r, text, n);
      NextRun(r, text, n, WithLine(r, text, Padded(r, n - 1)), WithLine(r, text, Padded(r, n)));
    }
  }

  lemma {:induction false} NextRun(r: Request, text: string, n: nat, before: string, after: string)
    requires Runs(r, text, n) == before && Rewritten(r, before) == after
    ensures Runs(r, text, n + 1) == after
  {
  }

  lemma {:induction false} LonePinAppended(r: Request, text: string)
    requires Overlay(r) && Unconfigured(r, text) && !Told(r)
    ensures Runs(r, text, 1) == WithLine(r, text, Padded(r, 0))
  {
    FirstRunAppends(r, text);
    assert Runs(r, text, 1) == Rewritten(r, Runs(r, text, 0));
    assert IntText(r.pin.value) + Padding(0) == IntText(r.pin.value);
    assert First(r) == Padded(r, 0);
  }

  lemma {:induction false} PaddingStep(r: Request, n: nat)
    requires Overlay(r) && n > 0
    ensures Plain(IntText(r.pin.value) + Padding(n - 1))
    ensures IntText(r.pin.value) + Padding(n - 1) + BLANKS == IntText(r.pin.value) + Padding(n)
  {
    DigitsArePlain(r.pin.value);
    PaddingIsPlain(IntText(r.pin.value), n - 1);
  }

  lemma {:induction false} PaddedRun(r: Request, text: string, n: nat)
    requires Overlay(r) && Unconfigured(r, text) && LinesEnd(r, text) && !Told(r) && n > 0
    ensures Rewritten(r, WithLine(r, text, Padded(r, n - 1))) == WithLine(r, text, Padded(r, n))
  {
    var ps := Padded(r, n - 1);
    PaddingStep(r, n);
    assert Keys(ps) == [r.pinType] by {
      assert ps[1..] == [];
    }
    NextRunRewrites(r, text, ps);
    LoneOptionGrows(r, IntText(r.pin.value) + Padding(n - 1));
  }

  lemma {:induction false} LongerLine(r: Request, text: string, value: string, more: string)
    requires |more| > |value|
    ensures WithLine(r, text, [Param(r.pinType, Some(value))]) != WithLine(r, text, [Param(r.pinType, Some(more))])
  {
    var kept := Kept(r, ReadLines(text));
    forall v: string
      ensures |WithLine(r, text, [Param(r.pinType, Some(v))])| ==
              |Concat(kept)| + 10 + |r.feature| + |r.pinType| + 2 + |v| + |COMMENT|
    {
      var ps := [Param(r.pinType, Some(v))];
      ConcatEndWith(kept, OverlayLine(r.feature, ps));
      LineShape(r.feature, ps);
      assert ps[..0] == [];
      assert OptionsText(ps) == "" + ("," + PrintParam(ps[0]));
    }
  }

  /**
   Running the same overlay write over and over on a file that lacks the line: from
   the second run on the file stays the same, exactly when the pin is stored under
   one of the pin nouns or there are further settings.
   */
  lemma {:induction false} RunsSettleExactly(r: Request, text: string)
    requires Overlay(r) && Unconfigured(r, text) && LinesEnd(r, text)
    ensures (forall n: nat | n >= 2 :: Runs(r, text, n) == Runs(r, text, 2)) <==> Told(r)
  {
    if Told(r) {
      forall n: nat | n >= 2 ensures Runs(r, text, n) == Runs(r, text, 2) {
        RunsSettle(r, text, n);
        RunsSettle(r, text, 2);
      }
    } else {
      LinesGrow(r, text, 1);
      LinesGrow(r, text, 2);
      DigitsArePlain(r.pin.value);
      PaddingIsPlain(IntText(r.pin.value), 1);
      PaddingIsPlain(IntText(r.pin.value), 2);
      LongerLine(r, text, IntText(r.pin.value) + Padding(1), IntText(r.pin.value) + Padding(2));
      assert Runs(r, text, 3) != Runs(r, text, 2);
    }
  }

  /** Without further settings the first run already reaches the final text. */
  lemma {:induction false} LinePinSettles(r: Request, text: string)
    requires Overlay(r) && Unconfigured(r, text) && LinesEnd(r, text) && r.add == [] && r.pinType in NOUNS
    ensures Runs(r, text, 2) == Runs(r, text, 1)
  {
    FirstIsSettled(r);
    SettledIsPlain(r, First(r));
    AgainIsSettled(r, First(r));
    var x := Again(r, First(r));
    FirstRunAppends(r, text);
    NextRunRewrites(r, text, First(r));
    assert Runs(r, text, 1) == Rewritten(r, Runs(r, text, 0));
    FirstMeaning(r, r.pinType);
    KeysAt(x);
    KeysAt(First(r));
    AgainMeaning(r, First(r), r.pinType);
    MinusOne(r.pinType, NOUNS);
    assert Keys(First(r)) == [r.pinType];
    assert Keys(x) == [r.pinType];
    SameParams(x, First(r));
  }

  // ---------------------------------------------------------------- runs of a parameter write

  function ParamLine(feature: string, value: string): string {
    Printed("dtparam", [Entry(feature, Text(value))])
  }

  function Wanted(r: Request): string {
    if r.param == "" then "on" else r.param
  }

  ghost predicate Parameter(r: Request) {
    && r.configType == "dtparam" && r.pin.Some?
    && Plain(r.feature) && !EndsWith(r.feature, "dtparam") && Plain(r.param)
  }

  lemma {:induction false} ParamShape(feature: string, value: string)
    ensures ParamLine(feature, value) == "dtparam=" + feature + ("=" + value + COMMENT)
  {
    var e := Entry(feature, Text(value));
    ItemsOfOne(e);
    assert "dtparam" + "=" == "dtparam=";
  }

  lemma {:induction false} ParamLineIsWhole(feature: string, value: string)
    requires Plain(feature) && Plain(value)
    ensures Whole(ParamLine(feature, value))
  {
    ParamShape(feature, value);
    assert '\n' !in "dtparam=";
    var head := "dtparam=" + feature + ("=" + value);
    assert ParamLine(feature, value) == head + COMMENT;
    CommentedIsWhole(head);
  }

  lemma {:induction false} ParamLineIsFound(r: Request, value: string)
    requires r.configType == "dtparam"
    ensures var line := ParamLine(r.feature, value);
            Matches(r, line) && !Superseded(r, line) && RemoveHashtag(line) == line
  {
    ParamShape(r.feature, value);
    var line, n := ParamLine(r.feature, value), |r.feature|;
    assert line[0..7] == "dtparam" && OccursAt(line, "dtparam", 0);
    assert line[8..8 + n] == r.feature && OccursAt(line, r.feature, 8);
    assert line[0] == 'd';
  }

  lemma {:induction false} ParamLineIsEdited(r: Request, value: string)
    requires Parameter(r) && Plain(value)
    ensures EditLine(r, ParamLine(r.feature, value)) == Some(ParamLine(r.feature, Wanted(r)))
  {
    var c := [Entry(r.feature, Text(value))];
    ParamLineIsFound(r, value);
    ParseUndoesBuild("dtparam", c);
    assert "dtparam" + "=" == "dtparam=";
    assert Blanked(c) == [Entry(r.feature, Text(value + BLANKS))];
    EditFollowsText(r, ParamLine(r.feature, value), value + BLANKS);
  }

  lemma {:induction false} EditFollowsText(r: Request, line: string, value: string)
    requires Parameter(r) && RemoveHashtag(line) == line
    requires Parsed(Without(line, "dtparam=")) == [Entry(r.feature, Text(value))]
    ensures EditLine(r, line) == Some(ParamLine(r.feature, Wanted(r)))
  {
    PutOnly(r.feature, Text(value), Text(Wanted(r)));
    assert r.configType + "=" == "dtparam=";
  }

  function WithParam(r: Request, text: string, value: string): string {
    Concat(Kept(r, ReadLines(text)) + [ParamLine(r.feature, value)])
  }

  lemma {:induction false} ParamRewritten(r: Request, text: string, value: string)
    requires Parameter(r) && Unconfigured(r, text) && LinesEnd(r, text) && Plain(value)
    ensures Rewritten(r, WithParam(r, text, value)) == WithParam(r, text, Wanted(r))
  {
    var kept := Kept(r, ReadLines(text));
    KeptAgain(r, ReadLines(text));
    NoMatchBefore(r, kept);
    ParamLineIsWhole(r.feature, value);
    ParamLineIsFound(r, value);
    ParamLineIsEdited(r, value);
    LastLineIsRewritten(r, kept, ParamLine(r.feature, value));
  }

  lemma {:induction false} ParamAppended(r: Request, text: string)
    requires Parameter(r) && Unconfigured(r, text)
    ensures Runs(r, text, 1) == WithParam(r, text, "on")
  {
    NoMatchBefore(r, Kept(r, ReadLines(text)));
    assert Runs(r, text, 1) == Rewritten(r, Runs(r, text, 0));
  }

  lemma {:induction false} ParamRuns(r: Request, text: string, n: nat)
    requires Parameter(r) && Unconfigured(r, text) && LinesEnd(r, text) && n >= 2
    ensures Runs(r, text, n) == WithParam(r, text, Wanted(r))
  {
    if n == 2 {
      ParamAppended(r, text);
      ParamRewritten(r, text, "on");
    } else {
      ParamRuns(r, text, n - 1);
      ParamRewritten(r, text, Wanted(r));
    }
  }

  /**
   A parameter write on a file without the line first stores "on", whatever value
   was asked for; the second run stores the value, and it stays. So one run is
   enough exactly when "on" was wanted.
   */
  lemma {:induction false} ParamRunsExactly(r: Request, text: string)
    requires Parameter(r) && Unconfigured(r, text) && LinesEnd(r, text)
    ensures Runs(r, text, 1) == WithParam(r, text, "on")
    ensures forall n: nat | n >= 2 :: Runs(r, text, n) == WithParam(r, text, Wanted(r))
    ensures Runs(r, text, 1) == Runs(r, text, 2) <==> Wanted(r) == "on"
  {
    ParamAppended(r, text);
    forall n: nat | n >= 2 ensures Runs(r, text, n) == WithParam(r, text, Wanted(r)) {
      ParamRuns(r, text, n);
    }
    if Runs(r, text, 1) == Runs(r, text, 2) {
      ParamRuns(r, text, 2);
      ParamIsVisible(r, text, "on", Wanted(r));
    }
  }

  lemma {:induction false} ParamIsVisible(r: Request, text: string, a: string, b: string)
    requires WithParam(r, text, a) == WithParam(r, text, b)
    ensures a == b
  {
    var kept := Kept(r, ReadLines(text));
    ParamPlace(kept, r.feature, a);
    ParamPlace(kept, r.feature, b);
    SameMiddle(Concat(kept) + "dtparam=" + r.feature + "=", a, b, COMMENT);
  }

  lemma {:induction false} ParamPlace(kept: seq<string>, feature: string, value: string)
    ensures Concat(kept + [ParamLine(feature, value)]) ==
            (Concat(kept) + "dtparam=" + feature + "=") + (value + COMMENT)
  {
    ConcatEndWith(kept, ParamLine(feature, value));
    ParamShape(feature, value);
    ParamGrouped(Concat(kept), feature, value, COMMENT);
  }

  lemma {:induction false} ParamGrouped(before: string, feature: string, value: string, comment: string)
    ensures before + ("dtparam=" + feature + ("=" + value + comment)) ==
            (before + "dtparam=" + feature + "=") + (value + comment)
  {
  }

  lemma {:induction false} SameMiddle(head: string, a: string, b: string, tail: string)
    requires head + (a + tail) == head + (b + tail)
    ensures a == b
  {
    assert (head + (a + tail))[|head|..] == a + tail;
    assert (head + (b + tail))[|head|..] == b + tail;
    assert |a| == |b|;
    assert (a + tail)[..|a|] == a && (b + tail)[..|b|] == b;
  }
}
