/**
 What parsing, editing and choosing lines come to on any input: which option belongs
 to which feature, which line is edited, which lines go, and what disabling does.
 */
module BoardConfigMeanings {
  import opened Texts
  import opened Wrappers
  import opened BoardConfig
  import opened BoardConfigWrite
  import opened BoardConfigSettles
  import opened BoardConfigRuns
  import opened BoardConfigGlued

  // ---------------------------------------------------------------- items

  predicate Bare(item: string) {
    '=' !in item
  }

  /** An item with an equals sign: its key is before the first one, its value before the second. */
  ghost predicate IsPair(item: string, key: string, value: string) {
    && '=' !in key && '=' !in value
    && (item == key + "=" + value || (exists rest :: item == key + "=" + value + "=" + rest))
  }

  lemma {:induction false} PairParts(item: string, key: string, value: string)
    requires IsPair(item, key, value)
    ensures var parts := Split(item, '='); |parts| > 1 && parts[0] == key && parts[1] == value
  {
    if item == key + "=" + value {
      SplitAt(key, value, '=');
      SplitClean(value, '=');
    } else {
      var rest :| item == key + "=" + value + "=" + rest;
      assert item == key + ['='] + (value + ['='] + rest);
      SplitAt(key, value + ['='] + rest, '=');
      SplitAt(value, rest, '=');
    }
  }

  /** Every item with an equals sign is such a pair. */
  lemma {:induction false} PairExists(item: string)
    requires !Bare(item)
    ensures var parts := Split(item, '='); |parts| > 1 && IsPair(item, parts[0], parts[1])
  {
    var key, tail := FirstEquals(item);
    if '=' in tail {
      var value, rest := FirstEquals(tail);
      assert item == key + "=" + value + "=" + rest;
      PairParts(item, key, value);
    } else {
      PairParts(item, key, tail);
    }
  }

  lemma {:induction false} FirstEquals(s: string) returns (a: string, b: string)
    requires '=' in s
    ensures '=' !in a && s == a + "=" + b
  {
    assert s == [s[0]] + s[1..];
    if s[0] == '=' {
      a, b := "", s[1..];
    } else {
      a, b := FirstEquals(s[1..]);
      a := [s[0]] + a;
    }
  }

  /** The value of a pair. */
  function KeyOf(item: string): string {
    Split(item, '=')[0]
  }

  function ValueOf(item: string): string
    requires !Bare(item)
  {
    PairExists(item);
    Split(item, '=')[1]
  }

  // ---------------------------------------------------------------- what a line says

  /** The options that these pairs give a feature. */
  function Collected(pairs: seq<string>): seq<Param>
    requires forall i | 0 <= i < |pairs| :: !Bare(pairs[i])
  {
    if pairs == [] then []
    else
      var n := |pairs| - 1;
      PutParam(Collected(pairs[..n]), KeyOf(pairs[n]), Some(ValueOf(pairs[n])))
  }

  /** The feature named last at `b` has the options that follow it, up to the next bare item at `e`. */
  predicate NamedLast(items: seq<string>, key: string, b: nat, e: nat) {
    && b < e <= |items| && items[b] == key && Bare(key)
    && (forall i | b < i < e :: !Bare(items[i]))
    && (e < |items| ==> Bare(items[e]))
    && (forall i | e <= i < |items| :: items[i] != key)
  }

  /** Before any bare item, the last pair of this key is at `i`. */
  predicate GivenLast(items: seq<string>, key: string, i: nat) {
    && i < |items| && !Bare(items[i]) && KeyOf(items[i]) == key
    && (forall j | 0 <= j < i :: !Bare(items[j]))
    && (forall j | i < j < |items| && (forall k | i < k <= j :: !Bare(items[k])) :: KeyOf(items[j]) != key)
  }

  lemma {:induction false} BareIsWhole(item: string)
    ensures Bare(item) <==> |Split(item, '=')| == 1
    ensures Bare(item) ==> Split(item, '=') == [item]
  {
    if Bare(item) {
      SplitClean(item, '=');
    } else {
      SplitsInTwo(item, '=');
    }
  }

  /** Where the parse stands after some items. */
  function After(items: seq<string>): Config {
    ParseItems([], None, items)
  }

  function Open(items: seq<string>): Option<string> {
    LastFeature([], None, items)
  }

  /** The item at `b` is the last bare one. */
  predicate LastBare(items: seq<string>, b: nat) {
    b < |items| && Bare(items[b]) && forall i | b < i < |items| :: !Bare(items[i])
  }

  /** The feature that options go to is the last bare item. */
  lemma {:induction false} OpenFeature(items: seq<string>)
    ensures match Open(items)
            case None => forall i | 0 <= i < |items| :: !Bare(items[i])
            case Some(f) => HasFeature(After(items), f) && exists b: nat :: LastBare(items, b) && items[b] == f
  {
    if items != [] {
      var n := |items| - 1;
      var before, x := items[..n], items[n];
      OpenFeature(before);
      assert items == before + [x];
      ParseItemsEndWith([], None, before, x);
      BareIsWhole(x);
      if Bare(x) {
        PutFinds(After(before), x, Feature([]), x);
        assert LastBare(items, n);
      } else if Open(before).Some? {
        var f := Open(before).value;
        var options := FindEntry(After(before), f).value.params;
        PutFinds(After(before), f, Feature(PutParam(options, KeyOf(x), Some(ValueOf(x)))), f);
        var b: nat :| LastBare(before, b) && before[b] == f;
        assert LastBare(items, b);
      }
    }
  }

  /** What one more item does to what is found under a key. */
  lemma {:induction false} OneMoreItem(before: seq<string>, x: string, key: string)
    ensures var was, found := FindEntry(After(before), key), FindEntry(After(before + [x]), key);
            if Bare(x) then found == if x == key then Some(Feature([])) else was
            else
              match Open(before)
              case None => found == if KeyOf(x) == key then Some(Text(ValueOf(x))) else was
              case Some(f) =>
                if f == key then
                  HasFeature(After(before), key) &&
                  found == Some(Feature(PutParam(was.value.params, KeyOf(x), Some(ValueOf(x)))))
                else found == was
  {
    OpenFeature(before);
    ParseItemsEndWith([], None, before, x);
    BareIsWhole(x);
    if Bare(x) {
      PutFinds(After(before), x, Feature([]), key);
    } else if Open(before).Some? {
      var f := Open(before).value;
      var options := FindEntry(After(before), f).value.params;
      PutFinds(After(before), f, Feature(PutParam(options, KeyOf(x), Some(ValueOf(x)))), key);
    } else {
      PutFinds(After(before), KeyOf(x), Text(ValueOf(x)), key);
    }
  }

  /**
   A feature named at `b` has exactly the options between it and the next bare item, if
   its name does not come again; one that never comes bare has the value of the last
   pair of its name before any feature; anything else is not there.
   */
  lemma {:induction false} ParseMeaning(items: seq<string>, key: string)
    ensures forall b: nat, e: nat | NamedLast(items, key, b, e) ::
              FindEntry(After(items), key) == Some(Feature(Collected(items[b + 1..e])))
    ensures (forall i | 0 <= i < |items| :: items[i] != key || !Bare(key)) ==>
              && (forall i: nat | GivenLast(items, key, i) ::
                    FindEntry(After(items), key) == Some(Text(ValueOf(items[i]))))
              && ((forall i: nat :: !GivenLast(items, key, i)) ==> FindEntry(After(items), key) == None)
    decreases |items|
  {
    if items != [] {
      var n := |items| - 1;
      var before, x := items[..n], items[n];
      assert items == before + [x];
      ParseMeaning(before, key);
      OneMoreItem(before, x, key);
      OpenFeature(before);
      forall b: nat, e: nat | NamedLast(items, key, b, e)
        ensures FindEntry(After(items), key) == Some(Feature(Collected(items[b + 1..e])))
      {
        FeatureGrows(before, x, key, b, e);
      }
      if forall i | 0 <= i < |items| :: items[i] != key || !Bare(key) {
        TextStays(before, x, key);
      }
    }
  }

  lemma {:induction false} NamedBefore(before: seq<string>, x: string, key: string, b: nat, e: nat)
    requires NamedLast(before + [x], key, b, e) && b < |before|
    ensures NamedLast(before, key, b, if e == |before| + 1 then |before| else e)
  {
    var items, n := before + [x], |before|;
    var e' := if e == n + 1 then n else e;
    forall i | b < i < e' ensures !Bare(before[i]) {
      assert items[i] == before[i];
    }
    forall i | e' <= i < n ensures before[i] != key {
      assert items[i] == before[i];
    }
    assert items[b] == before[b] && (e' < n ==> items[e'] == before[e']);
  }

  lemma {:induction false} FeatureGrows(before: seq<string>, x: string, key: string, b: nat, e: nat)
    requires NamedLast(before + [x], key, b, e)
    requires forall b': nat, e': nat | NamedLast(before, key, b', e') ::
               FindEntry(After(before), key) == Some(Feature(Collected(before[b' + 1..e'])))
    ensures FindEntry(After(before + [x]), key) == Some(Feature(Collected((before + [x])[b + 1..e])))
  {
    var items, n := before + [x], |before|;
    assert items[n] == x && forall i | 0 <= i < n :: items[i] == before[i];
    OneMoreItem(before, x, key);
    OpenFeature(before);
    if b == n {
      assert items[b + 1..e] == [];
    } else {
      var e' := if e == n + 1 then n else e;
      NamedBefore(before, x, key, b, e);
      assert items[b + 1..e'] == before[b + 1..e'];
      if e == n + 1 {
        assert items[b + 1..e] == before[b + 1..n] + [x];
        assert LastBare(before, b);
        OnlyOneLast(before, b);
        assert (before[b + 1..n] + [x])[..n - b - 1] == before[b + 1..n];
      } else if Open(before).Some? && !Bare(x) {
        var l: nat :| LastBare(before, l) && before[l] == Open(before).value;
        assert l >= e;
      }
    }
  }

  lemma {:induction false} OnlyOneLast(items: seq<string>, b: nat)
    requires LastBare(items, b)
    ensures Open(items) == Some(items[b])
  {
    OpenFeature(items);
    if Open(items).Some? {
      var l: nat :| LastBare(items, l) && items[l] == Open(items).value;
      assert l == b;
    }
  }

  lemma {:induction false} TextStays(before: seq<string>, x: string, key: string)
    requires forall i | 0 <= i < |before + [x]| :: (before + [x])[i] != key || !Bare(key)
    requires forall i: nat | GivenLast(before, key, i) ::
               FindEntry(After(before), key) == Some(Text(ValueOf(before[i])))
    requires (forall i: nat :: !GivenLast(before, key, i)) ==> FindEntry(After(before), key) == None
    ensures var items := before + [x];
            && (forall i: nat | GivenLast(items, key, i) ::
                  FindEntry(After(items), key) == Some(Text(ValueOf(items[i]))))
            && ((forall i: nat :: !GivenLast(items, key, i)) ==> FindEntry(After(items), key) == None)
  {
    var items, n := before + [x], |before|;
    assert items[n] == x && forall i | 0 <= i < n :: items[i] == before[i];
    OneMoreItem(before, x, key);
    OpenFeature(before);
    if Open(before).None? && !Bare(x) && KeyOf(x) == key {
      forall i: nat | GivenLast(items, key, i) ensures i == n {
      }
      assert GivenLast(items, key, n);
    } else {
      if Open(before).Some? {
        var l: nat :| LastBare(before, l) && before[l] == Open(before).value;
        assert items[l] == before[l] != key;
      }
      forall i: nat ensures GivenLast(items, key, i) <==> GivenLast(before, key, i) {
        GivenStays(before, x, key, i);
      }
    }
  }

  lemma {:induction false} GivenStays(before: seq<string>, x: string, key: string, i: nat)
    requires Bare(x) || KeyOf(x) != key || exists l: nat :: LastBare(before, l)
    ensures GivenLast(before + [x], key, i) <==> GivenLast(before, key, i)
  {
    var items, n := before + [x], |before|;
    assert items[n] == x && forall j | 0 <= j < n :: items[j] == before[j];
    assert forall l: nat | LastBare(before, l) :: Bare(items[l]);
    if GivenLast(before, key, i) {
      forall j | i < j < |items| && (forall k | i < k <= j :: !Bare(items[k])) ensures KeyOf(items[j]) != key {
        if j < n {
          assert forall k | i < k <= j :: !Bare(before[k]);
        }
      }
    }
    if GivenLast(items, key, i) {
      if i < n {
        forall j | i < j < n && (forall k | i < k <= j :: !Bare(before[k])) ensures KeyOf(before[j]) != key {
          assert forall k | i < k <= j :: !Bare(items[k]);
        }
      }
    }
  }

  // ---------------------------------------------------------------- which lines go and which one is edited

  predicate Blanks(s: string) {
    forall i | 0 <= i < |s| :: s[i] in " \t\n\r\U{000B}\U{000C}"
  }

  /** A line of an old pwm overlay, read without the blanks before it. */
  ghost predicate OldPwm(line: string) {
    && (exists k :: OccursAt(line, "dtoverlay=pwm,", k) && Blanks(line[..k]))
    && exists i :: OccursAt(line, "func=4", i)
  }

  lemma {:induction false} SupersededExactly(r: Request, line: string)
    ensures Superseded(r, line) <==> r.configType == "dtoverlay" && r.feature == "pwm-2chan" && OldPwm(line)
  {
    var k := StripLeftMeaning(line);
    var start := "dtoverlay=pwm,";
    assert start[0] == 'd' && |start| == 14;
    assert Blanks(line[..k]);
    if StartsWith(StripLeft(line), start) {
      assert line[k..k + 14] == StripLeft(line)[..14];
      assert OccursAt(line, start, k);
    }
    if m :| OccursAt(line, start, m) && Blanks(line[..m]) {
      assert line[m] == line[m..m + 14][0];
      assert forall i | 0 <= i < m :: line[i] == line[..m][i];
      assert m == k;
      assert StripLeft(line)[..14] == line[k..k + 14];
    }
    if i :| OccursAt(line, "func=4", i) {
      assert 0 <= i <= |line|;
      assert Contains(line, "func=4");
    }
  }

  /** The lines that stay, by where they stood: in their order, all but the superseded ones. */
  lemma {:induction false} KeptExactly(r: Request, lines: seq<string>) returns (places: seq<nat>)
    ensures |places| == |Kept(r, lines)|
    ensures forall j | 0 <= j < |places| :: places[j] < |lines| && Kept(r, lines)[j] == lines[places[j]]
    ensures forall j, k | 0 <= j < k < |places| :: places[j] < places[k]
    ensures forall i | 0 <= i < |lines| :: i in places <==> !Superseded(r, lines[i])
  {
    if lines == [] {
      places := [];
    } else {
      var n := |lines| - 1;
      places := KeptExactly(r, lines[..n]);
      assert lines == lines[..n] + [lines[n]];
      KeptEndWith(r, lines[..n], lines[n]);
      if !Superseded(r, lines[n]) {
        places := places + [n];
      }
    }
  }

  /**
   A write edits the first of the kept lines that names both type and feature, and no
   other; without one it adds a line at the end, or nothing when it disables.
   */
  lemma {:induction false} OneLineChanges(r: Request, lines: seq<string>) returns (i: nat)
    ensures var kept := Kept(r, lines);
            && i <= |kept|
            && (forall j | 0 <= j < i :: !(Contains(kept[j], r.configType) && Contains(kept[j], r.feature)))
            && (i < |kept| ==>
                  && Contains(kept[i], r.configType) && Contains(kept[i], r.feature)
                  && (NewLines(r, lines).None? <==> EditLine(r, kept[i]).None?))
            && (i == |kept| ==> NewLines(r, lines).Some?)
    ensures NewLines(r, lines).Some? ==>
              var kept, after := Kept(r, lines), NewLines(r, lines).value;
              && (forall j | 0 <= j < |kept| && j != i :: j < |after| && after[j] == kept[j])
              && (i < |kept| ==> |after| == |kept| && Some(after[i]) == EditLine(r, kept[i]))
              && (i == |kept| ==>
                    if r.pin == None then |after| == |kept|
                    else |after| == |kept| + 1 && after[i] == NewLine(r, r.pin.value))
  {
    i := FirstMatch(r, Kept(r, lines));
  }

  // ---------------------------------------------------------------- disabling

  /** A hash that is the first thing on a line is taken away with the blanks before it; other lines stay. */
  lemma {:induction false} HashtagRemoved(line: string) returns (k: nat)
    ensures k <= |line| && Blanks(line[..k]) && (k < |line| ==> !Blanks([line[k]]))
    ensures RemoveHashtag(line) == if k < |line| && line[k] == '#' then line[k + 1..] else line
  {
    k := StripLeftMeaning(line);
    if k < |line| {
      assert StripLeft(line)[0] == line[k] && StripLeft(line)[1..] == line[k + 1..];
      assert [line[k]][0] == line[k];
    }
  }

  /** A disabled line begins with one hash, before what the line said; disabling it again changes nothing. */
  lemma {:induction false} DisabledLine(r: Request, line: string)
    requires r.pin == None
    ensures var bare := RemoveHashtag(line);
            && EditLine(r, line) == Some("#" + bare) && RemoveHashtag("#" + bare) == bare
            && EditLine(r, "#" + bare) == Some("#" + bare)
  {
    var disabled := "#" + RemoveHashtag(line);
    assert disabled[0] == '#' && disabled[1..] == RemoveHashtag(line);
    assert StripLeft(disabled) == disabled;
  }

  lemma {:induction false} FoundBehind(line: string, sub: string, i: int, k: nat)
    requires OccursAt(line, sub, i) && k < i
    ensures Contains(line[k + 1..], sub)
  {
    var rest, j := line[k + 1..], i - k - 1;
    assert rest[j..j + |sub|] == line[i..i + |sub|];
    assert OccursAt(rest, sub, j);
  }

  /** Text without a hash that does not begin with a blank is still there when a hash was moved to the front. */
  lemma {:induction false} StaysFound(line: string, sub: string)
    requires Contains(line, sub) && '#' !in sub && (sub != "" ==> !Blanks([sub[0]]))
    ensures Contains("#" + RemoveHashtag(line), sub)
  {
    var k := HashtagRemoved(line);
    if sub == "" {
      assert OccursAt("#" + RemoveHashtag(line), sub, 0);
    } else {
      if k < |line| && line[k] == '#' {
        var i :| 0 <= i <= |line| && OccursAt(line, sub, i);
        NotInFront(line, sub, i, k);
        FoundBehind(line, sub, i, k);
      }
      ContainsAppend("#", RemoveHashtag(line), sub);
    }
  }

  lemma {:induction false} NotInFront(line: string, sub: string, i: int, k: nat)
    requires OccursAt(line, sub, i) && sub != "" && '#' !in sub && !Blanks([sub[0]])
    requires k < |line| && line[k] == '#' && Blanks(line[..k])
    ensures k < i
  {
    assert line[i] == line[i..i + |sub|][0] == sub[0];
    assert [sub[0]][0] == sub[0];
    assert forall j | 0 <= j < k :: line[..k][j] == line[j];
  }

  /** Disabling settles: done again, it edits nothing. */
  lemma {:induction false} DisablingSettles(r: Request, lines: seq<string>)
    requires r.pin == None && '#' !in r.configType && '#' !in r.feature
    requires r.configType != "" ==> !Blanks([r.configType[0]])
    requires r.feature != "" ==> !Blanks([r.feature[0]])
    ensures NewLines(r, lines).Some? && NewLines(r, NewLines(r, lines).value) == NewLines(r, lines)
  {
    var kept, i := Kept(r, lines), FirstMatch(r, Kept(r, lines));
    KeptAgain(r, lines);
    if i < |kept| {
      var line := "#" + RemoveHashtag(kept[i]);
      DisabledLine(r, kept[i]);
      StaysFound(kept[i], r.configType);
      StaysFound(kept[i], r.feature);
      DisabledStays(r, kept, i, line);
    }
  }

  lemma {:induction false} DisabledStays(r: Request, kept: seq<string>, i: nat, line: string)
    requires r.pin == None && Kept(r, kept) == kept && i == FirstMatch(r, kept) && i < |kept|
    requires Matches(r, line) && line != "" && line[0] == '#' && EditLine(r, line) == Some(line)
    ensures NewLines(r, kept[i := line]) == Some(kept[i := line])
  {
    var after := kept[i := line];
    assert StripLeft(line) == line && "dtoverlay=pwm,"[0] == 'd';
    assert !Superseded(r, line);
    AllStay(r, kept);
    NoneGoes(r, after);
    var j := FirstMatch(r, after);
    assert Matches(r, after[i]);
    assert forall k | 0 <= k < i :: after[k] == kept[k];
    assert j == i;
    assert after[i := line] == after;
  }

  lemma {:induction false} AllStay(r: Request, lines: seq<string>)
    requires Kept(r, lines) == lines
    ensures forall i | 0 <= i < |lines| :: !Superseded(r, lines[i])
  {
    if lines != [] {
      assert !Superseded(r, lines[0]);
      assert Kept(r, lines)[1..] == Kept(r, lines[1..]);
      AllStay(r, lines[1..]);
    }
  }

  lemma {:induction false} NoneGoes(r: Request, lines: seq<string>)
    requires forall i | 0 <= i < |lines| :: !Superseded(r, lines[i])
    ensures Kept(r, lines) == lines
  {
    if lines != [] {
      NoneGoes(r, lines[1..]);
    }
  }

  // ---------------------------------------------------------------- edits

  /** A parameter's edit stores the value that is asked for, or "on", and leaves every other component. */
  lemma {:induction false} ParameterEdit(r: Request, line: string, q: string)
    requires r.configType == "dtparam" && r.pin.Some?
    ensures var before := Parsed(Without(RemoveHashtag(line), "dtparam="));
            var after := PutEntry(before, r.feature, Text(if r.param == "" then "on" else r.param));
            && EditLine(r, line) == Some(Printed("dtparam", after))
            && FindEntry(after, q) ==
               if q == r.feature then Some(Text(if r.param == "" then "on" else r.param)) else FindEntry(before, q)
  {
    assert "dtparam" + "=" == "dtparam=";
    PutFinds(Parsed(Without(RemoveHashtag(line), "dtparam=")), r.feature,
             Text(if r.param == "" then "on" else r.param), q);
  }

  /** One of the names under which a pin is stored stands in the value. */
  ghost predicate NamesPin(value: string) {
    exists i :: OccursAt(value, "gpio-pin", i) || OccursAt(value, "gpiopin", i) ||
                OccursAt(value, "gpio_pin", i) || OccursAt(value, "pin", i)
  }

  /** When the edit of an overlay fails: it has something to change on what is no feature. */
  lemma {:induction false} OverlayFails(r: Request, line: string)
    requires r.configType == "dtoverlay" && r.pin.Some?
    ensures EditLine(r, line).None? <==>
            (r.pin.value > 0 || r.add != []) &&
            match FindEntry(Parsed(Without(RemoveHashtag(line), "dtoverlay=")), r.feature)
            case None => true
            case Some(Text(value)) => r.add != [] || NamesPin(value)
            case Some(Feature(_)) => false
  {
    assert "dtoverlay" + "=" == "dtoverlay=";
    match FindEntry(Parsed(Without(RemoveHashtag(line), "dtoverlay=")), r.feature)
    case Some(Text(value)) => PinNamed(value);
    case _ =>
  }

  lemma {:induction false} PinNamed(value: string)
    ensures (exists k | 0 <= k < |NOUNS| :: Contains(value, NOUNS[k])) <==> NamesPin(value)
  {
    assert NOUNS[0] == "gpio-pin" && NOUNS[1] == "gpiopin" && NOUNS[2] == "gpio_pin" && NOUNS[3] == "pin";
    forall noun, i | OccursAt(value, noun, i) ensures Contains(value, noun) {
      assert 0 <= i <= |value|;
    }
  }

  /** A line of any other type is printed anew from its components, which stay. */
  lemma {:induction false} OtherTypesStay(r: Request, line: string)
    requires r.configType != "dtparam" && r.configType != "dtoverlay" && r.pin.Some?
    ensures EditLine(r, line) == Some(Printed(r.configType, Parsed(Rest(r.configType, line))))
  {
  }

  /** Without a positive pin the options stay, but for the further settings. */
  lemma {:induction false} NoPinKeepsOptions(r: Request, pin: int, ps: seq<Param>, q: string)
    requires pin <= 0 && Distinct(Keys(r.add))
    ensures Keys(EditParams(r, pin, ps)) == PutKeys(Keys(ps), Keys(r.add))
    ensures Find(EditParams(r, pin, ps), q) == if Find(r.add, q).Some? then Find(r.add, q) else Find(ps, q)
  {
    AddAllMeaning(ps, r.add, q);
  }

  // ---------------------------------------------------------------- texts of numbers and of options

  /** The number that a text of digits denotes. */
  function Denoted(digits: string): int {
    if digits == "" then 0
    else Denoted(digits[..|digits| - 1]) * 10 + (digits[|digits| - 1] as int - '0' as int)
  }

  /** `str(n)` denotes n, in digits without a leading zero. */
  lemma {:induction false} DecimalDenotes(n: nat)
    ensures Denoted(Decimal(n)) == n && Decimal(n) != "" && (n > 0 ==> Decimal(n)[0] != '0')
    ensures forall c | c in Decimal(n) :: '0' <= c <= '9'
  {
    if n >= 10 {
      DecimalDenotes(n / 10);
      assert Decimal(n)[..|Decimal(n)| - 1] == Decimal(n / 10);
    } else {
      assert Decimal(n)[..0] == "";
    }
  }

  lemma {:induction false} IntDenotes(n: int)
    ensures if n >= 0 then Denoted(IntText(n)) == n else IntText(n)[0] == '-' && Denoted(IntText(n)[1..]) == -n
  {
    DecimalDenotes(if n < 0 then -n else n);
    if n < 0 {
      assert IntText(n)[1..] == Decimal(-n);
    }
  }

  /** An option without a value is printed as its key alone, and then read as a feature of its own. */
  lemma {:induction false} BareOption(feature: string, key: string)
    requires Clean(feature) && Clean(key) && feature != key + BLANKS
    ensures Printed("dtoverlay", [Entry(feature, Feature([Param(key, None)]))]) ==
            "dtoverlay=" + feature + "," + key + COMMENT
    ensures Parsed(feature + "," + key + COMMENT) == [Entry(feature, Feature([])), Entry(key + BLANKS, Feature([]))]
  {
    BareOptionPrinted(feature, key);
    BareOptionRead(feature, key);
  }

  lemma {:induction false} BareOptionPrinted(feature: string, key: string)
    ensures Printed("dtoverlay", [Entry(feature, Feature([Param(key, None)]))]) ==
            "dtoverlay=" + feature + "," + key + COMMENT
  {
    var e := Entry(feature, Feature([Param(key, None)]));
    ItemsOfOne(e);
    JoinEntry(e);
    assert [Param(key, None)][..0] == [];
    assert "" + ("," + key) == "," + key;
    assert EntryText(e) == feature + ("," + key);
    assert "dtoverlay" + "=" == "dtoverlay=";
    assert "dtoverlay=" + (feature + ("," + key)) == "dtoverlay=" + feature + "," + key;
  }

  lemma {:induction false} BareOptionRead(feature: string, key: string)
    requires Clean(feature) && Clean(key) && feature != key + BLANKS
    ensures Parsed(feature + "," + key + COMMENT) == [Entry(feature, Feature([])), Entry(key + BLANKS, Feature([]))]
  {
    var text := feature + "," + key;
    BeforeComment(text);
    assert text + BLANKS == feature + [','] + (key + BLANKS);
    SplitAt(feature, key + BLANKS, ',');
    SplitClean(key + BLANKS, ',');
    SplitClean(feature, '=');
    SplitClean(key + BLANKS, '=');
    assert Split(text + BLANKS, ',') == [feature] + [key + BLANKS];
    TwoBareItems(feature, key + BLANKS);
  }

  lemma {:induction false} TwoBareItems(a: string, b: string)
    requires Clean(a) && Clean(b) && a != b
    ensures ParseItems([], None, [a] + [b]) == [Entry(a, Feature([])), Entry(b, Feature([]))]
  {
    var first := [Entry(a, Feature([]))];
    SplitClean(a, '=');
    SplitClean(b, '=');
    PutNewEntry(first, b, Feature([]));
    assert ([a] + [b])[1..] == [b] && [b][1..] == [];
    assert ParseItem([], None, a) == (first, Some(a));
    assert ParseItems(first, Some(a), [b]) == ParseItem(first, Some(a), b).0;
  }
}
