/**
 Whole runs on any file. A new line is appended without a look at how the last one
 ends, so a last line without a newline is glued to it, and later runs edit the two
 as one: an overlay write may then fail for good.
 */
module BoardConfigGlued {
  import opened Texts
  import opened Wrappers
  import opened BoardConfig
  import opened BoardConfigWrite
  import opened BoardConfigSettles
  import opened BoardConfigRuns

  // ---------------------------------------------------------------- a last line without a newline

  predicate Open(line: string) {
    line != "" && '\n' !in line
  }

  /** All lines end, except that the last one may not. */
  ghost predicate EndsOpen(lines: seq<string>) {
    forall i | 0 <= i < |lines| :: Whole(lines[i]) || (i == |lines| - 1 && Open(lines[i]))
  }

  lemma {:induction false} ReadLinesEndOpen(text: string)
    ensures EndsOpen(ReadLines(text))
  {
    if text != "" {
      ReadLinesEndOpen(text[1..]);
      var rest := ReadLines(text[1..]);
      if text[0] != '\n' && rest != [] {
        var line := [text[0]] + rest[0];
        assert line[..|line| - 1] == [text[0]] + rest[0][..|rest[0]| - 1];
        assert forall i | 1 <= i < |rest| :: rest[1..][i - 1] == rest[i];
      }
    }
  }

  lemma {:induction false} KeptEndsOpen(r: Request, lines: seq<string>)
    requires EndsOpen(lines)
    ensures EndsOpen(Kept(r, lines))
  {
    if lines != [] {
      assert forall i | 0 <= i < |lines[1..]| :: lines[1..][i] == lines[i + 1];
      KeptEndsOpen(r, lines[1..]);
      if |lines| == 1 {
        assert lines[1..] == [];
      }
    }
  }

  lemma {:induction false} OpenLine(text: string)
    requires Open(text)
    ensures ReadLines(text) == [text]
  {
    assert text[0] in text && text == [text[0]] + text[1..];
    if |text| > 1 {
      OpenLine(text[1..]);
      assert [text[1..]][1..] == [];
    } else {
      assert text[1..] == "" && ReadLines(text[1..]) == [];
      assert text == [text[0]];
    }
  }

  /** The kept lines before the last one, and the last one. */
  function Before(r: Request, text: string): seq<string> {
    var kept := Kept(r, ReadLines(text));
    if kept == [] then [] else kept[..|kept| - 1]
  }

  function Last(r: Request, text: string): string {
    var kept := Kept(r, ReadLines(text));
    if kept == [] then "" else kept[|kept| - 1]
  }

  lemma {:induction false} OpenEnd(r: Request, text: string)
    requires !LinesEnd(r, text)
    ensures Kept(r, ReadLines(text)) == Before(r, text) + [Last(r, text)]
    ensures AllWhole(Before(r, text)) && Open(Last(r, text))
    ensures Kept(r, Before(r, text)) == Before(r, text)
  {
    ReadLinesEndOpen(text);
    KeptEndsOpen(r, ReadLines(text));
    KeptAgain(r, ReadLines(text));
    var kept := Kept(r, ReadLines(text));
    var n := |kept| - 1;
    KeptPrefix(r, kept, n);
    assert kept[..n] + [kept[n]] == kept;
  }

  lemma {:induction false} KeptPrefix(r: Request, lines: seq<string>, n: int)
    requires Kept(r, lines) == lines && 0 <= n <= |lines|
    ensures Kept(r, lines[..n]) == lines[..n]
  {
    if n > 0 {
      assert lines[..n][1..] == lines[1..][..n - 1];
      assert !Superseded(r, lines[0]);
      assert Kept(r, lines)[1..] == Kept(r, lines[1..]);
      KeptPrefix(r, lines[1..], n - 1);
    }
  }

  // ---------------------------------------------------------------- the next run on a glued line

  lemma {:induction false} ConcatGlued(lines: seq<string>, line: string, more: string)
    ensures Concat(lines + [line] + [more]) == Concat(lines + [line + more])
  {
    ConcatEndWith(lines + [line], more);
    ConcatEndWith(lines, line);
    ConcatEndWith(lines, line + more);
    assert Concat(lines) + line + more == Concat(lines) + (line + more);
  }

  /** A run over a file that ends in the glued line edits that line. */
  lemma {:induction false} GluedRun(r: Request, before: seq<string>, line: string)
    requires AllWhole(before) && Kept(r, before) == before && Whole(line)
    requires forall i | 0 <= i < |before| :: !Matches(r, before[i])
    requires Matches(r, line) && !Superseded(r, line)
    ensures NewLines(r, ReadLines(Concat(before + [line]))) ==
            match EditLine(r, line)
            case None => None
            case Some(edited) => Some(before + [edited])
  {
    var lines := before + [line];
    ReadConcat(lines);
    KeptEndWith(r, before, line);
    NoMatchBefore(r, before);
    FirstMatchLast(r, before, line);
    if EditLine(r, line).Some? {
      assert lines[|before| := EditLine(r, line).value] == before + [EditLine(r, line).value];
    }
  }

  lemma {:induction false} WholeWithOpen(line: string, more: string)
    requires Open(line) && Whole(more)
    ensures Whole(line + more)
  {
    var all := line + more;
    assert all[..|all| - 1] == line + more[..|more| - 1];
  }

  lemma {:induction false} ContainsAppend(a: string, b: string, sub: string)
    requires Contains(b, sub)
    ensures Contains(a + b, sub)
  {
    var i :| 0 <= i <= |b| && OccursAt(b, sub, i);
    assert (a + b)[|a| + i..|a| + i + |sub|] == b[i..i + |sub|];
    assert OccursAt(a + b, sub, |a| + i);
  }

  lemma {:induction false} RemoveHashtagAppend(a: string, b: string)
    requires b != "" && b[0] != '#' && !Space(b[0])
    ensures RemoveHashtag(a + b) == RemoveHashtag(a) + b
  {
    StripLeftAppend(a, b);
    if StripLeft(a) != "" && StripLeft(a)[0] == '#' {
      assert (StripLeft(a) + b)[1..] == StripLeft(a)[1..] + b;
    }
  }

  lemma {:induction false} StripLeftAppend(a: string, b: string)
    requires b != "" && !Space(b[0])
    ensures StripLeft(a + b) == StripLeft(a) + b
  {
    if a == "" {
      assert a + b == b;
    } else if Space(a[0]) {
      assert (a + b)[1..] == a[1..] + b;
      StripLeftAppend(a[1..], b);
    }
  }

  lemma {:induction false} NoneAcross(a: string, pattern: string, b: string)
    requires pattern != "" && pattern[|pattern| - 1] !in pattern[..|pattern| - 1]
    requires 0 < |a| < |pattern|
    ensures (a + pattern + b)[..|pattern|] != pattern
  {
    var n, k := |pattern|, |pattern| - 1 - |a|;
    assert (a + pattern + b)[..n][n - 1] == pattern[k] == pattern[..n - 1][k];
  }

  /** An occurrence of the prefix reaches across neither of its ends. */
  lemma {:induction false} WithoutAround(a: string, pattern: string, b: string)
    requires pattern != "" && pattern[|pattern| - 1] !in pattern[..|pattern| - 1]
    ensures Without(a + pattern + b, pattern) == Without(a, pattern) + Without(b, pattern)
    decreases |a|
  {
    var s, n := a + pattern + b, |pattern|;
    if a == "" {
      assert s == pattern + b;
      WithoutPrefix(pattern, b);
    } else if |a| >= n && a[..n] == pattern {
      assert s[..n] == a[..n] && s[n..] == a[n..] + pattern + b;
      WithoutAround(a[n..], pattern, b);
    } else {
      if |a| < n {
        NoneAcross(a, pattern, b);
      } else {
        assert s[..n] == a[..n];
      }
      assert s[1..] == a[1..] + pattern + b;
      WithoutAround(a[1..], pattern, b);
      WithoutStep(a, pattern);
      Regroup([a[0]], Without(a[1..], pattern), Without(b, pattern));
    }
  }

  lemma {:induction false} WithoutStep(a: string, pattern: string)
    requires pattern != "" && a != "" && !(|a| >= |pattern| && a[..|pattern|] == pattern)
    ensures Without(a, pattern) == [a[0]] + Without(a[1..], pattern)
  {
    assert [a[0]] + a[1..] == a;
  }

  /** What a rewrite reads of an open line in front of the appended one. */
  function Rest(configType: string, line: string): string {
    Without(RemoveHashtag(line), configType + "=")
  }

  lemma {:induction false} AppendedText(configType: string, c: Config)
    requires Clean(configType) && c != [] && Printable(c) && KeysKeepType(c, configType)
    ensures Without(Body(c) + COMMENT, configType + "=") == Body(c) + COMMENT
  {
    NoEqualsInComment();
    WithoutAppend(Body(c), COMMENT, configType + "=");
    TypeKept(configType, c);
    WithoutAbsent(Body(c), configType + "=");
  }

  lemma {:induction false} PrefixGlued(configType: string, bare: string, text: string)
    requires Clean(configType)
    ensures Without(bare + (configType + "=" + text), configType + "=") ==
            Without(bare, configType + "=") + Without(text, configType + "=")
  {
    var pattern := configType + "=";
    assert pattern[..|pattern| - 1] == configType && pattern[|pattern| - 1] == '=';
    WithoutAround(bare, pattern, text);
    assert bare + (pattern + text) == bare + pattern + text;
  }

  lemma {:induction false} GluedTo(configType: string, text: string, line: string)
    requires configType != "" && configType[0] != '#' && !Space(configType[0]) && Clean(configType)
    ensures Without(RemoveHashtag(line + (configType + "=" + text)), configType + "=") ==
            Rest(configType, line) + Without(text, configType + "=")
  {
    var appended := configType + "=" + text;
    assert appended[0] == configType[0];
    RemoveHashtagAppend(line, appended);
    PrefixGlued(configType, RemoveHashtag(line), text);
  }

  /** A glued line is read as the rest of the open line followed by what was appended. */
  lemma {:induction false} GluedText(configType: string, c: Config, line: string)
    requires configType != "" && configType[0] != '#' && !Space(configType[0])
    requires Clean(configType) && c != [] && Printable(c) && KeysKeepType(c, configType)
    ensures Without(RemoveHashtag(line + Printed(configType, c)), configType + "=") ==
            Rest(configType, line) + (Body(c) + COMMENT)
  {
    PrintedShape(configType, c);
    GluedTo(configType, Body(c) + COMMENT, line);
    AppendedText(configType, c);
  }

  lemma {:induction false} PrintedShape(configType: string, c: Config)
    ensures Printed(configType, c) == configType + "=" + (Body(c) + COMMENT)
  {
  }

  // ---------------------------------------------------------------- the items of a glued line

  /** Two splits where the texts meet: the last item of one and the first of the other become one. */
  function Meet(x: seq<string>, y: seq<string>): seq<string>
    requires x != [] && y != []
  {
    x[..|x| - 1] + [x[|x| - 1] + y[0]] + y[1..]
  }

  lemma {:induction false} SplitGlued(a: string, b: string, c: char)
    ensures Split(a + b, c) == Meet(Split(a, c), Split(b, c))
  {
    var y := Split(b, c);
    if a == "" {
      assert a + b == b && "" + y[0] == y[0];
      assert y == [y[0]] + y[1..];
    } else {
      assert (a + b)[1..] == a[1..] + b;
      SplitGlued(a[1..], b, c);
      MeetLonger(a[0], Split(a[1..], c), y);
    }
  }

  lemma {:induction false} MeetLonger(first: char, x: seq<string>, y: seq<string>)
    requires x != [] && y != []
    ensures Meet([""] + x, y) == [""] + Meet(x, y)
    ensures Meet([[first] + x[0]] + x[1..], y) == [[first] + Meet(x, y)[0]] + Meet(x, y)[1..]
  {
    var longer := [[first] + x[0]] + x[1..];
    if |x| == 1 {
      assert ([first] + x[0]) + y[0] == [first] + (x[0] + y[0]);
    } else {
      assert longer[..|x| - 1] == [[first] + x[0]] + x[1..|x| - 1];
      assert Meet(x, y)[1..] == x[1..|x| - 1] + [x[|x| - 1] + y[0]] + y[1..];
    }
  }

  /** The last item is empty exactly when the text is, or ends with a separator. */
  lemma {:induction false} LastItem(s: string, c: char)
    ensures var x := Split(s, c);
            x[|x| - 1] == "" <==> s == "" || s[|s| - 1] == c
  {
    if s != "" {
      LastItem(s[1..], c);
    }
  }

  /** The text before the first equals sign begins its item, and an item stands in its text. */
  lemma {:induction false} FirstPartOccurs(s: string, c: char)
    ensures |Split(s, c)[0]| <= |s| && s[..|Split(s, c)[0]|] == Split(s, c)[0]
  {
    if s != "" {
      FirstPartOccurs(s[1..], c);
    }
  }

  lemma {:induction false} ItemOccurs(s: string, c: char, i: int)
    requires 0 <= i < |Split(s, c)|
    ensures Contains(s, Split(s, c)[i])
  {
    if i == 0 {
      FirstPartOccurs(s, c);
      assert OccursAt(s, Split(s, c)[0], 0);
    } else {
      assert s != "";
      var j := if s[0] == c then i - 1 else i;
      ItemOccurs(s[1..], c, j);
      ContainsAppend([s[0]], s[1..], Split(s, c)[i]);
      assert [s[0]] + s[1..] == s;
    }
  }

  lemma {:induction false} PartOccurs(s: string, item: string)
    requires Contains(s, item)
    ensures Contains(s, Split(item, '=')[0])
  {
    FirstPartOccurs(item, '=');
    var part := Split(item, '=')[0];
    var i :| 0 <= i <= |s| && OccursAt(s, item, i);
    assert s[i..i + |part|] == item[..|part|];
    assert OccursAt(s, part, i);
  }

  lemma {:induction false} PutFinds(c: Config, key: string, setting: Setting, q: string)
    ensures FindEntry(PutEntry(c, key, setting), q) == if q == key then Some(setting) else FindEntry(c, q)
  {
    if c != [] && c[0].key != key {
      PutFinds(c[1..], key, setting, q);
    }
  }

  /** No item, no entry: a key under which nothing is parsed. */
  lemma {:induction false} NotParsed(c: Config, feature: Option<string>, items: seq<string>, key: string)
    requires FindEntry(c, key).None? && forall i | 0 <= i < |items| :: Split(items[i], '=')[0] != key
    ensures FindEntry(ParseItems(c, feature, items), key).None?
    decreases |items|
  {
    if items != [] {
      var (next, current) := ParseItem(c, feature, items[0]);
      forall k, setting ensures FindEntry(PutEntry(c, k, setting), key) ==
                                if key == k then Some(setting) else FindEntry(c, key)
      {
        PutFinds(c, k, setting, key);
      }
      NotParsed(next, current, items[1..], key);
    }
  }

  ghost predicate HasFeature(c: Config, key: string) {
    FindEntry(c, key).Some? && FindEntry(c, key).value.Feature?
  }

  /** A feature once met stays one. */
  lemma {:induction false} StaysFeature(c: Config, feature: string, items: seq<string>, key: string)
    requires HasFeature(c, feature) && HasFeature(c, key)
    ensures HasFeature(ParseItems(c, Some(feature), items), key)
    decreases |items|
  {
    if items != [] {
      var (next, current) := ParseItem(c, Some(feature), items[0]);
      var parts := Split(items[0], '=');
      var options := FindEntry(c, feature).value.params;
      if |parts| > 1 {
        PutFinds(c, feature, Feature(PutParam(options, parts[0], Some(parts[1]))), feature);
        PutFinds(c, feature, Feature(PutParam(options, parts[0], Some(parts[1]))), key);
      } else {
        PutFinds(c, parts[0], Feature([]), parts[0]);
        PutFinds(c, parts[0], Feature([]), key);
      }
      StaysFeature(next, current.value, items[1..], key);
    }
  }

  lemma {:induction false} BareItem(c: Config, feature: Option<string>, items: seq<string>, key: string, i: int)
    requires 0 <= i < |items| && items[i] == key && '=' !in key
    ensures HasFeature(ParseItems(c, feature, items), key)
    decreases |items|
  {
    var (next, current) := ParseItem(c, feature, items[0]);
    if i == 0 {
      SplitClean(key, '=');
      PutFinds(c, key, Feature([]), key);
      StaysFeature(next, key, items[1..], key);
    } else {
      BareItem(next, current, items[1..], key, i - 1);
    }
  }

  // ---------------------------------------------------------------- when an overlay is lost in a glued line

  /** The overlay is not found on the line: it follows a comment, or more of an item than nothing. */
  predicate Sticks(rest: string) {
    '#' in rest || (rest != "" && rest[|rest| - 1] != ',')
  }

  lemma {:induction false} BeforeHashAppend(a: string, b: string)
    ensures BeforeHash(a + b) == if '#' in a then BeforeHash(a) else a + BeforeHash(b)
  {
    if a == "" {
      assert a + b == b;
    } else if a[0] != '#' {
      assert (a + b)[0] == a[0] && (a + b)[1..] == a[1..] + b;
      assert '#' in a <==> '#' in a[1..];
      BeforeHashAppend(a[1..], b);
      if '#' !in a {
        Regroup([a[0]], a[1..], BeforeHash(b));
        assert [a[0]] + a[1..] == a;
      }
    }
  }

  lemma {:induction false} BeforeHashOccurs(s: string, sub: string)
    requires Contains(BeforeHash(s), sub)
    ensures Contains(s, sub)
  {
    BeforeHashPrefix(s);
    var t := BeforeHash(s);
    var i :| 0 <= i <= |t| && OccursAt(t, sub, i);
    assert s[i..i + |sub|] == t[i..i + |sub|];
    assert OccursAt(s, sub, i);
  }

  lemma {:induction false} BeforeHashPrefix(s: string)
    ensures |BeforeHash(s)| <= |s| && s[..|BeforeHash(s)|] == BeforeHash(s)
  {
    if s != "" && s[0] != '#' {
      BeforeHashPrefix(s[1..]);
    }
  }

  /** No item of this text has the feature's name for its key. */
  lemma {:induction false} ForeignItems(s: string, feature: string, i: int)
    requires !Contains(s, feature) && 0 <= i < |Split(s, ',')|
    ensures Split(Split(s, ',')[i], '=')[0] != feature
  {
    ItemOccurs(s, ',', i);
    PartOccurs(s, Split(s, ',')[i]);
  }

  /** What is appended has the items of the overlay line, its last one with blanks. */
  lemma {:induction false} AppendedItems(feature: string, ps: seq<Param>)
    requires Plain(feature) && ps != [] && PlainParams(ps)
    ensures var items := Split(Body([Entry(feature, Feature(ps))]) + BLANKS, ',');
            && |items| == 1 + |ps| && items[0] == feature
            && forall i | 0 <= i < |ps| :: Split(items[1 + i], '=')[0] == ps[i].key
  {
    var c := [Entry(feature, Feature(ps))];
    PlainIsClean(ps);
    SplitBlanked(c);
    ItemsOfOne(c[0]);
    var items := [feature] + PrintParams(ps);
    forall i | 0 <= i < |ps| ensures Split(BlankLast(items)[1 + i], '=')[0] == ps[i].key {
      var p := ps[i];
      assert items[1 + i] == p.key + "=" + p.value.value;
      SplitPair(p.key, p.value.value);
      SplitPair(p.key, p.value.value + BLANKS);
      assert p.key + "=" + p.value.value + BLANKS == p.key + "=" + (p.value.value + BLANKS);
    }
  }

  /** Whether the glued line shows the overlay. */
  lemma {:induction false} OverlayInGlued(rest: string, feature: string, ps: seq<Param>)
    requires Plain(feature) && ps != [] && PlainParams(ps)
    requires !Contains(rest, feature) && feature !in Keys(ps)
    ensures var c := Parsed(rest + (Body([Entry(feature, Feature(ps))]) + COMMENT));
            if Sticks(rest) then FindEntry(c, feature).None? else HasFeature(c, feature)
  {
    var body := Body([Entry(feature, Feature(ps))]);
    BeforeHashAppend(rest, body + COMMENT);
    if '#' in rest {
      CommentHides(rest, feature);
    } else {
      BodyBeforeComment(feature, ps);
      GluedItems(rest, feature, ps);
    }
  }

  lemma {:induction false} CommentHides(rest: string, feature: string)
    requires !Contains(rest, feature)
    ensures FindEntry(ParseItems([], None, Split(BeforeHash(rest), ',')), feature).None?
  {
    if Contains(BeforeHash(rest), feature) {
      BeforeHashOccurs(rest, feature);
    }
    var items := Split(BeforeHash(rest), ',');
    forall i | 0 <= i < |items| ensures Split(items[i], '=')[0] != feature {
      ForeignItems(BeforeHash(rest), feature, i);
    }
    NotParsed([], None, items, feature);
  }

  lemma {:induction false} BodyBeforeComment(feature: string, ps: seq<Param>)
    requires Plain(feature) && ps != [] && PlainParams(ps)
    ensures var body := Body([Entry(feature, Feature(ps))]);
            BeforeHash(body + COMMENT) == body + BLANKS
  {
    var c := [Entry(feature, Feature(ps))];
    PlainIsClean(ps);
    ItemsClean(c);
    JoinClean(Items(c));
    BeforeComment(Body(c));
  }

  lemma {:induction false} GluedItems(rest: string, feature: string, ps: seq<Param>)
    requires Plain(feature) && ps != [] && PlainParams(ps)
    requires !Contains(rest, feature) && feature !in Keys(ps)
    ensures var items := Split(rest + (Body([Entry(feature, Feature(ps))]) + BLANKS), ',');
            var c := ParseItems([], None, items);
            if rest != "" && rest[|rest| - 1] != ',' then FindEntry(c, feature).None? else HasFeature(c, feature)
  {
    var text := Body([Entry(feature, Feature(ps))]) + BLANKS;
    var y := Split(text, ',');
    AppendedItems(feature, ps);
    forall i | 1 <= i < |y| ensures Split(y[i], '=')[0] != feature {
      KeysAt(ps);
      assert y[1 + (i - 1)] == y[i];
      assert Keys(ps)[i - 1] == ps[i - 1].key;
    }
    FeatureInMeeting(rest, text, feature);
  }

  /** The feature begins the appended text, and is an item of its own exactly when the rest leaves it one. */
  lemma {:induction false} FeatureInMeeting(rest: string, text: string, feature: string)
    requires Clean(feature) && !Contains(rest, feature) && Split(text, ',')[0] == feature
    requires forall i | 1 <= i < |Split(text, ',')| :: Split(Split(text, ',')[i], '=')[0] != feature
    ensures var c := ParseItems([], None, Split(rest + text, ','));
            if rest != "" && rest[|rest| - 1] != ',' then FindEntry(c, feature).None? else HasFeature(c, feature)
  {
    var x, y := Split(rest, ','), Split(text, ',');
    var n, items := |x| - 1, Meet(x, y);
    SplitGlued(rest, text, ',');
    LastItem(rest, ',');
    if x[n] == "" {
      assert items[n] == feature;
      BareItem([], None, items, feature, n);
    } else {
      forall i | 0 <= i < |items| ensures Split(items[i], '=')[0] != feature {
        if i < n {
          ForeignItems(rest, feature, i);
        } else if i == n {
          ForeignItems(rest, feature, n);
          GluedKey(x[n], feature);
        } else {
          assert items[i] == y[i - n];
        }
      }
      NotParsed([], None, items, feature);
    }
  }

  lemma {:induction false} GluedKey(item: string, feature: string)
    requires item != "" && Clean(feature) && Split(item, '=')[0] != feature
    ensures Split(item + feature, '=')[0] != feature
  {
    SplitGlued(item, feature, '=');
    SplitClean(feature, '=');
    if '=' !in item {
      SplitClean(item, '=');
    } else {
      SplitsInTwo(item, '=');
    }
  }

  lemma {:induction false} SplitsInTwo(s: string, c: char)
    requires c in s
    ensures |Split(s, c)| > 1
  {
    if s[0] != c {
      SplitsInTwo(s[1..], c);
    }
  }

  // ---------------------------------------------------------------- overlay runs on any file

  /** The line that the first run leaves at the end of a file with an open end. */
  function Glued(r: Request, text: string): string
    requires r.pin.Some?
  {
    Last(r, text) + NewLine(r, r.pin.value)
  }

  /** The open line says nothing of the feature, and no option is named like it. */
  ghost predicate Apart(r: Request, text: string)
    requires r.pin.Some?
  {
    !Contains(Rest(r.configType, Last(r, text)), r.feature) && r.feature !in Keys(First(r))
  }

  lemma {:induction false} OverlayNewLine(r: Request)
    requires Overlay(r)
    ensures NewLine(r, r.pin.value) == OverlayLine(r.feature, First(r))
    ensures First(r) != [] && PlainParams(First(r))
    ensures Whole(NewLine(r, r.pin.value)) && Matches(r, NewLine(r, r.pin.value))
  {
    FirstIsSettled(r);
    SettledIsPlain(r, First(r));
    LineIsWhole(r.feature, First(r));
    LineIsFound(r, First(r));
  }

  /** The first run glues the new line to an open end, and a second run edits the glued line. */
  lemma {:induction false} SecondRun(r: Request, text: string)
    requires r.pin.Some? && Unconfigured(r, text) && !LinesEnd(r, text)
    requires Whole(NewLine(r, r.pin.value)) && Matches(r, NewLine(r, r.pin.value))
    requires !Superseded(r, Glued(r, text))
    ensures Runs(r, text, 1) == Concat(Before(r, text) + [Glued(r, text)])
    ensures NewLines(r, ReadLines(Runs(r, text, 1))) ==
            match EditLine(r, Glued(r, text))
            case None => None
            case Some(edited) => Some(Before(r, text) + [edited])
  {
    var kept, before := Kept(r, ReadLines(text)), Before(r, text);
    OpenEnd(r, text);
    NoMatchBefore(r, kept);
    assert Runs(r, text, 1) == Rewritten(r, Runs(r, text, 0));
    ConcatGlued(before, Last(r, text), NewLine(r, r.pin.value));
    WholeWithOpen(Last(r, text), NewLine(r, r.pin.value));
    ContainsAppend(Last(r, text), NewLine(r, r.pin.value), r.configType);
    ContainsAppend(Last(r, text), NewLine(r, r.pin.value), r.feature);
    assert forall i | 0 <= i < |before| :: before[i] == kept[i];
    GluedRun(r, before, Glued(r, text));
  }

  lemma {:induction false} GluedOverlayText(r: Request, line: string)
    requires Overlay(r)
    ensures First(r) != [] && PlainParams(First(r))
    ensures Rest("dtoverlay", line + NewLine(r, r.pin.value)) ==
            Rest("dtoverlay", line) + (Body([Entry(r.feature, Feature(First(r)))]) + COMMENT)
  {
    OverlayNewLine(r);
    PlainIsClean(First(r));
    GluedText("dtoverlay", [Entry(r.feature, Feature(First(r)))], line);
  }

  lemma {:induction false} GluedOverlayEdit(r: Request, text: string)
    requires Overlay(r) && Apart(r, text)
    ensures EditLine(r, Glued(r, text)).None? <==> Sticks(Rest("dtoverlay", Last(r, text)))
  {
    var rest := Rest("dtoverlay", Last(r, text));
    GluedOverlayText(r, Last(r, text));
    OverlayInGlued(rest, r.feature, First(r));
    OverlayEdited(r, Glued(r, text), Parsed(Rest("dtoverlay", Glued(r, text))));
  }

  /** An overlay's line is edited unless the overlay is not found on it. */
  lemma {:induction false} OverlayEdited(r: Request, line: string, c: Config)
    requires Overlay(r) && Parsed(Rest("dtoverlay", line)) == c
    requires FindEntry(c, r.feature).None? || HasFeature(c, r.feature)
    ensures EditLine(r, line).None? <==> FindEntry(c, r.feature).None?
  {
    assert r.configType + "=" == "dtoverlay=" == "dtoverlay" + "=";
  }

  lemma {:induction false} FailedRun(r: Request, text: string)
    requires NewLines(r, ReadLines(text)).None?
    ensures Rewritten(r, text) == text
  {
  }

  lemma {:induction false} Stays(texts: nat -> string, m: nat, n: nat)
    requires m <= n && forall k: nat | texts(k) == texts(m) :: texts(k + 1) == texts(m)
    ensures texts(n) == texts(m)
    decreases n
  {
    if m < n {
      Stays(texts, m, n - 1);
    }
  }

  lemma {:induction false} RunsStay(r: Request, text: string, n: nat, settled: string)
    requires n >= 1 && Runs(r, text, 1) == settled && Rewritten(r, settled) == settled
    ensures Runs(r, text, n) == settled
  {
    var texts := (k: nat) => Runs(r, text, k);
    forall k: nat | texts(k) == texts(1) ensures texts(k + 1) == texts(1) {
      NextRun(r, text, k, settled, settled);
    }
    Stays(texts, 1, n);
    assert texts(n) == Runs(r, text, n);
  }

  /**
   Running the same overlay write over and over on a file that lacks the line. Where
   every line ends, the file stays the same from the second run on exactly when the
   pin is stored under one of the pin nouns or there are further settings. Otherwise
   the new line is glued to the open one, and all later runs fail and leave the file
   as it is exactly when what the open line says ends in a comment or inside an item.
   */
  lemma {:induction false} RerunsSettle(r: Request, text: string)
    requires Overlay(r) && Unconfigured(r, text)
    ensures LinesEnd(r, text) ==> ((forall n: nat | n >= 2 :: Runs(r, text, n) == Runs(r, text, 2)) <==> Told(r))
    ensures !LinesEnd(r, text) && Apart(r, text) && !Superseded(r, Glued(r, text)) ==>
              && Runs(r, text, 1) == Concat(Before(r, text) + [Glued(r, text)])
              && ((forall n: nat | n >= 1 :: Failing(r, text, n)) <==> Sticks(Rest("dtoverlay", Last(r, text))))
  {
    if LinesEnd(r, text) {
      RunsSettleExactly(r, text);
    } else if Apart(r, text) && !Superseded(r, Glued(r, text)) {
      OverlayNewLine(r);
      SecondRun(r, text);
      GluedOverlayEdit(r, text);
      if Sticks(Rest("dtoverlay", Last(r, text))) {
        FailedRun(r, Runs(r, text, 1));
        forall n: nat | n >= 1 ensures Failing(r, text, n) {
          RunsStay(r, text, n, Runs(r, text, 1));
        }
      } else {
        assert !Failing(r, text, 1);
      }
    }
  }

  /** After n runs the next one fails, with the file as the first run left it. */
  predicate Failing(r: Request, text: string, n: nat) {
    Runs(r, text, n) == Runs(r, text, 1) && NewLines(r, ReadLines(Runs(r, text, n))).None?
  }

  /** The new line is lost in an open one, as far as a later run can see. */
  ghost predicate Stuck(r: Request, text: string)
    requires r.pin.Some?
  {
    && !LinesEnd(r, text) && Apart(r, text) && !Superseded(r, Glued(r, text))
    && Sticks(Rest("dtoverlay", Last(r, text)))
  }

  lemma {:induction false} StuckRuns(r: Request, text: string, n: nat)
    requires Overlay(r) && Unconfigured(r, text) && Stuck(r, text) && n >= 1
    ensures Failing(r, text, n)
  {
    RerunsSettle(r, text);
  }

  /**
   A lone pin under a name that is no pin noun: its value grows by two blanks at
   every run, unless it was lost in an open line.
   */
  lemma {:induction false} RunsGrow(r: Request, text: string, n: nat)
    requires Overlay(r) && Unconfigured(r, text) && !Told(r)
    ensures LinesEnd(r, text) ==> Runs(r, text, n + 1) == WithLine(r, text, Padded(r, n))
    ensures Stuck(r, text) ==> Failing(r, text, n + 1)
  {
    if LinesEnd(r, text) {
      LinesGrow(r, text, n);
    } else if Stuck(r, text) {
      StuckRuns(r, text, n + 1);
    }
  }

  /** Without further settings the second run changes nothing, whether the line ended or the pin was lost. */
  lemma {:induction false} PinAloneSettlesAtOnce(r: Request, text: string)
    requires Overlay(r) && Unconfigured(r, text) && r.add == [] && r.pinType in NOUNS
    ensures LinesEnd(r, text) || Stuck(r, text) ==> Runs(r, text, 2) == Runs(r, text, 1)
  {
    if LinesEnd(r, text) {
      LinePinSettles(r, text);
    } else if Stuck(r, text) {
      StuckRuns(r, text, 2);
    }
  }

  /** For instance a file that consists of `a=1` without a newline never gets its overlay. */
  lemma {:induction false} OpenEndExample(n: nat)
    requires n >= 1
    ensures Failing(ONE_WIRE, "a=1", n)
  {
    OneWireIsStuck("a=1");
    StuckRuns(ONE_WIRE, "a=1", n);
  }

  lemma {:induction false} OneWireIsStuck(text: string)
    requires text == "a=1"
    ensures Overlay(ONE_WIRE) && Unconfigured(ONE_WIRE, text) && Stuck(ONE_WIRE, text)
  {
    OpenLineRead(text, ONE_WIRE);
    OneWireIsOverlay();
    assert Rest("dtoverlay", text) == text;
    assert First(ONE_WIRE) == [Param("gpio_pin", Some(IntText(4)))];
    assert First(ONE_WIRE)[1..] == [] && Keys(First(ONE_WIRE)) == ["gpio_pin"];
  }

  const ONE_WIRE := Request("dtoverlay", "w1-gpio", [], Some(4), "", "gpio_pin")

  lemma {:induction false} OneWireIsOverlay()
    ensures Overlay(ONE_WIRE)
  {
    assert "gpio_pin" != "dtoverlay";
  }

  lemma {:induction false} OpenLineRead(text: string, r: Request)
    requires text == "a=1"
    ensures ReadLines(text) == [text] && Kept(r, ReadLines(text)) == [text]
    ensures !LinesEnd(r, text) && Before(r, text) == [] && Last(r, text) == text
  {
    OpenLine(text);
    assert StripLeft(text) == text;
    assert [text][1..] == [];
  }

  // ---------------------------------------------------------------- parameter runs on any file

  lemma {:induction false} ParamNewLine(r: Request)
    requires Parameter(r)
    ensures NewLine(r, r.pin.value) == ParamLine(r.feature, "on")
    ensures Whole(NewLine(r, r.pin.value)) && Matches(r, NewLine(r, r.pin.value))
  {
    ParamLineIsWhole(r.feature, "on");
    ParamLineIsFound(r, "on");
  }

  /** What the rewrite of a parameter's glued line prints. */
  function GluedParameters(r: Request, text: string): Config
    requires r.pin.Some?
  {
    PutEntry(Parsed(Rest("dtparam", Glued(r, text))), r.feature, Text(Wanted(r)))
  }

  /**
   A parameter write on a file without the line first stores "on", whatever value
   was asked for, and never fails. Where every line ends, the second run stores the
   value, and it stays, so that one run is enough exactly when "on" was wanted.
   Otherwise the second run stores it on the line that the open one became part of.
   */
  lemma {:induction false} ParameterNeedsTwoRuns(r: Request, text: string)
    requires Parameter(r) && Unconfigured(r, text)
    ensures Runs(r, text, 1) == WithParam(r, text, "on")
    ensures forall n: nat :: NewLines(r, ReadLines(Runs(r, text, n))).Some?
    ensures LinesEnd(r, text) ==>
              && (forall n: nat | n >= 2 :: Runs(r, text, n) == WithParam(r, text, Wanted(r)))
              && (Runs(r, text, 1) == Runs(r, text, 2) <==> Wanted(r) == "on")
    ensures !LinesEnd(r, text) ==>
              && Runs(r, text, 2) == Concat(Before(r, text) + [Printed("dtparam", GluedParameters(r, text))])
              && FindEntry(GluedParameters(r, text), r.feature) == Some(Text(Wanted(r)))
  {
    ParamAppended(r, text);
    if LinesEnd(r, text) {
      ParamRunsExactly(r, text);
    } else {
      ParamNewLine(r);
      SecondRun(r, text);
      assert r.configType + "=" == "dtparam=";
      NextRun(r, text, 1, Runs(r, text, 1), Rewritten(r, Runs(r, text, 1)));
      PutFinds(Parsed(Rest("dtparam", Glued(r, text))), r.feature, Text(Wanted(r)), r.feature);
    }
  }

  /** What `a=1` without a newline becomes: its value swallows the parameter's name. */
  function Swallowed(r: Request): Config {
    [Entry("a", Text("1" + r.feature)), Entry(r.feature, Text(Wanted(r)))]
  }

  lemma {:induction false} SwallowedRead(r: Request)
    requires Parameter(r)
    ensures Parsed("a=1" + (Body([Entry(r.feature, Text("on"))]) + COMMENT)) == [Entry("a", Text("1" + r.feature))]
  {
    var text := "a=1" + (r.feature + "=on");
    ItemsOfOne(Entry(r.feature, Text("on")));
    assert r.feature + "=" + "on" == r.feature + "=on";
    assert Body([Entry(r.feature, Text("on"))]) == r.feature + "=on";
    assert "a=1" + (r.feature + "=on" + COMMENT) == text + COMMENT;
    BeforeComment(text);
    SwallowedParse(r.feature);
  }

  lemma {:induction false} SwallowedParse(feature: string)
    requires Plain(feature)
    ensures ParseItems([], None, Split("a=1" + (feature + "=on") + BLANKS, ',')) == [Entry("a", Text("1" + feature))]
  {
    var value, last := "1" + feature, "on" + BLANKS;
    var text := "a=1" + (feature + "=on") + BLANKS;
    SplitClean(text, ',');
    assert text == "a" + ['='] + (value + ['='] + last);
    SplitAt("a", value + ['='] + last, '=');
    SplitAt(value, last, '=');
    SplitClean(last, '=');
    assert Split(text, '=') == ["a", value, last];
    assert [text][1..] == [];
  }

  lemma {:induction false} SwallowedIsPrintable(r: Request)
    requires Parameter(r) && r.feature != "a"
    ensures Printable(Swallowed(r)) && KeysKeepType(Swallowed(r), "dtparam")
    ensures PutEntry(Blanked(Swallowed(r)), r.feature, Text(Wanted(r))) == Swallowed(r)
  {
    var c := Swallowed(r);
    var a, b := c[0], Entry(r.feature, Text(Wanted(r) + BLANKS));
    assert Blanked(c) == [a] + [b];
    assert [a] + [b] == [a, b] && [a, b][1..] == [b] && [b][1..] == [];
  }

  /** How a parameter's line is edited. */
  lemma {:induction false} ParamEdited(r: Request, line: string, c: Config)
    requires Parameter(r) && Parsed(Rest("dtparam", line)) == c
    ensures EditLine(r, line) == Some(Printed("dtparam", PutEntry(c, r.feature, Text(Wanted(r)))))
  {
    assert r.configType + "=" == "dtparam=" == "dtparam" + "=";
  }

  lemma {:induction false} SwallowedAgain(r: Request, line: string)
    requires Parameter(r) && r.feature != "a"
    requires line == Printed("dtparam", Swallowed(r)) && RemoveHashtag(line) == line
    ensures EditLine(r, line) == Some(line)
  {
    SwallowedIsPrintable(r);
    ParseUndoesBuild("dtparam", Swallowed(r));
    ParamEdited(r, line, Blanked(Swallowed(r)));
  }

  lemma {:induction false} SwallowedText(r: Request)
    ensures Printed("dtparam", Swallowed(r)) ==
            "dtparam=a=1" + r.feature + "," + r.feature + "=" + Wanted(r) + COMMENT
  {
    var c := Swallowed(r);
    LineEndWith("dtparam", [c[0]], c[1]);
    ItemsOfOne(c[0]);
    assert [c[0]] + [c[1]] == c;
    assert "dtparam" + "=" + ("a" + "=" + ("1" + r.feature)) == "dtparam=a=1" + r.feature;
  }

  lemma {:induction false} SwallowedIsOneLine(feature: string, value: string)
    requires Plain(feature) && Plain(value)
    ensures '\n' !in "dtparam=a=1" + feature + "," + feature + "=" + value
  {
    assert '\n' !in "dtparam=a=1" && '\n' !in "," && '\n' !in "=";
    NoNewline("dtparam=a=1", feature);
    NoNewline("dtparam=a=1" + feature, ",");
    NoNewline("dtparam=a=1" + feature + ",", feature);
    NoNewline("dtparam=a=1" + feature + "," + feature, "=");
    NoNewline("dtparam=a=1" + feature + "," + feature + "=", value);
  }

  lemma {:induction false} SwallowedIsWhole(r: Request)
    requires Parameter(r)
    ensures Whole(Printed("dtparam", Swallowed(r)))
  {
    SwallowedIsOneLine(r.feature, Wanted(r));
    CommentedIsWhole("dtparam=a=1" + r.feature + "," + r.feature + "=" + Wanted(r));
    SwallowedText(r);
  }

  lemma {:induction false} SwallowedIsFound(r: Request)
    requires r.configType == "dtparam"
    ensures var line := Printed("dtparam", Swallowed(r));
            Matches(r, line) && RemoveHashtag(line) == line
  {
    var line := Printed("dtparam", Swallowed(r));
    SwallowedText(r);
    assert line[0..7] == "dtparam" && OccursAt(line, "dtparam", 0);
    assert line[11..11 + |r.feature|] == r.feature && OccursAt(line, r.feature, 11);
    assert line[0] == 'd' && StripLeft(line) == line;
  }

  lemma {:induction false} SwallowedEdit(r: Request)
    requires Parameter(r) && r.feature != "a"
    ensures EditLine(r, "a=1" + ParamLine(r.feature, "on")) == Some(Printed("dtparam", Swallowed(r)))
  {
    var c := [Entry(r.feature, Text("on"))];
    GluedText("dtparam", c, "a=1");
    assert Rest("dtparam", "a=1") == "a=1";
    SwallowedRead(r);
    ParamEdited(r, "a=1" + ParamLine(r.feature, "on"), [Entry("a", Text("1" + r.feature))]);
    assert [Entry("a", Text("1" + r.feature))][1..] == [];
  }

  lemma {:induction false} SwallowedRun(r: Request)
    requires Parameter(r) && r.feature != "a"
    ensures Rewritten(r, Printed("dtparam", Swallowed(r))) == Printed("dtparam", Swallowed(r))
  {
    var line := Printed("dtparam", Swallowed(r));
    SwallowedIsWhole(r);
    SwallowedIsFound(r);
    SwallowedAgain(r, line);
    ConcatOne(line);
    GluedRun(r, [], line);
    assert [] + [line] == [line];
  }

  lemma {:induction false} ConcatOne(line: string)
    ensures Concat([line]) == line
  {
    assert [line][1..] == [];
  }

  lemma {:induction false} OpenParameterRun(r: Request)
    requires Parameter(r) && r.feature != "a"
    ensures Rewritten(r, Runs(r, "a=1", 1)) == Printed("dtparam", Swallowed(r))
  {
    var line := Printed("dtparam", Swallowed(r));
    OpenLineRead("a=1", r);
    ParamNewLine(r);
    SecondRun(r, "a=1");
    SwallowedEdit(r);
    ConcatOne(line);
    assert [] + [line] == [line];
  }

  /** From the second run on the file `a=1` reads the parameter, and no longer `a=1`. */
  lemma {:induction false} OpenParameterExample(r: Request, n: nat)
    requires Parameter(r) && r.feature != "a" && n >= 2
    ensures Runs(r, "a=1", n) == Printed("dtparam", Swallowed(r))
  {
    var line := Printed("dtparam", Swallowed(r));
    if n == 2 {
      OpenParameterRun(r);
      NextRun(r, "a=1", 1, Runs(r, "a=1", 1), line);
    } else {
      OpenParameterExample(r, n - 1);
      SwallowedRun(r);
      NextRun(r, "a=1", n - 1, line, line);
    }
  }
}
