/**
 Lines of a Raspberry Pi config.txt: parsing one into its components, printing
 components as a line, and the rewrite that must settle when it is repeated.
 Dictionaries keep insertion order, because printing follows it.
 */
module BoardConfig {
  import opened Texts
  import opened Wrappers

  // ---------------------------------------------------------------- strings

  predicate OccursAt(s: string, sub: string, i: int) {
    0 <= i <= |s| - |sub| && s[i..i + |sub|] == sub
  }

  /** `s.split(c)`. */
  function Split(s: string, c: char): (parts: seq<string>)
    ensures parts != []
    decreases |s|
  {
    if s == "" then [""]
    else
      var rest := Split(s[1..], c);
      if s[0] == c then [""] + rest else [[s[0]] + rest[0]] + rest[1..]
  }

  function Join(parts: seq<string>, c: char): string {
    if parts == [] then "" else if |parts| == 1 then parts[0] else parts[0] + [c] + Join(parts[1..], c)
  }

  /** The text before a comment. */
  function BeforeHash(s: string): string {
    if s == "" || s[0] == '#' then "" else [s[0]] + BeforeHash(s[1..])
  }

  // ---------------------------------------------------------------- components

  /** An option of a feature; without a value it prints as its key alone. */
  datatype Param = Param(key: string, value: Option<string>)

  datatype Setting = Text(value: string) | Feature(params: seq<Param>)

  datatype Entry = Entry(key: string, setting: Setting)

  type Config = seq<Entry>

  function PutParam(ps: seq<Param>, key: string, value: Option<string>): seq<Param> {
    if ps == [] then [Param(key, value)]
    else if ps[0].key == key then [Param(key, value)] + ps[1..]
    else [ps[0]] + PutParam(ps[1..], key, value)
  }

  function PutEntry(c: Config, key: string, setting: Setting): Config {
    if c == [] then [Entry(key, setting)]
    else if c[0].key == key then [Entry(key, setting)] + c[1..]
    else [c[0]] + PutEntry(c[1..], key, setting)
  }

  function FindEntry(c: Config, key: string): Option<Setting> {
    if c == [] then None else if c[0].key == key then Some(c[0].setting) else FindEntry(c[1..], key)
  }

  // ---------------------------------------------------------------- parsing

  /** One comma-separated item, given the feature that options belong to. */
  function ParseItem(c: Config, feature: Option<string>, item: string): (Config, Option<string>) {
    var parts := Split(item, '=');
    if |parts| > 1 then
      (if feature.Some? && FindEntry(c, feature.value).Some? && FindEntry(c, feature.value).value.Feature? then
         var options := FindEntry(c, feature.value).value.params;
         PutEntry(c, feature.value, Feature(PutParam(options, parts[0], Some(parts[1]))))
       else PutEntry(c, parts[0], Text(parts[1])), feature)
    else (PutEntry(c, parts[0], Feature([])), Some(parts[0]))
  }

  function ParseItems(c: Config, feature: Option<string>, items: seq<string>): Config
    decreases |items|
  {
    if items == [] then c
    else
      var (next, current) := ParseItem(c, feature, items[0]);
      ParseItems(next, current, items[1..])
  }

  function Parsed(line: string): Config {
    ParseItems([], None, Split(BeforeHash(line), ','))
  }

  // ---------------------------------------------------------------- printing

  const BLANKS := "  "
  // In pieces, so that the verifier can tell what is not in it.
  const SIGNATURE := " Modified" + " by PiFire" + " Board" + " Configuration" + " Utility\n"
  const COMMENT := BLANKS + "#" + SIGNATURE

  function PrintParam(p: Param): string {
    if p.value.Some? then p.key + "=" + p.value.value else p.key
  }

  function PrintParams(ps: seq<Param>): seq<string> {
    seq(|ps|, i requires 0 <= i < |ps| => PrintParam(ps[i]))
  }

  function PrintEntry(e: Entry): (items: seq<string>)
    ensures items != []
  {
    match e.setting
    case Text(value) => [e.key + "=" + value]
    case Feature(params) => [e.key] + PrintParams(params)
  }

  function Items(c: Config): seq<string> {
    if c == [] then [] else PrintEntry(c[0]) + Items(c[1..])
  }

  function Printed(configType: string, c: Config): string {
    configType + "=" + Join(Items(c), ',') + COMMENT
  }

  // ---------------------------------------------------------------- clean tokens

  predicate Clean(s: string) {
    '#' !in s && ',' !in s && '=' !in s
  }

  ghost predicate CleanParams(ps: seq<Param>) {
    && (forall i | 0 <= i < |ps| :: Clean(ps[i].key) && ps[i].value.Some? && Clean(ps[i].value.value))
    && (forall i, j | 0 <= i < j < |ps| :: ps[i].key != ps[j].key)
  }

  /** String entries with distinct keys, at most the last one a feature, and no separator in any token. */
  ghost predicate Printable(c: Config) {
    && DistinctEntries(c) && CleanEntries(c)
    && forall i | 0 <= i < |c| - 1 :: c[i].setting.Text?
  }

  ghost predicate DistinctEntries(c: Config) {
    forall i, j | 0 <= i < j < |c| :: c[i].key != c[j].key
  }

  ghost predicate CleanEntries(c: Config) {
    forall i | 0 <= i < |c| :: CleanEntry(c[i])
  }

  ghost predicate CleanEntry(e: Entry) {
    Clean(e.key) && match e.setting case Text(value) => Clean(value) case Feature(params) => CleanParams(params)
  }

  /** The config with the two blanks before the comment added to its last token. */
  function Blanked(c: Config): Config {
    if c == [] then []
    else
      var n := |c| - 1;
      c[..n] +
      match c[n].setting
      case Text(value) => [Entry(c[n].key, Text(value + BLANKS))]
      case Feature(params) =>
        if params == [] then [Entry(c[n].key + BLANKS, Feature([]))]
        else [Entry(c[n].key, Feature(BlankedParams(params)))]
  }

  function BlankedParams(ps: seq<Param>): seq<Param>
    requires ps != []
  {
    var m := |ps| - 1;
    ps[m := Param(ps[m].key, if ps[m].value.Some? then Some(ps[m].value.value + BLANKS) else None)]
  }

  // ---------------------------------------------------------------- splitting what was joined

  lemma {:induction false} SplitClean(s: string, c: char)
    requires c !in s
    ensures Split(s, c) == [s]
  {
    if s != "" {
      SplitClean(s[1..], c);
      assert s == [s[0]] + s[1..];
    }
  }

  lemma {:induction false} SplitAt(a: string, b: string, c: char)
    requires c !in a
    ensures Split(a + [c] + b, c) == [a] + Split(b, c)
  {
    var s := a + [c] + b;
    if a == "" {
      assert s[1..] == b;
    } else {
      assert s[1..] == a[1..] + [c] + b;
      SplitAt(a[1..], b, c);
      assert a == [a[0]] + a[1..];
    }
  }

  lemma {:induction false} SplitJoin(items: seq<string>, c: char)
    requires items != [] && forall i | 0 <= i < |items| :: c !in items[i]
    ensures Split(Join(items, c), c) == items
  {
    if |items| == 1 {
      SplitClean(items[0], c);
    } else {
      SplitJoin(items[1..], c);
      SplitAt(items[0], Join(items[1..], c), c);
    }
  }

  lemma {:induction false} BeforeHashAt(a: string, rest: string)
    requires '#' !in a
    ensures BeforeHash(a + "#" + rest) == a
  {
    var s := a + "#" + rest;
    if a == "" {
      assert s[0] == '#';
    } else {
      assert s[1..] == a[1..] + "#" + rest;
      BeforeHashAt(a[1..], rest);
    }
  }

  function BlankLast(items: seq<string>): seq<string>
    requires items != []
  {
    items[|items| - 1 := items[|items| - 1] + BLANKS]
  }

  lemma {:induction false} JoinBlankLast(items: seq<string>, c: char)
    requires items != []
    ensures Join(items, c) + BLANKS == Join(BlankLast(items), c)
  {
    if |items| > 1 {
      JoinBlankLast(items[1..], c);
      assert BlankLast(items)[1..] == BlankLast(items[1..]);
    }
  }

  lemma {:induction false} JoinClean(items: seq<string>)
    requires forall i | 0 <= i < |items| :: '#' !in items[i]
    ensures '#' !in Join(items, ',')
  {
    if |items| > 1 {
      JoinClean(items[1..]);
    }
  }

  // ---------------------------------------------------------------- parsing undoes printing

  lemma {:induction false} SplitPair(key: string, value: string)
    requires Clean(key) && Clean(value)
    ensures Split(key + "=" + value, '=') == [key, value]
  {
    SplitAt(key, value, '=');
    SplitClean(value, '=');
  }

  lemma {:induction false} PutNewEntry(c: Config, key: string, setting: Setting)
    requires forall i | 0 <= i < |c| :: c[i].key != key
    ensures PutEntry(c, key, setting) == c + [Entry(key, setting)]
    ensures FindEntry(c + [Entry(key, setting)], key) == Some(setting)
  {
    if c != [] {
      PutNewEntry(c[1..], key, setting);
      assert (c + [Entry(key, setting)])[1..] == c[1..] + [Entry(key, setting)];
    }
  }

  lemma {:induction false} PutLastEntry(c: Config, key: string, before: Setting, after: Setting)
    requires forall i | 0 <= i < |c| :: c[i].key != key
    ensures PutEntry(c + [Entry(key, before)], key, after) == c + [Entry(key, after)]
  {
    var d := c + [Entry(key, before)];
    if c == [] {
      assert d == [Entry(key, before)] && d[1..] == [];
    } else {
      assert d[1..] == c[1..] + [Entry(key, before)];
      PutLastEntry(c[1..], key, before, after);
    }
  }

  lemma {:induction false} PutNewParam(ps: seq<Param>, key: string, value: Option<string>)
    requires forall i | 0 <= i < |ps| :: ps[i].key != key
    ensures PutParam(ps, key, value) == ps + [Param(key, value)]
  {
    if ps != [] {
      PutNewParam(ps[1..], key, value);
    }
  }

  lemma {:induction false} ParseParams(c: Config, key: string, done: seq<Param>, ps: seq<Param>)
    requires CleanParams(done + ps) && forall i | 0 <= i < |c| :: c[i].key != key
    ensures ParseItems(c + [Entry(key, Feature(done))], Some(key), PrintParams(ps)) ==
            c + [Entry(key, Feature(done + ps))]
    decreases |ps|
  {
    if ps == [] {
      assert done + ps == done;
    } else {
      var p := ps[0];
      assert (done + ps)[|done|] == p;
      SplitPair(p.key, p.value.value);
      PutNewEntry(c, key, Feature(done));
      forall i | 0 <= i < |done| ensures done[i].key != p.key {
        assert (done + ps)[i] == done[i];
      }
      PutNewParam(done, p.key, p.value);
      PutLastEntry(c, key, Feature(done), Feature(done + [p]));
      assert PrintParams(ps)[1..] == PrintParams(ps[1..]) && PrintParams(ps)[0] == p.key + "=" + p.value.value;
      assert done + [p] + ps[1..] == done + ps;
      ParseParams(c, key, done + [p], ps[1..]);
    }
  }

  lemma {:induction false} NextIsNew(done: Config, rest: Config)
    requires Printable(done + rest) && rest != []
    ensures CleanEntry(rest[0]) && (rest[0].setting.Feature? ==> rest == [rest[0]])
    ensures forall i | 0 <= i < |done| :: done[i].key != rest[0].key
  {
    var all := done + rest;
    assert all[|done|] == rest[0];
    assert forall i | 0 <= i < |done| :: all[i] == done[i];
  }

  /** Items printed from a printable config parse back to it. */
  lemma {:induction false} ParsePrint(done: Config, rest: Config)
    requires Printable(done + rest)
    ensures ParseItems(done, None, Items(rest)) == done + rest
    decreases |rest|
  {
    if rest == [] {
      assert done + rest == done;
    } else {
      if rest[0].setting.Text? {
        TextStep(done, rest);
        ParsePrint(done + [rest[0]], rest[1..]);
      } else {
        FeatureStep(done, rest);
      }
    }
  }

  lemma {:induction false} TextStep(done: Config, rest: Config)
    requires Printable(done + rest) && rest != [] && rest[0].setting.Text?
    ensures (done + [rest[0]]) + rest[1..] == done + rest
    ensures ParseItems(done, None, Items(rest)) == ParseItems(done + [rest[0]], None, Items(rest[1..]))
  {
    MoveOne(done, rest);
    NextIsNew(done, rest);
    var e := rest[0];
    assert e == Entry(e.key, Text(e.setting.value));
    assert PrintEntry(e) == [e.key + "=" + e.setting.value];
    ParseText(done, e.key, e.setting.value, Items(rest[1..]));
  }

  lemma {:induction false} MoveOne(done: Config, rest: Config)
    requires rest != []
    ensures (done + [rest[0]]) + rest[1..] == done + rest
  {
  }

  lemma {:induction false} FeatureStep(done: Config, rest: Config)
    requires Printable(done + rest) && rest != [] && rest[0].setting.Feature?
    ensures ParseItems(done, None, Items(rest)) == done + rest
  {
    NextIsNew(done, rest);
    ItemsOfOne(rest[0]);
    ParseFeature(done, rest[0].key, rest[0].setting.params);
  }

  lemma {:induction false} ParseText(done: Config, key: string, value: string, items: seq<string>)
    requires Clean(key) && Clean(value) && forall i | 0 <= i < |done| :: done[i].key != key
    ensures ParseItems(done, None, [key + "=" + value] + items) ==
            ParseItems(done + [Entry(key, Text(value))], None, items)
  {
    var all := [key + "=" + value] + items;
    assert all[0] == key + "=" + value && all[1..] == items;
    SplitPair(key, value);
    PutNewEntry(done, key, Text(value));
  }

  lemma {:induction false} ParseFeature(done: Config, key: string, params: seq<Param>)
    requires Clean(key) && CleanParams(params) && forall i | 0 <= i < |done| :: done[i].key != key
    ensures ParseItems(done, None, [key] + PrintParams(params)) == done + [Entry(key, Feature(params))]
  {
    var items := [key] + PrintParams(params);
    assert items[0] == key && items[1..] == PrintParams(params);
    SplitClean(key, '=');
    PutNewEntry(done, key, Feature([]));
    assert [] + params == params;
    ParseParams(done, key, [], params);
  }

  /** The comment's blanks, when they land on a bare feature key, do not turn it into an earlier key. */
  ghost predicate NoBlankTwin(c: Config)
    requires c != []
  {
    var last := c[|c| - 1];
    last.setting == Feature([]) ==> forall i | 0 <= i < |c| - 1 :: c[i].key != last.key + BLANKS
  }

  lemma {:induction false} BlankedItems(c: Config)
    requires c != [] && Printable(c)
    ensures Items(Blanked(c)) == BlankLast(Items(c))
  {
    var n := |c| - 1;
    BlankedSplits(c);
    BlankedEntry(c);
    ItemsEndWith(c[..n], c[n]);
    ItemsEndWith(c[..n], Blanked(c)[n]);
    BlankLastConcat(Items(c[..n]), PrintEntry(c[n]));
  }

  lemma {:induction false} BlankedSplits(c: Config)
    requires c != []
    ensures c == c[..|c| - 1] + [c[|c| - 1]]
    ensures |Blanked(c)| == |c| && Blanked(c) == c[..|c| - 1] + [Blanked(c)[|c| - 1]]
  {
  }

  lemma {:induction false} ItemsEndWith(c: Config, e: Entry)
    ensures Items(c + [e]) == Items(c) + PrintEntry(e)
  {
    ItemsConcat(c, [e]);
    ItemsOfOne(e);
  }

  lemma {:induction false} BlankLastConcat(a: seq<string>, b: seq<string>)
    requires b != []
    ensures BlankLast(a + b) == a + BlankLast(b)
  {
  }

  lemma {:induction false} ItemsOfOne(e: Entry)
    ensures Items([e]) == PrintEntry(e)
  {
    assert [e][1..] == [];
  }

  lemma {:induction false} BlankedPrintable(c: Config)
    requires c != [] && Printable(c) && NoBlankTwin(c)
    ensures Printable(Blanked(c))
  {
    var n := |c| - 1;
    var b := Blanked(c);
    assert forall i | 0 <= i < n :: b[i] == c[i];
    match c[n].setting
    case Text(value) =>
    case Feature(params) =>
      if params != [] {
        BlankedParamsClean(params);
      }
  }

  lemma {:induction false} BlankedParamsClean(ps: seq<Param>)
    requires ps != [] && CleanParams(ps)
    ensures CleanParams(BlankedParams(ps))
  {
    var m := |ps| - 1;
    assert Clean(ps[m].value.value + BLANKS);
    assert forall i | 0 <= i < |ps| :: BlankedParams(ps)[i].key == ps[i].key;
  }

  lemma {:induction false} BlankedEntry(c: Config)
    requires c != [] && Printable(c)
    ensures PrintEntry(Blanked(c)[|c| - 1]) == BlankLast(PrintEntry(c[|c| - 1]))
  {
    var n := |c| - 1;
    match c[n].setting
    case Text(value) =>
      assert c[n].key + "=" + value + BLANKS == c[n].key + "=" + (value + BLANKS);
    case Feature(params) =>
      if params != [] {
        var m := |params| - 1;
        var p := params[m];
        assert p.key + "=" + p.value.value + BLANKS == p.key + "=" + (p.value.value + BLANKS);
        assert PrintParams(BlankedParams(params)) == BlankLast(PrintParams(params));
      }
  }

  lemma {:induction false} ItemsConcat(a: Config, b: Config)
    ensures Items(a + b) == Items(a) + Items(b)
  {
    if a == [] {
      assert a + b == b;
    } else {
      assert (a + b)[1..] == a[1..] + b;
      ItemsConcat(a[1..], b);
    }
  }

  lemma {:induction false} ItemsClean(c: Config)
    requires CleanEntries(c)
    ensures forall i | 0 <= i < |Items(c)| :: ',' !in Items(c)[i] && '#' !in Items(c)[i]
  {
    if c != [] {
      ItemsClean(c[1..]);
      assert Clean(c[0].key);
    }
  }

  // ---------------------------------------------------------------- the type prefix

  /** A key that ends like the configuration type would lose that part with the prefix. */
  predicate EndsWith(s: string, suffix: string) {
    |suffix| <= |s| && s[|s| - |suffix|..] == suffix
  }

  ghost predicate Absent(s: string, pattern: string) {
    forall i :: !OccursAt(s, pattern, i)
  }

  lemma {:induction false} WithoutAbsent(s: string, pattern: string)
    requires pattern != "" && Absent(s, pattern)
    ensures Without(s, pattern) == s
    decreases |s|
  {
    if |s| >= |pattern| {
      assert !OccursAt(s, pattern, 0);
      forall i ensures !OccursAt(s[1..], pattern, i) {
        if 0 <= i <= |s[1..]| - |pattern| {
          assert s[1..][i..i + |pattern|] == s[i + 1..i + 1 + |pattern|];
          assert !OccursAt(s, pattern, i + 1);
        }
      }
      WithoutAbsent(s[1..], pattern);
    }
  }

  /** A pattern that lacks a character cannot occur across it. */
  lemma {:induction false} AbsentAcross(a: string, c: char, b: string, pattern: string)
    requires pattern != "" && c !in pattern && Absent(a, pattern) && Absent(b, pattern)
    ensures Absent(a + [c] + b, pattern)
  {
    var s, n := a + [c] + b, |pattern|;
    forall i ensures !OccursAt(s, pattern, i) {
      if 0 <= i <= |s| - n {
        if i + n <= |a| {
          assert s[i..i + n] == a[i..i + n];
          assert !OccursAt(a, pattern, i);
        } else if i > |a| {
          assert s[i..i + n] == b[i - |a| - 1..i - |a| - 1 + n];
          assert !OccursAt(b, pattern, i - |a| - 1);
        } else {
          assert s[i..i + n][|a| - i] == c;
        }
      }
    }
  }

  lemma {:induction false} AbsentJoin(items: seq<string>, c: char, pattern: string)
    requires pattern != "" && c !in pattern && forall i | 0 <= i < |items| :: Absent(items[i], pattern)
    ensures Absent(Join(items, c), pattern)
  {
    if |items| > 1 {
      AbsentJoin(items[1..], c, pattern);
      AbsentAcross(items[0], c, Join(items[1..], c), pattern);
    } else if items == [] {
      assert Join(items, c) == "";
    }
  }

  lemma {:induction false} AbsentInPair(key: string, value: string, configType: string)
    requires Clean(key) && Clean(value) && !EndsWith(key, configType)
    ensures Absent(key + "=" + value, configType + "=")
  {
    var s, n := key + "=" + value, |configType|;
    assert forall i | 0 <= i < |s| && s[i] == '=' :: i == |key|;
    forall i ensures !OccursAt(s, configType + "=", i) {
      if 0 <= i <= |s| - n - 1 {
        var window := s[i..i + n + 1];
        assert window[n] == s[i + n];
        assert i + n == |key| ==> window[..n] == key[i..];
        assert (configType + "=")[..n] == configType;
      }
    }
  }

  lemma {:induction false} AbsentInKey(key: string, configType: string)
    requires Clean(key)
    ensures Absent(key, configType + "=")
  {
    var n := |configType|;
    forall i ensures !OccursAt(key, configType + "=", i) {
      if 0 <= i <= |key| - n - 1 {
        assert key[i..i + n + 1][n] == key[i + n] && key[i + n] in key;
        assert (configType + "=")[n] == '=';
      }
    }
  }

  predicate EntryKeepsType(e: Entry, configType: string) {
    match e.setting
    case Text(_) => !EndsWith(e.key, configType)
    case Feature(params) => forall j | 0 <= j < |params| :: !EndsWith(params[j].key, configType)
  }

  /** No option key ends like the type, so that its text with `=` is not taken for a type prefix. */
  ghost predicate KeysKeepType(c: Config, configType: string) {
    forall i | 0 <= i < |c| :: EntryKeepsType(c[i], configType)
  }

  lemma {:induction false} AbsentInItems(c: Config, configType: string)
    requires KeysKeepType(c, configType)
    requires CleanEntries(c)
    ensures forall i | 0 <= i < |Items(c)| :: Absent(Items(c)[i], configType + "=")
  {
    if c != [] {
      AbsentInItems(c[1..], configType);
      match c[0].setting
      case Text(value) => AbsentInPair(c[0].key, value, configType);
      case Feature(params) =>
        AbsentInKey(c[0].key, configType);
        forall j | 0 <= j < |params| ensures Absent(PrintParams(params)[j], configType + "=") {
          AbsentInPair(params[j].key, params[j].value.value, configType);
        }
    }
  }

  // ---------------------------------------------------------------- removing the type prefix

  lemma {:induction false} WithoutPrefix(pattern: string, body: string)
    requires pattern != ""
    ensures Without(pattern + body, pattern) == Without(body, pattern)
  {
    var line := pattern + body;
    assert line[..|pattern|] == pattern && line[|pattern|..] == body;
  }

  lemma {:induction false} WithoutShrinks(s: string, pattern: string)
    requires pattern != ""
    ensures |Without(s, pattern)| <= |s|
    ensures !Absent(s, pattern) ==> |Without(s, pattern)| < |s|
    decreases |s|
  {
    if |s| < |pattern| {
    } else if s[..|pattern|] == pattern {
      WithoutShrinks(s[|pattern|..], pattern);
    } else {
      WithoutShrinks(s[1..], pattern);
      forall i | OccursAt(s, pattern, i) ensures OccursAt(s[1..], pattern, i - 1) {
        assert i != 0;
        assert s[1..][i - 1..i - 1 + |pattern|] == s[i..i + |pattern|];
      }
    }
  }

  lemma {:induction false} DropOfConcat(a: string, b: string, k: nat)
    requires k <= |a|
    ensures (a + b)[k..] == a[k..] + b
  {
  }

  /** Text that lacks the pattern's last character is never part of an occurrence. */
  lemma {:induction false} WithoutAppend(a: string, b: string, pattern: string)
    requires pattern != "" && pattern[|pattern| - 1] !in b
    ensures Without(a + b, pattern) == Without(a, pattern) + b
    decreases |a|
  {
    var s, n := a + b, |pattern|;
    if a == "" {
      assert s == b;
      forall i ensures !OccursAt(b, pattern, i) {
        if 0 <= i <= |b| - n {
          assert b[i..i + n][n - 1] == b[i + n - 1];
        }
      }
      WithoutAbsent(b, pattern);
    } else if |s| < n {
    } else if |a| < n {
      assert s[..n][n - 1] == b[n - 1 - |a|];
      DropOfConcat(a, b, 1);
      WithoutAppend(a[1..], b, pattern);
    } else {
      assert s[..n] == a[..n];
      DropOfConcat(a, b, n);
      DropOfConcat(a, b, 1);
      if a[..n] == pattern {
        WithoutAppend(a[n..], b, pattern);
      } else {
        WithoutAppend(a[1..], b, pattern);
      }
    }
  }

  lemma {:induction false} WithoutKeepsClean(s: string, pattern: string, c: char)
    requires pattern != "" && c !in s
    ensures c !in Without(s, pattern)
    decreases |s|
  {
    if |s| < |pattern| {
    } else if s[..|pattern|] == pattern {
      WithoutKeepsClean(s[|pattern|..], pattern, c);
    } else {
      WithoutKeepsClean(s[1..], pattern, c);
    }
  }

  // ---------------------------------------------------------------- parsing never adds characters

  function Weight(items: seq<string>): nat {
    if items == [] then 0 else |items[0]| + 1 + Weight(items[1..])
  }

  lemma {:induction false} WeightConcat(a: seq<string>, b: seq<string>)
    ensures Weight(a + b) == Weight(a) + Weight(b)
  {
    if a == [] {
      assert a + b == b;
    } else {
      assert (a + b)[1..] == a[1..] + b;
      WeightConcat(a[1..], b);
    }
  }

  lemma {:induction false} WeightOfSplit(s: string, c: char)
    ensures Weight(Split(s, c)) == |s| + 1
  {
    if s == "" {
      assert Split(s, c)[1..] == [];
    } else {
      WeightOfSplit(s[1..], c);
      var rest := Split(s[1..], c);
      assert ([""] + rest)[1..] == rest;
      assert ([[s[0]] + rest[0]] + rest[1..])[1..] == rest[1..];
    }
  }

  lemma {:induction false} WeightOfJoin(items: seq<string>, c: char)
    requires items != []
    ensures Weight(items) == |Join(items, c)| + 1
  {
    if |items| == 1 {
      assert items[1..] == [];
    } else {
      WeightOfJoin(items[1..], c);
    }
  }

  function EntryWeight(e: Entry): nat {
    Weight(PrintEntry(e))
  }

  lemma {:induction false} WeightOfParams(ps: seq<Param>, key: string, value: Option<string>)
    ensures Weight(PrintParams(PutParam(ps, key, value))) <=
            Weight(PrintParams(ps)) + |PrintParam(Param(key, value))| + 1
  {
    var p := Param(key, value);
    if ps == [] {
      assert PrintParams([p])[1..] == [];
    } else {
      assert PrintParams(ps)[1..] == PrintParams(ps[1..]);
      if ps[0].key == key {
        assert PrintParams([p] + ps[1..])[1..] == PrintParams(ps[1..]);
      } else {
        WeightOfParams(ps[1..], key, value);
        assert PrintParams([ps[0]] + PutParam(ps[1..], key, value))[1..] == PrintParams(PutParam(ps[1..], key, value));
      }
    }
  }

  lemma {:induction false} WeightOfHead(c: Config)
    requires c != []
    ensures Weight(Items(c)) == EntryWeight(c[0]) + Weight(Items(c[1..]))
  {
    WeightConcat(PrintEntry(c[0]), Items(c[1..]));
  }

  /** Storing an entry replaces one of the same key, or adds its own weight. */
  lemma {:induction false} WeightOfPut(c: Config, key: string, setting: Setting)
    ensures Weight(Items(PutEntry(c, key, setting))) +
              (match FindEntry(c, key) case None => 0 case Some(replaced) => EntryWeight(Entry(key, replaced)))
            == Weight(Items(c)) + EntryWeight(Entry(key, setting))
  {
    var e := Entry(key, setting);
    if c == [] {
      ItemsOfOne(e);
    } else {
      WeightOfHead(c);
      if c[0].key == key {
        WeightOfHead([e] + c[1..]);
      } else {
        WeightOfPut(c[1..], key, setting);
        WeightOfHead([c[0]] + PutEntry(c[1..], key, setting));
      }
    }
  }

  lemma {:induction false} WeightOfText(key: string, value: string)
    ensures EntryWeight(Entry(key, Text(value))) == |key| + |value| + 2
  {
    var line := key + "=" + value;
    var items := [line];
    assert items[1..] == [];
    assert Weight(items) == |line| + 1;
    assert PrintEntry(Entry(key, Text(value))) == items;
  }

  lemma {:induction false} WeightOfFeature(key: string, ps: seq<Param>)
    ensures EntryWeight(Entry(key, Feature(ps))) == |key| + 1 + Weight(PrintParams(ps))
  {
    assert ([key] + PrintParams(ps))[1..] == PrintParams(ps);
  }

  lemma {:induction false} ParseItemAddsNothing(c: Config, feature: Option<string>, item: string)
    ensures Weight(Items(ParseItem(c, feature, item).0)) <= Weight(Items(c)) + |item| + 1
  {
    var parts := Split(item, '=');
    WeightOfSplit(item, '=');
    if |parts| > 1 {
      assert parts[1..][1..] == parts[2..];
      assert |parts[0]| + 1 + |parts[1]| <= |item|;
      if feature.Some? && FindEntry(c, feature.value).Some? && FindEntry(c, feature.value).value.Feature? {
        var key, ps := feature.value, FindEntry(c, feature.value).value.params;
        var more := PutParam(ps, parts[0], Some(parts[1]));
        WeightOfPut(c, key, Feature(more));
        WeightOfParams(ps, parts[0], Some(parts[1]));
        WeightOfFeature(key, ps);
        WeightOfFeature(key, more);
        assert |PrintParam(Param(parts[0], Some(parts[1])))| <= |item|;
      } else {
        WeightOfPut(c, parts[0], Text(parts[1]));
        WeightOfText(parts[0], parts[1]);
      }
    } else {
      WeightOfPut(c, parts[0], Feature([]));
      assert PrintEntry(Entry(parts[0], Feature([]))) == [parts[0]];
      assert [parts[0]][1..] == [] && parts[1..] == [];
    }
  }

  lemma {:induction false} ParseItemsAddNothing(c: Config, feature: Option<string>, items: seq<string>)
    ensures Weight(Items(ParseItems(c, feature, items))) <= Weight(Items(c)) + Weight(items)
    decreases |items|
  {
    if items != [] {
      ParseItemAddsNothing(c, feature, items[0]);
      var (next, current) := ParseItem(c, feature, items[0]);
      ParseItemsAddNothing(next, current, items[1..]);
    }
  }

  // ---------------------------------------------------------------- parsed keys are distinct

  lemma {:induction false} PutKeepsDistinct(c: Config, key: string, setting: Setting)
    requires DistinctEntries(c)
    ensures DistinctEntries(PutEntry(c, key, setting))
    ensures forall i | 0 <= i < |PutEntry(c, key, setting)| ::
              PutEntry(c, key, setting)[i].key == key ||
              exists j | 0 <= j < |c| :: c[j].key == PutEntry(c, key, setting)[i].key
  {
    if c != [] && c[0].key != key {
      PutKeepsDistinct(c[1..], key, setting);
    }
  }

  lemma {:induction false} ParseKeepsDistinct(c: Config, feature: Option<string>, items: seq<string>)
    requires DistinctEntries(c)
    ensures DistinctEntries(ParseItems(c, feature, items))
    decreases |items|
  {
    if items != [] {
      var parts := Split(items[0], '=');
      forall key, setting ensures DistinctEntries(PutEntry(c, key, setting)) {
        PutKeepsDistinct(c, key, setting);
      }
      var (next, current) := ParseItem(c, feature, items[0]);
      ParseKeepsDistinct(next, current, items[1..]);
    }
  }

  // ---------------------------------------------------------------- the round trip

  /** The line a config prints as, without its type prefix and its comment. */
  function Body(c: Config): string {
    Join(Items(c), ',')
  }

  /** What is parsed of a printed line whose type prefix was removed. */
  lemma {:induction false} ParsedBody(configType: string, c: Config)
    requires Clean(configType) && c != [] && Printable(c)
    ensures Parsed(Without(Printed(configType, c), configType + "=")) ==
            ParseItems([], None, Split(Without(Body(c), configType + "=") + BLANKS, ','))
  {
    PrefixRemoved(configType, c);
    ItemsClean(c);
    JoinClean(Items(c));
    WithoutKeepsClean(Body(c), configType + "=", '#');
    BeforeComment(Without(Body(c), configType + "="));
  }

  lemma {:induction false} PrefixRemoved(configType: string, c: Config)
    ensures Without(Printed(configType, c), configType + "=") == Without(Body(c), configType + "=") + COMMENT
  {
    var pattern := configType + "=";
    assert Printed(configType, c) == pattern + (Body(c) + COMMENT);
    WithoutPrefix(pattern, Body(c) + COMMENT);
    NoEqualsInComment();
    WithoutAppend(Body(c), COMMENT, pattern);
  }

  lemma {:induction false} NoEqualsInComment()
    ensures '=' !in COMMENT
  {
  }

  lemma {:induction false} BeforeComment(text: string)
    requires '#' !in text
    ensures BeforeHash(text + COMMENT) == text + BLANKS
  {
    assert text + COMMENT == (text + BLANKS) + "#" + SIGNATURE;
    BeforeHashAt(text + BLANKS, SIGNATURE);
  }

  lemma {:induction false} TypeKept(configType: string, c: Config)
    requires Clean(configType) && Printable(c) && KeysKeepType(c, configType)
    ensures Absent(Body(c), configType + "=")
  {
    AbsentInItems(c, configType);
    AbsentJoin(Items(c), ',', configType + "=");
  }

  lemma {:induction false} RoundTrip(configType: string, c: Config)
    requires Clean(configType) && c != [] && Printable(c) && NoBlankTwin(c) && KeysKeepType(c, configType)
    ensures Parsed(Without(Printed(configType, c), configType + "=")) == Blanked(c)
  {
    ParsedBody(configType, c);
    TypeKept(configType, c);
    WithoutAbsent(Body(c), configType + "=");
    ParseBlanked(c);
  }

  lemma {:induction false} ParseBlanked(c: Config)
    requires c != [] && Printable(c) && NoBlankTwin(c)
    ensures ParseItems([], None, Split(Body(c) + BLANKS, ',')) == Blanked(c)
  {
    SplitBlanked(c);
    BlankedPrintable(c);
    BlankedItems(c);
    assert [] + Blanked(c) == Blanked(c);
    ParsePrint([], Blanked(c));
  }

  lemma {:induction false} SplitBlanked(c: Config)
    requires c != [] && Printable(c)
    ensures Split(Body(c) + BLANKS, ',') == BlankLast(Items(c))
  {
    ItemsClean(c);
    JoinBlankLast(Items(c), ',');
    SplitJoin(BlankLast(Items(c)), ',');
  }

  lemma {:induction false} OccursInPair(key: string, value: string, configType: string)
    requires EndsWith(key, configType)
    ensures !Absent(key + "=" + value, configType + "=")
  {
    var i := |key| - |configType|;
    assert (key + "=" + value)[i..i + |configType| + 1] == key[i..] + "=";
    assert OccursAt(key + "=" + value, configType + "=", i);
  }

  lemma {:induction false} OccursInJoin(items: seq<string>, i: int, c: char, pattern: string)
    requires 0 <= i < |items| && !Absent(items[i], pattern)
    ensures !Absent(Join(items, c), pattern)
  {
    var all := Join(items, c);
    if i == 0 {
      var k :| OccursAt(items[0], pattern, k);
      assert all[k..k + |pattern|] == items[0][k..k + |pattern|];
      assert OccursAt(all, pattern, k);
    } else {
      OccursInJoin(items[1..], i - 1, c, pattern);
      var rest := Join(items[1..], c);
      var k :| OccursAt(rest, pattern, k);
      var m := |items[0]| + 1 + k;
      assert all[m..m + |pattern|] == rest[k..k + |pattern|];
      assert OccursAt(all, pattern, m);
    }
  }

  lemma {:induction false} TypeOccursInEntry(configType: string, e: Entry) returns (j: int)
    requires CleanEntry(e) && !EntryKeepsType(e, configType)
    ensures 0 <= j < |PrintEntry(e)| && !Absent(PrintEntry(e)[j], configType + "=")
  {
    match e.setting
    case Text(value) =>
      j := 0;
      OccursInPair(e.key, value, configType);
    case Feature(params) =>
      var k :| 0 <= k < |params| && EndsWith(params[k].key, configType);
      j := 1 + k;
      OccursInPair(params[k].key, params[k].value.value, configType);
      assert PrintEntry(e)[j] == PrintParam(params[k]);
  }

  lemma {:induction false} TypeOccurs(configType: string, c: Config)
    requires CleanEntries(c) && !KeysKeepType(c, configType)
    ensures !Absent(Body(c), configType + "=")
  {
    var i :| 0 <= i < |c| && !EntryKeepsType(c[i], configType);
    var j := TypeOccursInEntry(configType, c[i]);
    OccursInEntry(c, i, j, configType + "=");
  }

  lemma {:induction false} ItemsAround(c: Config, i: int)
    requires 0 <= i < |c|
    ensures Items(c) == Items(c[..i]) + PrintEntry(c[i]) + Items(c[i + 1..])
  {
    ItemsConcat(c[..i], c[i..]);
    assert c == c[..i] + c[i..] && c[i..][1..] == c[i + 1..];
  }

  lemma {:induction false} InTheMiddle(a: seq<string>, b: seq<string>, c: seq<string>, j: int)
    requires 0 <= j < |b|
    ensures (a + b + c)[|a| + j] == b[j]
  {
  }

  lemma {:induction false} OccursInEntry(c: Config, i: int, j: int, pattern: string)
    requires 0 <= i < |c| && 0 <= j < |PrintEntry(c[i])| && !Absent(PrintEntry(c[i])[j], pattern)
    ensures !Absent(Body(c), pattern)
  {
    var before := |Items(c[..i])|;
    ItemsAround(c, i);
    InTheMiddle(Items(c[..i]), PrintEntry(c[i]), Items(c[i + 1..]), j);
    OccursInJoin(Items(c), before + j, ',', pattern);
  }

  /** A key that ends like the type loses characters with the prefix. */
  lemma {:induction false} TypeSuffixIsLost(configType: string, c: Config)
    requires Clean(configType) && c != [] && Printable(c) && !KeysKeepType(c, configType)
    ensures Parsed(Without(Printed(configType, c), configType + "=")) != Blanked(c)
  {
    var kept := Without(Body(c), configType + "=") + BLANKS;
    ParsedBody(configType, c);
    TypeOccurs(configType, c);
    WithoutShrinks(Body(c), configType + "=");
    ParseItemsAddNothing([], None, Split(kept, ','));
    WeightOfSplit(kept, ',');
    BlankedItems(c);
    SplitBlanked(c);
    WeightOfSplit(Body(c) + BLANKS, ',');
  }

  lemma {:induction false} TwinIsMerged(configType: string, c: Config)
    requires Clean(configType) && c != [] && Printable(c) && !NoBlankTwin(c)
    ensures Parsed(Without(Printed(configType, c), configType + "=")) != Blanked(c)
  {
    ParsedBody(configType, c);
    ParseKeepsDistinct([], None, Split(Without(Body(c), configType + "=") + BLANKS, ','));
    TwinsMeet(c);
  }

  lemma {:induction false} TwinsMeet(c: Config)
    requires c != [] && !NoBlankTwin(c)
    ensures !DistinctEntries(Blanked(c))
  {
    var n := |c| - 1;
    var i :| 0 <= i < n && c[i].key == c[n].key + BLANKS;
    BlankedSplits(c);
    assert Blanked(c)[i] == c[i];
    assert Blanked(c)[n].key == c[n].key + BLANKS;
  }

  /**
   Parsing a printed line, its type prefix removed, gives the components back, up
   to the two blanks that the comment leaves on the last token, exactly when no
   option key ends like the type and no key is the last feature with those blanks.
   */
  lemma {:induction false} ParseUndoesBuild(configType: string, c: Config)
    requires Clean(configType) && c != [] && Printable(c)
    ensures Parsed(Without(Printed(configType, c), configType + "=")) == Blanked(c) <==>
            NoBlankTwin(c) && KeysKeepType(c, configType)
  {
    if !KeysKeepType(c, configType) {
      TypeSuffixIsLost(configType, c);
    } else if !NoBlankTwin(c) {
      TwinIsMerged(configType, c);
    } else {
      RoundTrip(configType, c);
    }
  }

  /** For instance the option xpin of a line of type pin does not survive. */
  lemma {:induction false} SuffixExample()
    ensures Parsed(Without(Printed("pin", SUFFIX_CONFIG), "pin=")) != Blanked(SUFFIX_CONFIG)
  {
    SuffixMeetsType();
    TypeSuffixIsLost("pin", SUFFIX_CONFIG);
  }

  const SUFFIX_CONFIG: Config := [Entry("xpin", Text("1"))]

  lemma {:induction false} SuffixMeetsType()
    ensures Printable(SUFFIX_CONFIG) && !KeysKeepType(SUFFIX_CONFIG, "pin")
  {
    assert "xpin"[1..] == "pin";
    assert EndsWith(SUFFIX_CONFIG[0].key, "pin");
  }

  // ---------------------------------------------------------------- the loops

  lemma {:induction false} ParseItemsEndWith(c: Config, feature: Option<string>, items: seq<string>, item: string)
    ensures ParseItems(c, feature, items + [item]) ==
            ParseItem(ParseItems(c, feature, items), LastFeature(c, feature, items), item).0
    ensures LastFeature(c, feature, items + [item]) ==
            ParseItem(ParseItems(c, feature, items), LastFeature(c, feature, items), item).1
    decreases |items|
  {
    var all := items + [item];
    if items == [] {
      assert all[1..] == [];
    } else {
      assert all[1..] == items[1..] + [item];
      var (next, current) := ParseItem(c, feature, items[0]);
      ParseItemsEndWith(next, current, items[1..], item);
    }
  }

  /** The feature that options belong to after some items. */
  function LastFeature(c: Config, feature: Option<string>, items: seq<string>): Option<string>
    decreases |items|
  {
    if items == [] then feature
    else
      var (next, current) := ParseItem(c, feature, items[0]);
      LastFeature(next, current, items[1..])
  }

  method ParseConfigLine(line: string) returns (c: Config)
    ensures c == Parsed(line)
  {
    var items := Split(BeforeHash(line), ',');
    var feature: Option<string> := None;
    c := [];
    for i := 0 to |items|
      invariant c == ParseItems([], None, items[..i]) && feature == LastFeature([], None, items[..i])
    {
      ParseItemsEndWith([], None, items[..i], items[i]);
      assert items[..i + 1] == items[..i] + [items[i]];
      var parts := Split(items[i], '=');
      if |parts| > 1 {
        if feature.Some? && FindEntry(c, feature.value).Some? && FindEntry(c, feature.value).value.Feature? {
          var options := FindEntry(c, feature.value).value.params;
          c := PutEntry(c, feature.value, Feature(PutParam(options, parts[0], Some(parts[1]))));
        } else {
          c := PutEntry(c, parts[0], Text(parts[1]));
        }
      } else {
        c := PutEntry(c, parts[0], Feature([]));
        feature := Some(parts[0]);
      }
    }
    assert items[..|items|] == items;
  }

  /** A feature's options as they follow its key. */
  function OptionsText(ps: seq<Param>): string {
    if ps == [] then "" else OptionsText(ps[..|ps| - 1]) + ("," + PrintParam(ps[|ps| - 1]))
  }

  function EntryText(e: Entry): string {
    match e.setting
    case Text(value) => e.key + "=" + value
    case Feature(params) => e.key + OptionsText(params)
  }

  lemma {:induction false} JoinConcat(a: seq<string>, b: seq<string>, c: char)
    requires a != [] && b != []
    ensures Join(a + b, c) == Join(a, c) + [c] + Join(b, c)
  {
    if |a| == 1 {
      assert (a + b)[1..] == b;
    } else {
      assert (a + b)[1..] == a[1..] + b;
      JoinConcat(a[1..], b, c);
    }
  }

  lemma {:induction false} JoinEntry(e: Entry)
    ensures Join(PrintEntry(e), ',') == EntryText(e)
  {
    if e.setting.Feature? {
      JoinOptions(e.key, e.setting.params);
    }
  }

  lemma {:induction false} JoinOptions(key: string, ps: seq<Param>)
    ensures Join([key] + PrintParams(ps), ',') == key + OptionsText(ps)
    decreases |ps|
  {
    if ps == [] {
      assert [key] + PrintParams(ps) == [key];
    } else {
      var n := |ps| - 1;
      JoinOptions(key, ps[..n]);
      assert [key] + PrintParams(ps) == ([key] + PrintParams(ps[..n])) + [PrintParam(ps[n])];
      JoinConcat([key] + PrintParams(ps[..n]), [PrintParam(ps[n])], ',');
    }
  }

  /** What printing one more entry adds to a line. */
  lemma {:induction false} BodyEndWith(c: Config, e: Entry)
    ensures Body(c + [e]) == Body(c) + (if c == [] then "" else ",") + EntryText(e)
  {
    ItemsEndWith(c, e);
    JoinEntry(e);
    if c == [] {
      assert Items(c) + PrintEntry(e) == PrintEntry(e);
    } else {
      JoinConcat(Items(c), PrintEntry(e), ',');
    }
  }

  lemma {:induction false} LineEndWith(configType: string, c: Config, e: Entry)
    ensures configType + "=" + Body(c + [e]) ==
            (configType + "=" + Body(c)) + (if c == [] then "" else ",") + EntryText(e)
  {
    BodyEndWith(c, e);
  }

  /** One component of a line: its key, and its value or its options. */
  method AppendEntry(line: string, e: Entry) returns (longer: string)
    ensures longer == line + EntryText(e)
  {
    match e.setting
    case Text(value) =>
      longer := line + (e.key + "=" + value);
    case Feature(params) =>
      longer := line + e.key;
      for j := 0 to |params|
        invariant longer == line + (e.key + OptionsText(params[..j]))
      {
        assert params[..j + 1][..j] == params[..j];
        longer := longer + ("," + PrintParam(params[j]));
      }
      assert params[..|params|] == params;
  }

  method BuildConfigLine(configType: string, c: Config) returns (line: string)
    ensures line == Printed(configType, c)
  {
    line := configType + "=";
    var comma := false;
    for i := 0 to |c|
      invariant comma == (i > 0)
      invariant line == configType + "=" + Body(c[..i])
    {
      LineEndWith(configType, c[..i], c[i]);
      assert c[..i + 1] == c[..i] + [c[i]];
      if comma {
        line := line + ",";
      }
      line := AppendEntry(line, c[i]);
      comma := true;
    }
    assert c[..|c|] == c;
    line := line + COMMENT;
  }
}
