/**
 The rewrite of a config.txt: one matching line is edited or one line is added.
 Repeating a write must settle, or the installer asks for a reboot every time.
 */
module BoardConfigWrite {
  import opened Texts
  import opened Wrappers
  import opened BoardConfig

  // ---------------------------------------------------------------- strings

  /** `sub in s`. */
  predicate Contains(s: string, sub: string) {
    exists i | 0 <= i <= |s| :: OccursAt(s, sub, i)
  }

  function RemoveHashtag(s: string): string {
    var stripped := StripLeft(s);
    if stripped != "" && stripped[0] == '#' then stripped[1..] else s
  }

  function Decimal(n: nat): string {
    if n < 10 then [('0' as int + n) as char] else Decimal(n / 10) + [('0' as int + n % 10) as char]
  }

  function IntText(n: int): string {
    if n < 0 then "-" + Decimal(-n) else Decimal(n)
  }

  /** `file.readlines()`. */
  function ReadLines(text: string): seq<string> {
    if text == "" then []
    else
      var rest := ReadLines(text[1..]);
      if text[0] == '\n' then ["\n"] + rest
      else if rest == [] then [[text[0]]]
      else [[text[0]] + rest[0]] + rest[1..]
  }

  /** `file.writelines(lines)`. */
  function Concat(lines: seq<string>): string {
    if lines == [] then "" else lines[0] + Concat(lines[1..])
  }

  // ---------------------------------------------------------------- one line

  /** A write; `add` is a dictionary in its insertion order. */
  datatype Request = Request(
    configType: string,
    feature: string,
    add: seq<Param>,
    pin: Option<int>,
    param: string,
    pinType: string)

  const NOUNS := ["gpio-pin", "gpiopin", "gpio_pin", "pin"]

  predicate HasParam(ps: seq<Param>, key: string) {
    exists i | 0 <= i < |ps| :: ps[i].key == key
  }

  function DropParam(ps: seq<Param>, key: string): seq<Param> {
    if ps == [] then [] else if ps[0].key == key then ps[1..] else [ps[0]] + DropParam(ps[1..], key)
  }

  function PinStep(ps: seq<Param>, noun: string, pinType: string, pin: string): seq<Param> {
    if HasParam(ps, noun) then PutParam(DropParam(ps, noun), pinType, Some(pin)) else ps
  }

  function PinEdit(ps: seq<Param>, nouns: seq<string>, pinType: string, pin: string): seq<Param>
    decreases |nouns|
  {
    if nouns == [] then ps else PinEdit(PinStep(ps, nouns[0], pinType, pin), nouns[1..], pinType, pin)
  }

  function AddAll(ps: seq<Param>, add: seq<Param>): seq<Param>
    decreases |add|
  {
    if add == [] then ps else AddAll(PutParam(ps, add[0].key, add[0].value), add[1..])
  }

  /** The options of an overlay after an edit. */
  function EditParams(r: Request, pin: int, ps: seq<Param>): seq<Param> {
    AddAll(if pin > 0 then PinEdit(ps, NOUNS, r.pinType, IntText(pin)) else ps, r.add)
  }

  /** An overlay edit; none where the original raises. */
  function EditOverlay(r: Request, pin: int, c: Config): Option<Config> {
    if pin <= 0 && r.add == [] then Some(c)
    else
      match FindEntry(c, r.feature)
      case None => None
      case Some(Text(value)) =>
        if r.add != [] || (pin > 0 && exists k | 0 <= k < |NOUNS| :: Contains(value, NOUNS[k])) then None else Some(c)
      case Some(Feature(params)) => Some(PutEntry(c, r.feature, Feature(EditParams(r, pin, params))))
  }

  function EditLine(r: Request, line: string): Option<string> {
    var bare := RemoveHashtag(line);
    match r.pin
    case None => Some("#" + bare)
    case Some(pin) =>
      var c := Parsed(Without(bare, r.configType + "="));
      if r.configType == "dtparam" then
        Some(Printed(r.configType, PutEntry(c, r.feature, Text(if r.param == "" then "on" else r.param))))
      else if r.configType == "dtoverlay" then
        match EditOverlay(r, pin, c)
        case None => None
        case Some(edited) => Some(Printed(r.configType, edited))
      else Some(Printed(r.configType, c))
  }

  function NewLine(r: Request, pin: int): string {
    var options := AddAll([Param(r.pinType, Some(IntText(pin)))], r.add);
    Printed(r.configType,
            if r.configType == "dtoverlay" then [Entry(r.feature, Feature(options))]
            else if r.configType == "dtparam" then [Entry(r.feature, Text("on"))]
            else [])
  }

  // ---------------------------------------------------------------- the file

  predicate StartsWith(s: string, prefix: string) {
    |prefix| <= |s| && s[..|prefix|] == prefix
  }

  /** An old pwm overlay line, which a two-channel one replaces. */
  predicate Superseded(r: Request, line: string) {
    && r.configType == "dtoverlay" && r.feature == "pwm-2chan"
    && StartsWith(StripLeft(line), "dtoverlay=pwm,") && Contains(line, "func=4")
  }

  function Kept(r: Request, lines: seq<string>): (kept: seq<string>)
    ensures |kept| <= |lines|
  {
    if lines == [] then []
    else (if Superseded(r, lines[0]) then [] else [lines[0]]) + Kept(r, lines[1..])
  }

  predicate Matches(r: Request, line: string) {
    Contains(line, r.configType) && Contains(line, r.feature)
  }

  function FirstMatch(r: Request, lines: seq<string>): (i: nat)
    ensures i <= |lines| && (i < |lines| ==> Matches(r, lines[i]))
    ensures forall j | 0 <= j < i :: !Matches(r, lines[j])
  {
    if lines == [] || Matches(r, lines[0]) then 0 else 1 + FirstMatch(r, lines[1..])
  }

  /** The lines to write back; none when the write fails. */
  function NewLines(r: Request, lines: seq<string>): Option<seq<string>> {
    var kept := Kept(r, lines);
    var i := FirstMatch(r, kept);
    if i < |kept| then
      match EditLine(r, kept[i])
      case None => None
      case Some(line) => Some(kept[i := line])
    else
      match r.pin
      case None => Some(kept)
      case Some(pin) => Some(kept + [NewLine(r, pin)])
  }

  /** The file after a write; a failed write leaves it alone. */
  function Rewritten(r: Request, text: string): string {
    match NewLines(r, ReadLines(text))
    case None => text
    case Some(lines) => Concat(lines)
  }

  lemma {:induction false} ConcatReadLines(text: string)
    ensures Concat(ReadLines(text)) == text
  {
    if text != "" {
      ConcatReadLines(text[1..]);
      var rest := ReadLines(text[1..]);
      assert text == [text[0]] + text[1..];
      if text[0] == '\n' {
        assert (["\n"] + rest)[1..] == rest;
      } else if rest == [] {
        assert [[text[0]]][1..] == [];
      } else {
        assert ([[text[0]] + rest[0]] + rest[1..])[1..] == rest[1..];
      }
    }
  }

  // ---------------------------------------------------------------- the loops

  lemma {:induction false} KeptEndWith(r: Request, lines: seq<string>, line: string)
    ensures Kept(r, lines + [line]) == Kept(r, lines) + (if Superseded(r, line) then [] else [line])
  {
    if lines == [] {
      assert (lines + [line])[1..] == [];
    } else {
      assert (lines + [line])[1..] == lines[1..] + [line];
      KeptEndWith(r, lines[1..], line);
    }
  }

  lemma {:induction false} PinEditEndWith(
    ps: seq<Param>, nouns: seq<string>, noun: string, pinType: string, pin: string)
    ensures PinEdit(ps, nouns + [noun], pinType, pin) == PinStep(PinEdit(ps, nouns, pinType, pin), noun, pinType, pin)
    decreases |nouns|
  {
    if nouns == [] {
      assert (nouns + [noun])[1..] == [];
    } else {
      assert (nouns + [noun])[1..] == nouns[1..] + [noun];
      PinEditEndWith(PinStep(ps, nouns[0], pinType, pin), nouns[1..], noun, pinType, pin);
    }
  }

  lemma {:induction false} AddAllEndWith(ps: seq<Param>, add: seq<Param>, p: Param)
    ensures AddAll(ps, add + [p]) == PutParam(AddAll(ps, add), p.key, p.value)
    decreases |add|
  {
    if add == [] {
      assert (add + [p])[1..] == [];
    } else {
      assert (add + [p])[1..] == add[1..] + [p];
      AddAllEndWith(PutParam(ps, add[0].key, add[0].value), add[1..], p);
    }
  }

  method EditOptions(r: Request, pin: int, options: seq<Param>) returns (ps: seq<Param>)
    ensures ps == EditParams(r, pin, options)
  {
    ps := options;
    if pin > 0 {
      for k := 0 to |NOUNS|
        invariant ps == PinEdit(options, NOUNS[..k], r.pinType, IntText(pin))
      {
        PinEditEndWith(options, NOUNS[..k], NOUNS[k], r.pinType, IntText(pin));
        assert NOUNS[..k + 1] == NOUNS[..k] + [NOUNS[k]];
        if HasParam(ps, NOUNS[k]) {
          ps := PutParam(DropParam(ps, NOUNS[k]), r.pinType, Some(IntText(pin)));
        }
      }
      assert NOUNS[..|NOUNS|] == NOUNS;
    }
    ghost var edited := ps;
    for k := 0 to |r.add|
      invariant ps == AddAll(edited, r.add[..k])
    {
      AddAllEndWith(edited, r.add[..k], r.add[k]);
      assert r.add[..k + 1] == r.add[..k] + [r.add[k]];
      ps := PutParam(ps, r.add[k].key, r.add[k].value);
    }
    assert r.add[..|r.add|] == r.add;
  }

  method EditConfigLine(r: Request, line: string) returns (edited: Option<string>)
    ensures edited == EditLine(r, line)
  {
    var bare := RemoveHashtag(line);
    if r.pin.None? {
      return Some("#" + bare);
    }
    var pin := r.pin.value;
    var c := ParseConfigLine(Without(bare, r.configType + "="));
    if r.configType == "dtparam" {
      c := PutEntry(c, r.feature, Text(if r.param == "" then "on" else r.param));
    } else if r.configType == "dtoverlay" && (pin > 0 || r.add != []) {
      match FindEntry(c, r.feature)
      case None => return None;
      case Some(Text(value)) =>
        if r.add != [] || exists k | 0 <= k < |NOUNS| :: Contains(value, NOUNS[k]) {
          return None;
        }
      case Some(Feature(params)) =>
        var options := EditOptions(r, pin, params);
        c := PutEntry(c, r.feature, Feature(options));
    }
    var text := BuildConfigLine(r.configType, c);
    return Some(text);
  }

  method DropSuperseded(r: Request, original: seq<string>) returns (lines: seq<string>)
    ensures lines == Kept(r, original)
  {
    lines := [];
    for i := 0 to |original|
      invariant lines == Kept(r, original[..i])
    {
      KeptEndWith(r, original[..i], original[i]);
      assert original[..i + 1] == original[..i] + [original[i]];
      if !Superseded(r, original[i]) {
        lines := lines + [original[i]];
      }
    }
    assert original[..|original|] == original;
  }

  method EditLines(r: Request, original: seq<string>) returns (edited: Option<seq<string>>)
    ensures edited == NewLines(r, original)
  {
    var lines := DropSuperseded(r, original);
    var i := 0;
    while i < |lines| && !Matches(r, lines[i])
      invariant i <= FirstMatch(r, lines)
    {
      i := i + 1;
    }
    assert i == FirstMatch(r, lines);
    if i < |lines| {
      var line := EditConfigLine(r, lines[i]);
      if line.None? {
        return None;
      }
      lines := lines[i := line.value];
    } else if r.pin.Some? {
      lines := lines + [NewLine(r, r.pin.value)];
    }
    return Some(lines);
  }

  class ConfigFile {
    var text: string

    constructor (text: string)
      ensures this.text == text
    {
      this.text := text;
    }

    method RpiConfigWrite(r: Request) returns (ok: bool, changed: bool)
      modifies this
      ensures ok == NewLines(r, ReadLines(old(text))).Some?
      ensures text == Rewritten(r, old(text))
      ensures changed == (ok && NewLines(r, ReadLines(old(text))).value != ReadLines(old(text)))
      ensures !changed ==> text == old(text)
    {
      var original := ReadLines(text);
      ConcatReadLines(text);
      var lines := EditLines(r, original);
      ok := lines.Some?;
      changed := ok && lines.value != original;
      if changed {
        text := Concat(lines.value);
      }
    }
  }
}
