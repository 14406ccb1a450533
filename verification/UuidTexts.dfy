/** The texts that Python's `UUID` constructor takes, of which the canonical spelling is one. */
module UuidTexts {
  import opened JsonValues
  import opened Texts

  predicate Hex(c: char) {
    LowerHex(c) || 'A' <= c <= 'F'
  }

  /** Digits, any two of which may have one underscore between them. */
  predicate HexDigits(s: string) {
    s != "" && Hex(s[0]) &&
    (|s| == 1 || (if s[1] == '_' then HexDigits(s[2..]) else HexDigits(s[1..])))
  }

  /** What `int(s, 16)` takes, of texts without a minus sign. */
  predicate HexNumber(s: string) {
    var text := Strip(s);
    var unsigned := if text != "" && text[0] == '+' then text[1..] else text;
    if |unsigned| >= 2 && unsigned[0] == '0' && unsigned[1] in "xX" then
      HexDigits(if |unsigned| >= 3 && unsigned[2] == '_' then unsigned[3..] else unsigned[2..])
    else HexDigits(unsigned)
  }

  predicate Brace(c: char) {
    c == '{' || c == '}'
  }

  /** `s.strip("{}")`. */
  function StripBraces(s: string): string
    decreases |s|
  {
    if s != "" && Brace(s[0]) then StripBraces(s[1..])
    else if s != "" && Brace(s[|s| - 1]) then StripBraces(s[..|s| - 1])
    else s
  }

  /** `UUID(s)` does not raise. */
  predicate UuidText(s: string) {
    var bare := Without(StripBraces(Without(Without(s, "urn:"), "uuid:")), "-");
    |bare| == 32 && HexNumber(bare)
  }

  lemma {:induction false} AllHexIsNumber(s: string)
    requires s != "" && forall i | 0 <= i < |s| :: LowerHex(s[i])
    ensures HexDigits(s) && HexNumber(s)
  {
    if |s| > 1 {
      AllHexIsNumber(s[1..]);
    }
  }

  lemma {:induction false} FirstGroup(s: string, n: nat)
    requires n < |s| && s[n] == '-' && '-' !in s[..n]
    ensures Without(s, "-") == s[..n] + Without(s[n + 1..], "-")
  {
    assert s == s[..n] + ['-'] + s[n + 1..];
    WithoutGroup(s[..n], '-', s[n + 1..]);
    assert ['-'] == "-";
  }

  lemma {:induction false} LastGroups(s: string)
    requires |s| == 17 && s[4] == '-' && '-' !in s[..4] && '-' !in s[5..]
    ensures Without(s, "-") == s[..4] + s[5..]
  {
    FirstGroup(s, 4);
    WithoutForeign(s[5..], "-", '-');
  }

  lemma {:induction false} MiddleGroups(s: string)
    requires |s| == 22 && s[4] == '-' && s[9] == '-'
    requires '-' !in s[..4] && '-' !in s[5..9] && '-' !in s[10..]
    ensures Without(s, "-") == s[..4] + s[5..9] + s[10..]
  {
    var t := s[5..];
    FirstGroup(s, 4);
    assert t[..4] == s[5..9] && t[5..] == s[10..] && t[4] == s[9];
    LastGroups(t);
    assert s[..4] + (s[5..9] + s[10..]) == s[..4] + s[5..9] + s[10..];
  }

  lemma {:induction false} CanonicalGroups(s: Uuid)
    ensures Without(s, "-") == s[..8] + (s[9..13] + (s[14..18] + s[19..23] + s[24..]))
  {
    var t := s[9..];
    var u := t[5..];
    FirstGroup(s, 8);
    assert t[..4] == s[9..13] && t[4] == s[13];
    FirstGroup(t, 4);
    assert u == s[14..];
    assert u[..4] == s[14..18] && u[5..9] == s[19..23] && u[10..] == s[24..];
    MiddleGroups(u);
  }

  predicate AllHex(s: string) {
    forall i | 0 <= i < |s| :: LowerHex(s[i])
  }

  lemma {:induction false} HexConcat(a: string, b: string)
    requires AllHex(a) && AllHex(b)
    ensures AllHex(a + b)
  {
  }

  lemma {:induction false} HexGroup(s: Uuid, i: nat, j: nat)
    requires i <= j <= 36
    requires j <= 8 || (9 <= i && j <= 13) || (14 <= i && j <= 18) || (19 <= i && j <= 23) || 24 <= i
    ensures AllHex(s[i..j])
  {
    forall k | 0 <= k < j - i ensures LowerHex(s[i..j][k]) {
      assert s[i..j][k] == s[i + k];
    }
  }

  lemma {:induction false} CanonicalIsHex(s: Uuid)
    ensures Without(s, "-") != "" && AllHex(Without(s, "-"))
  {
    CanonicalGroups(s);
    HexGroup(s, 0, 8);
    HexGroup(s, 9, 13);
    HexGroup(s, 14, 18);
    HexGroup(s, 19, 23);
    HexGroup(s, 24, 36);
    var a, b, c, d, e := s[0..8], s[9..13], s[14..18], s[19..23], s[24..36];
    assert s[..8] == a && s[24..] == e;
    HexConcat(c, d);
    HexConcat(c + d, e);
    HexConcat(b, c + d + e);
    HexConcat(a, b + (c + d + e));
  }

  /** The canonical spelling of every identity is accepted. */
  lemma {:induction false} CanonicalIsUuidText(s: Uuid)
    ensures UuidText(s)
  {
    assert forall i | 0 <= i < 36 :: s[i] != ':' && !Brace(s[i]);
    WithoutForeign(s, "urn:", ':');
    WithoutForeign(s, "uuid:", ':');
    CanonicalGroups(s);
    CanonicalIsHex(s);
    AllHexIsNumber(Without(s, "-"));
  }

  /** The value of a hexadecimal digit. */
  function Digit(c: char): int {
    if '0' <= c <= '9' then c as int - '0' as int
    else if 'a' <= c <= 'f' then 10 + (c as int - 'a' as int)
    else if 'A' <= c <= 'F' then 10 + (c as int - 'A' as int)
    else -1
  }

  /** No identity has two canonical spellings. */
  lemma {:induction false} CanonicalIsOne(s: Uuid, t: Uuid)
    requires forall i | 0 <= i < 36 :: Digit(s[i]) == Digit(t[i])
    ensures s == t
  {
    forall i | 0 <= i < 36 ensures s[i] == t[i] {
    }
  }

  lemma {:induction false} HyphensRemoved(s: string)
    ensures |Without(s, "-")| == |s| - multiset(s)['-']
    ensures forall c | c in Without(s, "-") :: c in s && c != '-'
  {
    if s != "" {
      assert s == [s[0]] + s[1..];
      HyphensRemoved(s[1..]);
    }
  }

  lemma {:induction false} NoBraces(s: string)
    requires forall c | c in s :: !Brace(c)
    ensures StripBraces(s) == s
  {
  }

  lemma {:induction false} HexIsNumber(s: string)
    requires s != "" && forall c | c in s :: Digit(c) >= 0
    ensures HexNumber(s)
  {
    assert s[0] in s && s[|s| - 1] in s;
    assert Strip(s) == s;
    HexIsDigits(s);
  }

  lemma {:induction false} HexIsDigits(s: string)
    requires s != "" && forall c | c in s :: Digit(c) >= 0
    ensures HexDigits(s)
  {
    assert s[0] in s;
    if |s| > 1 {
      assert s[1] in s;
      HexIsDigits(s[1..]);
    }
  }

  /** A text of hexadecimal digits and hyphens is taken exactly when it has thirty-two digits. */
  lemma {:induction false} PlainTextTaken(s: string)
    requires forall c | c in s :: Digit(c) >= 0 || c == '-'
    ensures UuidText(s) <==> |s| - multiset(s)['-'] == 32
  {
    WithoutForeign(s, "urn:", ':');
    WithoutForeign(s, "uuid:", ':');
    NoBraces(s);
    HyphensRemoved(s);
    if |Without(s, "-")| == 32 {
      HexIsNumber(Without(s, "-"));
    }
  }

  /** Characters that have a place in no text that is taken. */
  predicate Foreign(c: char) {
    Digit(c) < 0 && !Space(c) && c !in "-{}:_+xXurnid"
  }

  lemma {:induction false} WithoutKeeps(s: string, pattern: string, c: char)
    requires pattern != "" && c in s && c !in pattern
    ensures c in Without(s, pattern)
    decreases |s|
  {
    if |s| >= |pattern| && s[..|pattern|] == pattern {
      assert s == pattern + s[|pattern|..];
      WithoutKeeps(s[|pattern|..], pattern, c);
    } else if |s| >= |pattern| && s[0] != c {
      assert s == [s[0]] + s[1..];
      WithoutKeeps(s[1..], pattern, c);
    }
  }

  lemma {:induction false} StripBracesKeeps(s: string, c: char)
    requires c in s && !Brace(c)
    ensures c in StripBraces(s)
    decreases |s|
  {
    if Brace(s[0]) {
      assert s == [s[0]] + s[1..];
      StripBracesKeeps(s[1..], c);
    } else if Brace(s[|s| - 1]) {
      assert s == s[..|s| - 1] + [s[|s| - 1]];
      StripBracesKeeps(s[..|s| - 1], c);
    }
  }

  lemma {:induction false} StripKeeps(s: string, c: char)
    requires c in s && !Space(c)
    ensures c in StripLeft(s) && c in StripRight(s)
    decreases |s|
  {
    assert s == [s[0]] + s[1..] && s == s[..|s| - 1] + [s[|s| - 1]];
    if Space(s[0]) {
      StripKeeps(s[1..], c);
    }
    if Space(s[|s| - 1]) {
      StripKeeps(s[..|s| - 1], c);
    }
  }

  lemma {:induction false} DigitsHaveNoForeign(s: string, c: char)
    requires c in s && Foreign(c)
    ensures !HexDigits(s)
    decreases |s|
  {
    if s[0] != c && |s| > 1 {
      assert s == [s[0]] + s[1..];
      if s[1] == '_' {
        assert s[1..] == [s[1]] + s[2..];
        DigitsHaveNoForeign(s[2..], c);
      } else {
        DigitsHaveNoForeign(s[1..], c);
      }
    }
  }

  lemma {:induction false} NumberHasNoForeign(s: string, c: char)
    requires c in s && Foreign(c)
    ensures !HexNumber(s)
  {
    StripKeeps(s, c);
    StripKeeps(StripLeft(s), c);
    var text := Strip(s);
    assert c in text && text == [text[0]] + text[1..];
    var unsigned := if text[0] == '+' then text[1..] else text;
    assert c in unsigned;
    if |unsigned| >= 2 && unsigned[0] == '0' && unsigned[1] in "xX" {
      assert unsigned == [unsigned[0]] + [unsigned[1]] + unsigned[2..];
      assert |unsigned| >= 3 ==> unsigned[2..] == [unsigned[2]] + unsigned[3..];
      DigitsHaveNoForeign(if |unsigned| >= 3 && unsigned[2] == '_' then unsigned[3..] else unsigned[2..], c);
    } else {
      DigitsHaveNoForeign(unsigned, c);
    }
  }

  /** A text with any foreign character is refused. */
  lemma {:induction false} ForeignTextRefused(s: string, c: char)
    requires c in s && Foreign(c)
    ensures !UuidText(s)
  {
    var a := Without(s, "urn:");
    var b := Without(a, "uuid:");
    WithoutKeeps(s, "urn:", c);
    WithoutKeeps(a, "uuid:", c);
    StripBracesKeeps(b, c);
    WithoutKeeps(StripBraces(b), "-", c);
    NumberHasNoForeign(Without(StripBraces(b), "-"), c);
  }

  /** Braces around a canonical text, and the prefix of a URN, make no difference. */
  lemma {:induction false} WrappedTextTaken(s: Uuid)
    ensures UuidText("{" + s + "}") && UuidText("urn:uuid:" + s)
  {
    CanonicalIsUuidText(s);
    assert forall i | 0 <= i < 36 :: s[i] != ':' && !Brace(s[i]);
    BracesRemoved(s);
    PrefixesRemoved(s);
  }

  lemma {:induction false} BracesRemoved(s: string)
    requires s != "" && forall i | 0 <= i < |s| :: s[i] != ':' && !Brace(s[i])
    ensures StripBraces(Without(Without("{" + s + "}", "urn:"), "uuid:")) == s
    ensures StripBraces(Without(Without(s, "urn:"), "uuid:")) == s
  {
    var text := "{" + s + "}";
    WithoutForeign(text, "urn:", ':');
    WithoutForeign(text, "uuid:", ':');
    WithoutForeign(s, "urn:", ':');
    WithoutForeign(s, "uuid:", ':');
    assert text[1..] == s + "}" && (s + "}")[..|s|] == s;
    assert (s + "}")[0] == s[0] && (s + "}")[|s|] == '}';
    assert StripBraces(s) == s && StripBraces(s + "}") == StripBraces(s) && text[0] == '{';
  }

  lemma {:induction false} PrefixesRemoved(s: string)
    requires forall i | 0 <= i < |s| :: s[i] != ':'
    ensures Without(Without("urn:uuid:" + s, "urn:"), "uuid:") == s
    ensures Without(Without(s, "urn:"), "uuid:") == s
  {
    var text := "urn:uuid:" + s;
    assert text[..4] == "urn:" && text[4..] == "uuid:" + s;
    UuidPrefixKept(s);
    var rest := "uuid:" + s;
    assert rest[..5] == "uuid:" && rest[5..] == s;
    WithoutForeign(s, "urn:", ':');
    WithoutForeign(s, "uuid:", ':');
  }

  lemma {:induction false} OneMore(c: char, s: string, pattern: string)
    requires pattern != "" && Without(s, pattern) == s
    requires !(|s| + 1 >= |pattern| && ([c] + s)[..|pattern|] == pattern)
    ensures Without([c] + s, pattern) == [c] + s
  {
    assert ([c] + s)[1..] == s;
  }

  lemma {:induction false} UuidPrefixKept(s: string)
    requires forall i | 0 <= i < |s| :: s[i] != ':'
    ensures Without("uuid:" + s, "urn:") == "uuid:" + s
  {
    WithoutForeign(s, "urn:", ':');
    var a, b, c, d := [':'] + s, ['d'] + ([':'] + s), ['i'] + (['d'] + ([':'] + s)), "uid:" + s;
    assert d == ['u'] + c && "uuid:" + s == ['u'] + d && "urn:"[0] == 'u' && "urn:"[1] == 'r';
    assert (['u'] + c)[1] == 'i' && (['u'] + d)[1] == 'u';
    OneMore(':', s, "urn:");
    OneMore('d', a, "urn:");
    OneMore('i', b, "urn:");
    OneMore('u', c, "urn:") by {
      assert (['u'] + c)[..4][1] != "urn:"[1];
    }
    OneMore('u', d, "urn:") by {
      assert (['u'] + d)[..4][1] != "urn:"[1];
    }
  }
}
