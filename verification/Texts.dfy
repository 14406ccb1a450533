/** Python's string methods, as far as the modelled code uses them. */
module Texts {
  /** `s.replace(pattern, "")`, left to right. */
  function Without(s: string, pattern: string): string
    requires pattern != ""
    decreases |s|
  {
    if |s| < |pattern| then s
    else if s[..|pattern|] == pattern then Without(s[|pattern|..], pattern)
    else [s[0]] + Without(s[1..], pattern)
  }

  /** The blanks of ASCII text. */
  predicate Space(c: char) {
    c == ' ' || c == '\t' || c == '\n' || c == '\r' || c == '\U{000B}' || c == '\U{000C}'
  }

  /** `s.lstrip()`. */
  function StripLeft(s: string): string {
    if s != "" && Space(s[0]) then StripLeft(s[1..]) else s
  }

  /** What is stripped is a run of blanks, all there are at the front. */
  lemma {:induction false} StripLeftMeaning(s: string) returns (k: nat)
    ensures k <= |s| && StripLeft(s) == s[k..]
    ensures forall i | 0 <= i < k :: s[i] in " \t\n\r\U{000B}\U{000C}"
    ensures k < |s| ==> s[k] !in " \t\n\r\U{000B}\U{000C}"
  {
    if s != "" && Space(s[0]) {
      var m := StripLeftMeaning(s[1..]);
      k := m + 1;
      assert forall i | 1 <= i < k :: s[i] == s[1..][i - 1];
    } else {
      k := 0;
    }
  }

  /** `s.strip()`. */
  function Strip(s: string): string {
    StripRight(StripLeft(s))
  }

  function StripRight(s: string): string {
    if s != "" && Space(s[|s| - 1]) then StripRight(s[..|s| - 1]) else s
  }

  /** A pattern with a character that the text lacks is not there to remove. */
  lemma {:induction false} WithoutForeign(s: string, pattern: string, c: char)
    requires c in pattern && c !in s
    ensures Without(s, pattern) == s
    decreases |s|
  {
    if |s| >= |pattern| {
      assert c !in s[..|pattern|];
      WithoutForeign(s[1..], pattern, c);
    }
  }

  /** Removing one character, group by group. */
  lemma {:induction false} WithoutGroup(a: string, c: char, b: string)
    requires c !in a
    ensures Without(a + [c] + b, [c]) == a + Without(b, [c])
    decreases |a|
  {
    var s := a + [c] + b;
    if a == "" {
      assert s[..1] == [c] && s[1..] == b;
    } else {
      assert s[..1] == [a[0]] && s[1..] == a[1..] + [c] + b;
      WithoutGroup(a[1..], c, b);
    }
  }
}
