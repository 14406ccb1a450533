/**
 Repeating the same overlay write: after the line was appended, at most one
 rewrite changes it, unless there is nothing to tell the pin's value from blanks.
 */
module BoardConfigSettles {
  import opened Wrappers
  import opened BoardConfig
  import opened BoardConfigWrite

  // ---------------------------------------------------------------- keys and values of options

  function Keys(ps: seq<Param>): seq<string> {
    if ps == [] then [] else [ps[0].key] + Keys(ps[1..])
  }

  function Find(ps: seq<Param>, key: string): Option<Option<string>> {
    if ps == [] then None else if ps[0].key == key then Some(ps[0].value) else Find(ps[1..], key)
  }

  function PutKey(ks: seq<string>, key: string): seq<string> {
    if key in ks then ks else ks + [key]
  }

  function DropKey(ks: seq<string>, key: string): seq<string> {
    if ks == [] then [] else if ks[0] == key then ks[1..] else [ks[0]] + DropKey(ks[1..], key)
  }

  function PutKeys(ks: seq<string>, more: seq<string>): seq<string>
    decreases |more|
  {
    if more == [] then ks else PutKeys(PutKey(ks, more[0]), more[1..])
  }

  function Minus(ks: seq<string>, out: seq<string>): seq<string> {
    if ks == [] then [] else (if ks[0] in out then [] else [ks[0]]) + Minus(ks[1..], out)
  }

  ghost predicate Distinct(ks: seq<string>) {
    forall i, j | 0 <= i < j < |ks| :: ks[i] != ks[j]
  }

  lemma {:induction false} KeysAt(ps: seq<Param>)
    ensures |Keys(ps)| == |ps| && forall i | 0 <= i < |ps| :: Keys(ps)[i] == ps[i].key
  {
    if ps != [] {
      KeysAt(ps[1..]);
    }
  }

  lemma {:induction false} FindIsMember(ps: seq<Param>, key: string)
    ensures Find(ps, key).Some? <==> key in Keys(ps)
    ensures HasParam(ps, key) <==> key in Keys(ps)
  {
    KeysAt(ps);
    if ps != [] {
      FindIsMember(ps[1..], key);
    }
  }

  lemma {:induction false} PutMeaning(ps: seq<Param>, key: string, value: Option<string>, q: string)
    ensures Keys(PutParam(ps, key, value)) == PutKey(Keys(ps), key)
    ensures Find(PutParam(ps, key, value), q) == if q == key then Some(value) else Find(ps, q)
  {
    if ps == [] {
      assert [Param(key, value)][1..] == [];
    } else if ps[0].key == key {
      assert ([Param(key, value)] + ps[1..])[1..] == ps[1..];
    } else {
      PutMeaning(ps[1..], key, value, q);
      assert ([ps[0]] + PutParam(ps[1..], key, value))[1..] == PutParam(ps[1..], key, value);
      assert key in Keys(ps) <==> key in Keys(ps[1..]);
    }
  }

  lemma {:induction false} DropMeaning(ps: seq<Param>, key: string, q: string)
    ensures Keys(DropParam(ps, key)) == DropKey(Keys(ps), key)
    ensures q != key ==> Find(DropParam(ps, key), q) == Find(ps, q)
  {
    if ps != [] && ps[0].key != key {
      DropMeaning(ps[1..], key, q);
      assert ([ps[0]] + DropParam(ps[1..], key))[1..] == DropParam(ps[1..], key);
    }
  }

  lemma {:induction false} AddAllMeaning(ps: seq<Param>, add: seq<Param>, q: string)
    requires Distinct(Keys(add))
    ensures Keys(AddAll(ps, add)) == PutKeys(Keys(ps), Keys(add))
    ensures Find(AddAll(ps, add), q) == if Find(add, q).Some? then Find(add, q) else Find(ps, q)
    decreases |add|
  {
    if add != [] {
      var k := add[0].key;
      PutMeaning(ps, k, add[0].value, q);
      assert Keys(add)[1..] == Keys(add[1..]);
      assert forall i | 0 <= i < |Keys(add[1..])| :: Keys(add[1..])[i] == Keys(add)[i + 1];
      AddAllMeaning(PutParam(ps, k, add[0].value), add[1..], q);
      FindIsMember(add[1..], k);
    }
  }

  /** Equal key order and equal values make equal options. */
  lemma {:induction false} SameParams(x: seq<Param>, y: seq<Param>)
    requires Keys(x) == Keys(y) && Distinct(Keys(x))
    requires forall q | q in Keys(x) :: Find(x, q) == Find(y, q)
    ensures x == y
  {
    if x == [] {
      KeysAt(y);
    } else {
      KeysAt(y);
      var k := x[0].key;
      assert Keys(x)[0] == k == Keys(y)[0];
      assert k in Keys(x);
      assert Keys(x)[1..] == Keys(x[1..]) && Keys(y)[1..] == Keys(y[1..]);
      forall q | q in Keys(x[1..]) ensures Find(x[1..], q) == Find(y[1..], q) && q in Keys(x) {
        var i :| 0 <= i < |Keys(x[1..])| && Keys(x[1..])[i] == q;
        assert Keys(x)[i + 1] == q != Keys(x)[0];
        assert Find(x, q) == Find(y, q);
      }
      assert forall i | 0 <= i < |Keys(x[1..])| :: Keys(x[1..])[i] == Keys(x)[i + 1];
      SameParams(x[1..], y[1..]);
    }
  }

  // ---------------------------------------------------------------- the order of keys

  lemma {:induction false} PutKeysContains(ks: seq<string>, more: seq<string>, q: string)
    ensures q in PutKeys(ks, more) <==> q in ks || q in more
    decreases |more|
  {
    if more != [] {
      PutKeysContains(PutKey(ks, more[0]), more[1..], q);
      assert q in more <==> q == more[0] || q in more[1..];
    }
  }

  lemma {:induction false} PutKeysDistinct(ks: seq<string>, more: seq<string>)
    requires Distinct(ks)
    ensures Distinct(PutKeys(ks, more))
    ensures ks <= PutKeys(ks, more)
    decreases |more|
  {
    if more != [] {
      PutKeysDistinct(PutKey(ks, more[0]), more[1..]);
    }
  }

  lemma {:induction false} MinusContains(ks: seq<string>, out: seq<string>, q: string)
    ensures q in Minus(ks, out) <==> q in ks && q !in out
  {
    if ks != [] {
      MinusContains(ks[1..], out, q);
      assert q in ks <==> q == ks[0] || q in ks[1..];
    }
  }

  lemma {:induction false} MinusDistinct(ks: seq<string>, out: seq<string>)
    requires Distinct(ks)
    ensures Distinct(Minus(ks, out))
  {
    if ks != [] {
      MinusDistinct(ks[1..], out);
      MinusContains(ks[1..], out, ks[0]);
    }
  }

  lemma {:induction false} MinusConcat(a: seq<string>, b: seq<string>, out: seq<string>)
    ensures Minus(a + b, out) == Minus(a, out) + Minus(b, out)
  {
    if a == [] {
      assert a + b == b;
    } else {
      assert (a + b)[1..] == a[1..] + b;
      MinusConcat(a[1..], b, out);
    }
  }

  lemma {:induction false} MinusOne(key: string, out: seq<string>)
    ensures Minus([key], out) == if key in out then [] else [key]
  {
    assert [key][1..] == [];
  }

  lemma {:induction false} MinusAgain(ks: seq<string>, out: seq<string>)
    ensures Minus(Minus(ks, out), out) == Minus(ks, out)
  {
    if ks != [] {
      MinusAgain(ks[1..], out);
      if ks[0] !in out {
        assert ([ks[0]] + Minus(ks[1..], out))[1..] == Minus(ks[1..], out);
      } else {
        assert Minus(ks, out) == Minus(ks[1..], out);
      }
    }
  }

  lemma {:induction false} MinusDrop(ks: seq<string>, noun: string, nouns: seq<string>)
    requires Distinct(ks)
    ensures Minus(DropKey(ks, noun), nouns) == Minus(ks, [noun] + nouns)
  {
    if ks != [] {
      if ks[0] == noun {
        forall q | q in ks[1..] ensures q in nouns <==> q in [noun] + nouns {
          var i :| 0 <= i < |ks[1..]| && ks[1..][i] == q;
          assert q == ks[i + 1] != ks[0];
        }
        MinusSame(ks[1..], nouns, [noun] + nouns);
        assert ks[0] in [noun] + nouns;
      } else {
        MinusDrop(ks[1..], noun, nouns);
        assert ks[0] in [noun] + nouns <==> ks[0] in nouns;
        assert ([ks[0]] + DropKey(ks[1..], noun))[1..] == DropKey(ks[1..], noun);
      }
    }
  }

  lemma {:induction false} MinusSame(ks: seq<string>, a: seq<string>, b: seq<string>)
    requires forall q | q in ks :: q in a <==> q in b
    ensures Minus(ks, a) == Minus(ks, b)
  {
    if ks != [] {
      MinusSame(ks[1..], a, b);
    }
  }

  lemma {:induction false} MinusPutKeys(ks: seq<string>, more: seq<string>, out: seq<string>)
    requires forall q | q in more :: q in out || q in ks
    ensures Minus(PutKeys(ks, more), out) == Minus(ks, out)
    decreases |more|
  {
    if more != [] {
      MinusConcat(ks, [more[0]], out);
      MinusOne(more[0], out);
      MinusPutKeys(PutKey(ks, more[0]), more[1..], out);
    }
  }

  lemma {:induction false} DropKeyMeaning(ks: seq<string>, key: string, q: string)
    requires Distinct(ks)
    ensures Distinct(DropKey(ks, key))
    ensures q in DropKey(ks, key) <==> q in ks && q != key
  {
    MinusDrop(ks, key, []);
    MinusNone(DropKey(ks, key));
    assert [key] + [] == [key];
    MinusContains(ks, [key], q);
    MinusDistinct(ks, [key]);
  }

  // ---------------------------------------------------------------- what a pin edit does

  /** The key order after a pin edit: pin nouns go, and the chosen one comes back last. */
  function EditedKeys(ks: seq<string>, nouns: seq<string>, pinType: string): seq<string> {
    Minus(ks, nouns) + (if pinType in nouns then [pinType] else [])
  }

  lemma {:induction false} PinStepKeys(ps: seq<Param>, noun: string, pinType: string, pin: string)
    requires Distinct(Keys(ps)) && pinType in Keys(ps)
    ensures var ks := Keys(PinStep(ps, noun, pinType, pin));
            && Distinct(ks) && pinType in ks
            && ks == (if noun !in Keys(ps) then Keys(ps)
                      else if noun == pinType then DropKey(Keys(ps), noun) + [pinType]
                      else DropKey(Keys(ps), noun))
  {
    FindIsMember(ps, noun);
    DropMeaning(ps, noun, pinType);
    PutMeaning(DropParam(ps, noun), pinType, Some(pin), pinType);
    DropKeyMeaning(Keys(ps), noun, pinType);
  }

  lemma {:induction false} PinEditKeys(ps: seq<Param>, nouns: seq<string>, pinType: string, pin: string)
    requires Distinct(Keys(ps)) && pinType in Keys(ps) && Distinct(nouns)
    ensures Keys(PinEdit(ps, nouns, pinType, pin)) == EditedKeys(Keys(ps), nouns, pinType)
    decreases |nouns|
  {
    var ks := Keys(ps);
    if nouns == [] {
      MinusNone(ks);
    } else {
      var noun, rest := nouns[0], nouns[1..];
      var next := PinStep(ps, noun, pinType, pin);
      PinStepKeys(ps, noun, pinType, pin);
      PinEditKeys(next, rest, pinType, pin);
      assert nouns == [noun] + rest && noun !in rest;
      EditedStep(ks, Keys(next), noun, rest, pinType);
    }
  }

  lemma {:induction false} EditedStep(
    ks: seq<string>, next: seq<string>, noun: string, rest: seq<string>, pinType: string)
    requires Distinct(ks) && pinType in ks && noun !in rest
    requires next == if noun !in ks then ks
                     else if noun == pinType then DropKey(ks, noun) + [pinType] else DropKey(ks, noun)
    ensures EditedKeys(next, rest, pinType) == EditedKeys(ks, [noun] + rest, pinType)
  {
    var nouns := [noun] + rest;
    MinusDrop(ks, noun, rest);
    assert pinType in nouns <==> pinType == noun || pinType in rest;
    if noun !in ks {
      MinusSame(ks, rest, nouns);
    } else if noun == pinType {
      MinusConcat(DropKey(ks, noun), [pinType], rest);
      MinusOne(pinType, rest);
      assert Minus(next, rest) == Minus(ks, nouns) + [pinType];
    } else {
      assert Minus(next, rest) == Minus(ks, nouns);
    }
  }

  lemma {:induction false} MinusNone(ks: seq<string>)
    ensures Minus(ks, []) == ks
  {
    if ks != [] {
      MinusNone(ks[1..]);
    }
  }

  lemma {:induction false} PinEditValue(ps: seq<Param>, nouns: seq<string>, pinType: string, pin: string)
    requires Distinct(Keys(ps)) && pinType in Keys(ps)
    ensures Find(PinEdit(ps, nouns, pinType, pin), pinType) ==
            if exists n | n in nouns :: n in Keys(ps) then Some(Some(pin)) else Find(ps, pinType)
    decreases |nouns|
  {
    if nouns != [] {
      var noun, rest := nouns[0], nouns[1..];
      var next := PinStep(ps, noun, pinType, pin);
      PinStepKeys(ps, noun, pinType, pin);
      FindIsMember(ps, noun);
      PutMeaning(DropParam(ps, noun), pinType, Some(pin), pinType);
      PinEditValue(next, rest, pinType, pin);
      assert forall n :: n in nouns <==> n == noun || n in rest;
    }
  }

  // ---------------------------------------------------------------- the options settle

  ghost predicate PlainParams(ps: seq<Param>) {
    && Distinct(Keys(ps))
    && forall i | 0 <= i < |ps| :: PlainParam(ps[i])
  }

  /** A token that needs no quoting on a line of a file. */
  predicate Plain(s: string) {
    Clean(s) && '\n' !in s
  }

  predicate PlainParam(p: Param) {
    Plain(p.key) && !EndsWith(p.key, "dtoverlay") && p.value.Some? && Plain(p.value.value)
  }

  /** An overlay write with a positive pin whose tokens need no quoting. */
  ghost predicate Overlay(r: Request) {
    && r.configType == "dtoverlay" && r.pin.Some? && r.pin.value > 0
    && Plain(r.feature) && Plain(r.pinType) && !EndsWith(r.pinType, "dtoverlay")
    && PlainParams(r.add)
  }

  /** The options of the line that a first write appends. */
  function First(r: Request): seq<Param>
    requires r.pin.Some?
  {
    AddAll([Param(r.pinType, Some(IntText(r.pin.value)))], r.add)
  }

  /** The options after rewriting a line with options ps. */
  function Again(r: Request, ps: seq<Param>): seq<Param>
    requires r.pin.Some? && ps != []
  {
    EditParams(r, r.pin.value, BlankedParams(ps))
  }

  lemma {:induction false} BlankedMeaning(ps: seq<Param>, q: string)
    requires ps != [] && Distinct(Keys(ps))
    ensures Keys(BlankedParams(ps)) == Keys(ps)
    ensures q != ps[|ps| - 1].key ==> Find(BlankedParams(ps), q) == Find(ps, q)
  {
    var m := |ps| - 1;
    var b := BlankedParams(ps);
    if m == 0 {
      assert b == [b[0]] && ps == [ps[0]];
      assert b[1..] == [] && ps[1..] == [];
    } else {
      KeysAt(ps);
      KeysAt(ps[1..]);
      forall i, j | 0 <= i < j < |ps[1..]| ensures Keys(ps[1..])[i] != Keys(ps[1..])[j] {
        assert Keys(ps)[i + 1] != Keys(ps)[j + 1];
      }
      BlankedMeaning(ps[1..], q);
      assert b[1..] == BlankedParams(ps[1..]);
    }
  }

  /** What a rewrite makes of the key order and of each value. */
  lemma {:induction false} AgainMeaning(r: Request, ps: seq<Param>, q: string)
    requires Overlay(r) && ps != [] && Distinct(Keys(ps)) && r.pinType in Keys(ps)
    ensures Keys(Again(r, ps)) == PutKeys(EditedKeys(Keys(ps), NOUNS, r.pinType), Keys(r.add))
    ensures Distinct(Keys(Again(r, ps))) && r.pinType in Keys(Again(r, ps)) && Again(r, ps) != []
    ensures Find(r.add, q).Some? ==> Find(Again(r, ps), q) == Find(r.add, q)
    ensures q == r.pinType && Find(r.add, q).None? ==>
              Find(Again(r, ps), q) == if exists n | n in NOUNS :: n in Keys(ps) then Some(Some(IntText(r.pin.value)))
                                       else Find(BlankedParams(ps), q)
  {
    var b, ks, pin := BlankedParams(ps), Keys(ps), IntText(r.pin.value);
    BlankedMeaning(ps, q);
    PinEditKeys(b, NOUNS, r.pinType, pin);
    PinEditValue(b, NOUNS, r.pinType, pin);
    AddAllMeaning(PinEdit(b, NOUNS, r.pinType, pin), r.add, q);
    var ek := EditedKeys(ks, NOUNS, r.pinType);
    MinusDistinct(ks, NOUNS);
    MinusContains(ks, NOUNS, r.pinType);
    assert Distinct(ek) && r.pinType in ek;
    PutKeysDistinct(ek, Keys(r.add));
    PutKeysContains(ek, Keys(r.add), r.pinType);
  }

  lemma {:induction false} FirstMeaning(r: Request, q: string)
    requires Overlay(r)
    ensures var ks := Keys(First(r));
            && ks == PutKeys([r.pinType], Keys(r.add)) && Distinct(ks)
            && r.pinType in ks && ks[0] == r.pinType && First(r) != []
    ensures Find(r.add, q).Some? ==> Find(First(r), q) == Find(r.add, q)
    ensures q == r.pinType && Find(r.add, q).None? ==> Find(First(r), q) == Some(Some(IntText(r.pin.value)))
  {
    var start := [Param(r.pinType, Some(IntText(r.pin.value)))];
    assert start[1..] == [];
    assert Keys(start) == [r.pinType];
    AddAllMeaning(start, r.add, q);
    PutKeysDistinct([r.pinType], Keys(r.add));
  }

  /** Rewriting keeps the order in which the keys already stand. */
  lemma {:induction false} OrderSettles(ks: seq<string>, add: seq<string>, nouns: seq<string>, pinType: string)
    requires forall q | q in add :: q in ks
    ensures var next := PutKeys(EditedKeys(ks, nouns, pinType), add);
            EditedKeys(next, nouns, pinType) == EditedKeys(ks, nouns, pinType)
  {
    var ek := EditedKeys(ks, nouns, pinType);
    forall q | q in add ensures q in nouns || q in ek {
      MinusContains(ks, nouns, q);
    }
    var next := PutKeys(ek, add);
    MinusPutKeys(ek, add, nouns);
    EditedMinus(ks, nouns, pinType);
    assert Minus(next, nouns) == Minus(ks, nouns);
    EditedByMinus(next, ks, nouns, pinType);
  }

  lemma {:induction false} EditedByMinus(a: seq<string>, b: seq<string>, nouns: seq<string>, pinType: string)
    requires Minus(a, nouns) == Minus(b, nouns)
    ensures EditedKeys(a, nouns, pinType) == EditedKeys(b, nouns, pinType)
  {
  }

  lemma {:induction false} EditedMinus(ks: seq<string>, nouns: seq<string>, pinType: string)
    ensures Minus(EditedKeys(ks, nouns, pinType), nouns) == Minus(ks, nouns)
  {
    var kept := Minus(ks, nouns);
    MinusAgain(ks, nouns);
    if pinType in nouns {
      MinusConcat(kept, [pinType], nouns);
      MinusOne(pinType, nouns);
      assert kept + [] == kept;
    } else {
      assert kept + [] == kept;
    }
  }

  /** After the first write, the pin's own value is never the last one on the line, or is always rewritten. */
  ghost predicate Told(r: Request) {
    r.pinType in NOUNS || r.add != []
  }

  /** A line of this write: its keys, and what its values are. */
  ghost predicate Settled(r: Request, ps: seq<Param>)
    requires r.pin.Some?
  {
    && ps != [] && Distinct(Keys(ps)) && r.pinType in Keys(ps)
    && (forall q | q in Keys(r.add) :: q in Keys(ps))
    && (forall q | q in Keys(ps) :: q == r.pinType || q in Keys(r.add))
    && (forall q | q in Keys(r.add) :: Find(ps, q) == Find(r.add, q))
    && (r.pinType !in Keys(r.add) ==> Find(ps, r.pinType) == Some(Some(IntText(r.pin.value))))
    && (r.pinType !in NOUNS ==> Keys(ps)[0] == r.pinType)
  }

  lemma {:induction false} FirstIsSettled(r: Request)
    requires Overlay(r)
    ensures First(r) != [] && Settled(r, First(r))
  {
    FirstMeaning(r, r.pinType);
    FindIsMember(r.add, r.pinType);
    forall q | q in Keys(r.add) ensures q in Keys(First(r)) && Find(First(r), q) == Find(r.add, q) {
      FirstMeaning(r, q);
      FindIsMember(r.add, q);
      PutKeysContains([r.pinType], Keys(r.add), q);
    }
    forall q | q in Keys(First(r)) ensures q == r.pinType || q in Keys(r.add) {
      PutKeysContains([r.pinType], Keys(r.add), q);
    }
  }

  /** A pin type that is no noun stays first, so the blanks never reach its value. */
  lemma {:induction false} PinValueKept(r: Request, ps: seq<Param>)
    requires Overlay(r) && Told(r) && Settled(r, ps) && r.pinType !in Keys(r.add) && r.pinType !in NOUNS
    ensures Find(BlankedParams(ps), r.pinType) == Find(ps, r.pinType)
  {
    KeysAt(ps);
    KeysAt(r.add);
    assert Keys(r.add)[0] in Keys(r.add);
    var i :| 0 <= i < |Keys(ps)| && Keys(ps)[i] == Keys(r.add)[0];
    assert i > 0;
    assert ps[|ps| - 1].key != r.pinType;
    BlankedMeaning(ps, r.pinType);
  }

  lemma {:induction false} AgainIsSettled(r: Request, ps: seq<Param>)
    requires Overlay(r) && Told(r) && Settled(r, ps)
    ensures Again(r, ps) != [] && Settled(r, Again(r, ps))
  {
    var next := Again(r, ps);
    var ek := EditedKeys(Keys(ps), NOUNS, r.pinType);
    AgainMeaning(r, ps, r.pinType);
    FindIsMember(r.add, r.pinType);
    forall q | q in Keys(r.add) ensures q in Keys(next) && Find(next, q) == Find(r.add, q) {
      AgainMeaning(r, ps, q);
      FindIsMember(r.add, q);
      PutKeysContains(ek, Keys(r.add), q);
    }
    forall q | q in Keys(next) ensures q == r.pinType || q in Keys(r.add) {
      PutKeysContains(ek, Keys(r.add), q);
      MinusContains(Keys(ps), NOUNS, q);
    }
    if r.pinType !in NOUNS {
      PutKeysDistinct(ek, Keys(r.add)) by {
        MinusDistinct(Keys(ps), NOUNS);
      }
      assert Keys(ps)[0] == r.pinType;
      assert ek[0] == r.pinType;
      if r.pinType !in Keys(r.add) {
        PinValueKept(r, ps);
      }
    }
  }

  /** The second rewrite finds the line as the first one left it. */
  lemma {:induction false} OptionsSettle(r: Request, ps: seq<Param>)
    requires Overlay(r) && Told(r) && Settled(r, ps)
    ensures Again(r, ps) != [] && Again(r, Again(r, ps)) == Again(r, ps)
  {
    var x := Again(r, ps);
    AgainIsSettled(r, ps);
    var y := Again(r, x);
    AgainIsSettled(r, x);
    AgainMeaning(r, ps, r.pinType);
    AgainMeaning(r, x, r.pinType);
    OrderSettles(Keys(ps), Keys(r.add), NOUNS, r.pinType);
    assert Keys(x) == Keys(y);
    forall q | q in Keys(y) ensures Find(y, q) == Find(x, q) {
      if q in Keys(r.add) {
      } else {
        assert q == r.pinType;
      }
    }
    SameParams(y, x);
  }
}
