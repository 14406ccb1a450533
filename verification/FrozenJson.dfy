/**
 Immutable JSON for durable trajectory records: freezing validates, makes
 arrays and objects immutable and sorts object keys; thawing gives plain JSON
 back. Plain dictionaries keep their insertion order, so order is modelled.
 */
module FrozenJson {
  datatype Scalar = Null | Bool(flag: bool) | Int(i: int) | Float(r: real) | Str(text: string)

  datatype Member = Member(key: string, value: Value)

  datatype Value =
    | Leaf(scalar: Scalar)
    | List(items: seq<Value>)
    | Dict(members: seq<Member>)
    | FrozenArray(items: seq<Value>)
    | FrozenObject(members: seq<Member>)

  // ---------------------------------------------------------------- key order

  /** Code point order on strings, as `sort` compares keys. */
  predicate Less(a: string, b: string) {
    b != "" && (a == "" || a[0] < b[0] || (a[0] == b[0] && Less(a[1..], b[1..])))
  }

  /** The strings agree up to `k`, where the first one ends or has the smaller character. */
  predicate SmallerAt(a: string, b: string, k: nat) {
    k <= |a| && k < |b| && a[..k] == b[..k] && (k < |a| ==> a[k] < b[k])
  }

  lemma {:induction false} LessExactly(a: string, b: string)
    ensures Less(a, b) <==> exists k: nat :: SmallerAt(a, b, k)
  {
    assert forall k: nat | 0 < k <= |a| && k <= |b| :: a[..k][0] == a[0] && b[..k][0] == b[0];
    if a != "" && b != "" && a[0] == b[0] {
      LessExactly(a[1..], b[1..]);
      if k: nat :| SmallerAt(a[1..], b[1..], k) {
        assert a[..k + 1] == [a[0]] + a[1..][..k] && b[..k + 1] == [b[0]] + b[1..][..k];
        assert SmallerAt(a, b, k + 1);
      }
      if k: nat :| SmallerAt(a, b, k) {
        assert k > 0 && a[1..][..k - 1] == a[..k][1..] && b[1..][..k - 1] == b[..k][1..];
        assert SmallerAt(a[1..], b[1..], k - 1);
      }
    } else if Less(a, b) {
      assert SmallerAt(a, b, 0);
    }
  }

  lemma {:induction false} LessTotal(a: string, b: string)
    ensures a == b || Less(a, b) || Less(b, a)
    ensures !(Less(a, b) && Less(b, a)) && !Less(a, a)
  {
    if a != "" && b != "" && a[0] == b[0] {
      LessTotal(a[1..], b[1..]);
      assert a == [a[0]] + a[1..] && b == [b[0]] + b[1..];
    }
    if a != "" {
      LessTotal(a[1..], a[1..]);
    }
  }

  lemma {:induction false} LessTransitive(a: string, b: string, c: string)
    requires Less(a, b) && Less(b, c)
    ensures Less(a, c)
  {
    if a != "" && a[0] == b[0] && b[0] == c[0] {
      LessTransitive(a[1..], b[1..], c[1..]);
    }
  }

  ghost predicate Sorted(ms: seq<Member>) {
    forall i, j | 0 <= i < j < |ms| :: Less(ms[i].key, ms[j].key)
  }

  ghost predicate UniqueKeys(ms: seq<Member>) {
    forall i, j | 0 <= i < j < |ms| :: ms[i].key != ms[j].key
  }

  function Insert(m: Member, ms: seq<Member>): (r: seq<Member>)
    ensures |r| == |ms| + 1
    ensures forall x :: x in r <==> x == m || x in ms
  {
    if ms == [] then [m]
    else if Less(ms[0].key, m.key) then [ms[0]] + Insert(m, ms[1..])
    else [m] + ms
  }

  function Sort(ms: seq<Member>): (r: seq<Member>)
    ensures |r| == |ms|
    ensures forall x :: x in r <==> x in ms
  {
    if ms == [] then [] else Insert(ms[0], Sort(ms[1..]))
  }

  lemma {:induction false} InsertSorts(m: Member, ms: seq<Member>)
    requires Sorted(ms) && forall x | x in ms :: x.key != m.key
    ensures Sorted(Insert(m, ms))
  {
    if ms == [] {
    } else if Less(ms[0].key, m.key) {
      InsertSorts(m, ms[1..]);
      var r := Insert(m, ms[1..]);
      forall j | 0 <= j < |r| ensures Less(ms[0].key, r[j].key) {
        assert r[j] in r;
      }
    } else {
      LessTotal(ms[0].key, m.key);
      forall j | 0 <= j < |ms| ensures Less(m.key, ms[j].key) {
        if j > 0 {
          LessTransitive(m.key, ms[0].key, ms[j].key);
        }
      }
    }
  }

  lemma {:induction false} SortSorts(ms: seq<Member>)
    requires UniqueKeys(ms)
    ensures Sorted(Sort(ms))
  {
    if ms != [] {
      SortSorts(ms[1..]);
      InsertSorts(ms[0], Sort(ms[1..]));
    }
  }

  /** A strictly sorted sequence is determined by its elements. */
  lemma {:induction false} SortedIsCanonical(a: seq<Member>, b: seq<Member>)
    requires Sorted(a) && Sorted(b) && forall x :: x in a <==> x in b
    ensures a == b
    decreases |a|
  {
    assert b != [] ==> b[0] in b && b[0] in a;
    if a != [] {
      assert a[0] in b && b != [] && b[0] in a;
      assert a[0] == b[0] by {
        LessTotal(a[0].key, b[0].key);
        LessTotal(a[0].key, a[0].key);
      }
      forall x ensures x in a[1..] <==> x in b[1..] {
        LessTotal(a[0].key, a[0].key);
        assert x in a[1..] ==> x in a && Less(a[0].key, x.key);
        assert x in b[1..] ==> x in b && Less(b[0].key, x.key);
        assert x in a && x != a[0] ==> x in a[1..];
        assert x in b && x != b[0] ==> x in b[1..];
      }
      SortedIsCanonical(a[1..], b[1..]);
    }
  }

  lemma {:induction false} SortOfSorted(ms: seq<Member>)
    requires Sorted(ms)
    ensures Sort(ms) == ms
  {
    UniqueWhenSorted(ms);
    SortSorts(ms);
    SortedIsCanonical(Sort(ms), ms);
  }

  lemma {:induction false} UniqueWhenSorted(ms: seq<Member>)
    requires Sorted(ms)
    ensures UniqueKeys(ms)
  {
    forall i, j | 0 <= i < j < |ms| ensures ms[i].key != ms[j].key {
      LessTotal(ms[i].key, ms[j].key);
      LessTotal(ms[i].key, ms[i].key);
    }
  }

  // ---------------------------------------------------------------- freezing and thawing

  /** No object repeats a key; plain dictionaries never do, pairs handed to a frozen object might. */
  ghost predicate Acceptable(v: Value) {
    match v
    case Leaf(_) => true
    case List(items) => forall i | 0 <= i < |items| :: Acceptable(items[i])
    case FrozenArray(items) => forall i | 0 <= i < |items| :: Acceptable(items[i])
    case Dict(ms) => UniqueKeys(ms) && forall i | 0 <= i < |ms| :: Acceptable(ms[i].value)
    case FrozenObject(ms) => UniqueKeys(ms) && forall i | 0 <= i < |ms| :: Acceptable(ms[i].value)
  }

  /** `_validated_frozen_json_value` of an acceptable value. */
  function Freeze(v: Value): Value {
    match v
    case Leaf(_) => v
    case List(items) => FrozenArray(seq(|items|, i requires 0 <= i < |items| => Freeze(items[i])))
    case FrozenArray(items) => FrozenArray(seq(|items|, i requires 0 <= i < |items| => Freeze(items[i])))
    case Dict(ms) =>
      FrozenObject(Sort(seq(|ms|, i requires 0 <= i < |ms| => Member(ms[i].key, Freeze(ms[i].value)))))
    case FrozenObject(ms) =>
      FrozenObject(Sort(seq(|ms|, i requires 0 <= i < |ms| => Member(ms[i].key, Freeze(ms[i].value)))))
  }

  /** What every frozen instance satisfies: frozen all the way down, keys strictly sorted. */
  ghost predicate IsFrozen(v: Value) {
    match v
    case Leaf(_) => true
    case FrozenArray(items) => forall i | 0 <= i < |items| :: IsFrozen(items[i])
    case FrozenObject(ms) => Sorted(ms) && forall i | 0 <= i < |ms| :: IsFrozen(ms[i].value)
    case _ => false
  }

  /** Ordinary decoded JSON. */
  ghost predicate IsPlain(v: Value) {
    match v
    case Leaf(_) => true
    case List(items) => forall i | 0 <= i < |items| :: IsPlain(items[i])
    case Dict(ms) => UniqueKeys(ms) && forall i | 0 <= i < |ms| :: IsPlain(ms[i].value)
    case _ => false
  }

  /** `trajectory_json_value` of a frozen value. */
  function Thaw(v: Value): Value
    requires IsFrozen(v)
  {
    match v
    case Leaf(_) => v
    case FrozenArray(items) => List(seq(|items|, i requires 0 <= i < |items| => Thaw(items[i])))
    case FrozenObject(ms) => Dict(seq(|ms|, i requires 0 <= i < |ms| => Member(ms[i].key, Thaw(ms[i].value))))
  }

  /** Where a key is found first, or the length when it is nowhere. */
  function IndexOf(ms: seq<Member>, key: string): (i: nat)
    ensures i <= |ms| && (i < |ms| ==> ms[i].key == key)
    ensures forall j | 0 <= j < i :: ms[j].key != key
  {
    if ms == [] || ms[0].key == key then 0 else 1 + IndexOf(ms[1..], key)
  }

  lemma {:induction false} IndexOfUnique(ms: seq<Member>, i: nat)
    requires UniqueKeys(ms) && i < |ms|
    ensures IndexOf(ms, ms[i].key) == i
  {
    assert forall k | 0 <= k < i :: ms[k].key != ms[i].key;
  }

  /** The same JSON value: arrays elementwise, objects key by key in any order. */
  ghost predicate SameJson(v: Value, w: Value)
    decreases v
  {
    match (v, w)
    case (Leaf(a), Leaf(b)) => a == b
    case (List(xs), List(ys)) => |xs| == |ys| && forall i | 0 <= i < |xs| :: SameJson(xs[i], ys[i])
    case (Dict(xs), Dict(ys)) =>
      && (forall i | 0 <= i < |xs| ::
            IndexOf(ys, xs[i].key) < |ys| && SameJson(xs[i].value, ys[IndexOf(ys, xs[i].key)].value))
      && (forall j | 0 <= j < |ys| :: IndexOf(xs, ys[j].key) < |xs|)
    case _ => false
  }

  function FrozenMembers(ms: seq<Member>): (r: seq<Member>)
    ensures |r| == |ms| && forall i | 0 <= i < |ms| :: r[i] == Member(ms[i].key, Freeze(ms[i].value))
  {
    seq(|ms|, i requires 0 <= i < |ms| => Member(ms[i].key, Freeze(ms[i].value)))
  }

  lemma {:induction false} FreezeFreezes(v: Value)
    requires Acceptable(v)
    ensures IsFrozen(Freeze(v))
  {
    match v
    case Leaf(_) =>
    case List(items) => forall i | 0 <= i < |items| { FreezeFreezes(items[i]); }
    case FrozenArray(items) => forall i | 0 <= i < |items| { FreezeFreezes(items[i]); }
    case Dict(ms) =>
      forall i | 0 <= i < |ms| { FreezeFreezes(ms[i].value); }
      MembersFreeze(ms);
    case FrozenObject(ms) =>
      forall i | 0 <= i < |ms| { FreezeFreezes(ms[i].value); }
      MembersFreeze(ms);
  }

  lemma {:induction false} MembersFreeze(ms: seq<Member>)
    requires UniqueKeys(ms) && forall i | 0 <= i < |ms| :: IsFrozen(Freeze(ms[i].value))
    ensures Sorted(Sort(FrozenMembers(ms)))
    ensures forall i | 0 <= i < |ms| :: IsFrozen(Sort(FrozenMembers(ms))[i].value)
  {
    SortSorts(FrozenMembers(ms));
    forall i | 0 <= i < |ms| ensures IsFrozen(Sort(FrozenMembers(ms))[i].value) {
      assert Sort(FrozenMembers(ms))[i] in FrozenMembers(ms);
    }
  }

  /** Freezing what is frozen changes nothing. */
  lemma {:induction false} FreezeOfFrozen(v: Value)
    requires IsFrozen(v)
    ensures Acceptable(v) && Freeze(v) == v
  {
    match v
    case Leaf(_) =>
    case FrozenArray(items) => forall i | 0 <= i < |items| { FreezeOfFrozen(items[i]); }
    case FrozenObject(ms) =>
      forall i | 0 <= i < |ms| { FreezeOfFrozen(ms[i].value); }
      UniqueWhenSorted(ms);
      assert FrozenMembers(ms) == ms;
      SortOfSorted(ms);
  }

  /** Freezing what was thawed gives the frozen value back. */
  lemma {:induction false} FreezeOfThawed(v: Value)
    requires IsFrozen(v)
    ensures IsPlain(Thaw(v)) && Freeze(Thaw(v)) == v
  {
    match v
    case Leaf(_) =>
    case FrozenArray(items) => forall i | 0 <= i < |items| { FreezeOfThawed(items[i]); }
    case FrozenObject(ms) =>
      forall i | 0 <= i < |ms| { FreezeOfThawed(ms[i].value); }
      UniqueWhenSorted(ms);
      assert FrozenMembers(Thaw(v).members) == ms;
      SortOfSorted(ms);
  }

  lemma {:induction false} PlainIsAcceptable(v: Value)
    requires IsPlain(v)
    ensures Acceptable(v)
  {
    match v
    case Leaf(_) =>
    case List(items) => forall i | 0 <= i < |items| { PlainIsAcceptable(items[i]); }
    case Dict(ms) => forall i | 0 <= i < |ms| { PlainIsAcceptable(ms[i].value); }
  }

  /** Two plain values freeze to the same structure exactly when they differ at most in key order. */
  lemma {:induction false} FreezeIsCanonical(v: Value, w: Value)
    requires IsPlain(v) && IsPlain(w)
    ensures Freeze(v) == Freeze(w) <==> SameJson(v, w)
    decreases v
  {
    match (v, w)
    case (List(xs), List(ys)) =>
      if |xs| == |ys| {
        forall i | 0 <= i < |xs| ensures Freeze(xs[i]) == Freeze(ys[i]) <==> SameJson(xs[i], ys[i]) {
          FreezeIsCanonical(xs[i], ys[i]);
        }
        if Freeze(v) == Freeze(w) {
          forall i | 0 <= i < |xs| ensures SameJson(xs[i], ys[i]) {
            assert Freeze(v).items[i] == Freeze(w).items[i];
          }
        } else {
          assert !(forall i | 0 <= i < |xs| :: Freeze(v).items[i] == Freeze(w).items[i]);
        }
      } else {
        assert |Freeze(v).items| != |Freeze(w).items|;
      }
    case (Dict(xs), Dict(ys)) =>
      forall i, j | 0 <= i < |xs| && 0 <= j < |ys|
        ensures Freeze(xs[i].value) == Freeze(ys[j].value) <==> SameJson(xs[i].value, ys[j].value)
      {
        FreezeIsCanonical(xs[i].value, ys[j].value);
      }
      assert ValuesKnown(xs, ys);
      DictsFreezeAlike(v, w);
    case _ =>
  }

  /** What the induction knows about two dictionaries: their values freeze alike exactly when they are the same JSON. */
  ghost predicate ValuesKnown(xs: seq<Member>, ys: seq<Member>) {
    forall i, j | 0 <= i < |xs| && 0 <= j < |ys| ::
      Freeze(xs[i].value) == Freeze(ys[j].value) <==> SameJson(xs[i].value, ys[j].value)
  }

  /** Every member has one under the same key that freezes to the same. */
  ghost predicate Matched(xs: seq<Member>, ys: seq<Member>) {
    forall i | 0 <= i < |xs| ::
      IndexOf(ys, xs[i].key) < |ys| && Freeze(xs[i].value) == Freeze(ys[IndexOf(ys, xs[i].key)].value)
  }

  ghost predicate Covered(xs: seq<Member>, ys: seq<Member>) {
    forall j | 0 <= j < |ys| :: IndexOf(xs, ys[j].key) < |xs|
  }

  lemma {:induction false} DictsFreezeAlike(v: Value, w: Value)
    requires v.Dict? && w.Dict? && IsPlain(v) && IsPlain(w) && ValuesKnown(v.members, w.members)
    ensures Freeze(v) == Freeze(w) <==> SameJson(v, w)
  {
    var xs, ys := v.members, w.members;
    assert Freeze(v) == FrozenObject(Sort(FrozenMembers(xs))) && Freeze(w) == FrozenObject(Sort(FrozenMembers(ys)));
    MatchedSortAlike(xs, ys);
    assert SameJson(v, w) <==> Matched(xs, ys) && Covered(xs, ys);
  }

  lemma {:induction false} MatchedSortAlike(xs: seq<Member>, ys: seq<Member>)
    requires UniqueKeys(xs) && UniqueKeys(ys)
    ensures Sort(FrozenMembers(xs)) == Sort(FrozenMembers(ys)) <==> Matched(xs, ys) && Covered(xs, ys)
  {
    var fx, fy := FrozenMembers(xs), FrozenMembers(ys);
    SortsAlike(xs, ys);
    forall i | 0 <= i < |xs|
      ensures fx[i] in fy <==>
              IndexOf(ys, xs[i].key) < |ys| && Freeze(xs[i].value) == Freeze(ys[IndexOf(ys, xs[i].key)].value)
    {
      KeyedMember(xs, ys, i);
    }
    forall j | 0 <= j < |ys|
      ensures fy[j] in fx ==> IndexOf(xs, ys[j].key) < |xs|
      ensures Matched(xs, ys) && IndexOf(xs, ys[j].key) < |xs| ==> fy[j] in fx
    {
      KeyedMember(ys, xs, j);
      if IndexOf(xs, ys[j].key) < |xs| {
        IndexOfUnique(ys, j);
      }
    }
  }

  /** A frozen member lies among the others exactly when the member under its key froze to the same. */
  lemma {:induction false} KeyedMember(xs: seq<Member>, ys: seq<Member>, i: nat)
    requires UniqueKeys(ys) && i < |xs|
    ensures var k := IndexOf(ys, xs[i].key);
            FrozenMembers(xs)[i] in FrozenMembers(ys) <==>
            k < |ys| && Freeze(xs[i].value) == Freeze(ys[k].value)
  {
    var fx, fy, k := FrozenMembers(xs), FrozenMembers(ys), IndexOf(ys, xs[i].key);
    if fx[i] in fy {
      var j :| 0 <= j < |fy| && fy[j] == fx[i];
      IndexOfUnique(ys, j);
    }
    if k < |ys| && Freeze(xs[i].value) == Freeze(ys[k].value) {
      assert fy[k] == fx[i];
    }
  }

  /** Two sets of members sort alike exactly when they have the same elements. */
  lemma {:induction false} SortsAlike(xs: seq<Member>, ys: seq<Member>)
    requires UniqueKeys(xs) && UniqueKeys(ys)
    ensures var fx, fy := FrozenMembers(xs), FrozenMembers(ys);
            Sort(fx) == Sort(fy) <==>
            (forall i | 0 <= i < |fx| :: fx[i] in fy) && (forall j | 0 <= j < |fy| :: fy[j] in fx)
  {
    var fx, fy := FrozenMembers(xs), FrozenMembers(ys);
    if Sort(fx) == Sort(fy) {
      forall i | 0 <= i < |fx| ensures fx[i] in fy {
        assert fx[i] in Sort(fx);
      }
      forall j | 0 <= j < |fy| ensures fy[j] in fx {
        assert fy[j] in Sort(fy);
      }
    }
    if (forall i | 0 <= i < |fx| :: fx[i] in fy) && (forall j | 0 <= j < |fy| :: fy[j] in fx) {
      SortSorts(fx);
      SortSorts(fy);
      SortedIsCanonical(Sort(fx), Sort(fy));
    }
  }

  /** Thawing a frozen value gives the same JSON value. */
  lemma {:induction false} ThawOfFrozen(v: Value)
    requires IsPlain(v)
    ensures Acceptable(v) && IsFrozen(Freeze(v)) && SameJson(Thaw(Freeze(v)), v)
  {
    PlainIsAcceptable(v);
    FreezeFreezes(v);
    FreezeOfThawed(Freeze(v));
    FreezeIsCanonical(Thaw(Freeze(v)), v);
  }
}
