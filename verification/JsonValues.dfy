/**
 JSON values as the Python code holds them after `json.loads`: integers and
 floats are different types, objects are dictionaries whose key order no
 caller of this module observes.
 */
module JsonValues {
  type Dict = map<string, Json>

  datatype Json =
    | Null
    | Bool(flag: bool)
    | Int(i: int)
    | Real(r: real)
    | Str(text: string)
    | Arr(items: seq<Json>)
    | Obj(members: Dict)
  {
    /** `isinstance(value, (int, float)) and not isinstance(value, bool)`. */
    predicate IsNumber() {
      Int? || Real?
    }

    /** The value of a number, also of a bool (which Python counts as an int). */
    function Numeric(): real
      requires IsNumber() || Bool?
    {
      match this
      case Bool(flag) => if flag then 1.0 else 0.0
      case Int(i) => i as real
      case Real(r) => r
    }
  }

  /** Python's `==` on JSON values: 1 == 1.0 == True, and containers compare elementwise. */
  predicate PyEq(a: Json, b: Json)
    decreases a
  {
    if (a.IsNumber() || a.Bool?) && (b.IsNumber() || b.Bool?) then a.Numeric() == b.Numeric()
    else
      match (a, b)
      case (Arr(xs), Arr(ys)) => |xs| == |ys| && forall i | 0 <= i < |xs| :: PyEq(xs[i], ys[i])
      case (Obj(m), Obj(n)) => m.Keys == n.Keys && forall k | k in m :: PyEq(m[k], n[k])
      case _ => a == b
  }

  /** A value with all its numbers and bools as reals. */
  function Unified(a: Json): Json
    decreases a
  {
    match a
    case Bool(flag) => Real(if flag then 1.0 else 0.0)
    case Int(i) => Real(i as real)
    case Arr(xs) => Arr(seq(|xs|, i requires 0 <= i < |xs| => Unified(xs[i])))
    case Obj(m) => Obj(map k | k in m :: Unified(m[k]))
    case _ => a
  }

  /** Python's `==` sees no more of a value than its numbers' values and its structure. */
  lemma {:induction false} PyEqExactly(a: Json, b: Json)
    ensures PyEq(a, b) <==> Unified(a) == Unified(b)
    decreases a
  {
    match (a, b)
    case (Arr(xs), Arr(ys)) => ListsEqual(xs, ys, a);
    case (Obj(m), Obj(n)) => MembersEqual(m, n, a);
    case _ =>
  }

  lemma {:induction false} ListsEqual(xs: seq<Json>, ys: seq<Json>, a: Json)
    requires a == Arr(xs)
    ensures PyEq(a, Arr(ys)) <==> Unified(a) == Unified(Arr(ys))
    decreases a, 0
  {
    forall i | 0 <= i < |xs| && i < |ys| ensures PyEq(xs[i], ys[i]) <==> Unified(xs[i]) == Unified(ys[i]) {
      PyEqExactly(xs[i], ys[i]);
    }
    var us, vs := Unified(a).items, Unified(Arr(ys)).items;
    assert |us| == |xs| && |vs| == |ys|;
    assert forall i | 0 <= i < |xs| :: us[i] == Unified(xs[i]);
    assert forall i | 0 <= i < |ys| :: vs[i] == Unified(ys[i]);
    if PyEq(a, Arr(ys)) {
      assert us == vs;
    }
  }

  lemma {:induction false} MembersEqual(m: Dict, n: Dict, a: Json)
    requires a == Obj(m)
    ensures PyEq(a, Obj(n)) <==> Unified(a) == Unified(Obj(n))
    decreases a, 0
  {
    forall k | k in m && k in n ensures PyEq(m[k], n[k]) <==> Unified(m[k]) == Unified(n[k]) {
      assert m[k] < a;
      PyEqExactly(m[k], n[k]);
    }
    var u, v := Unified(a).members, Unified(Obj(n)).members;
    assert u.Keys == m.Keys && v.Keys == n.Keys;
    assert u == v <==> u.Keys == v.Keys && forall k | k in u :: u[k] == v[k];
  }

  /** A JSON number, of either kind, of this value. */
  predicate Spells(value: Json, r: real) {
    value == Real(r) || (value.Int? && value.i as real == r)
  }

  /** `mapping.get(key)`: an absent key and a null read the same. */
  function Get(d: Dict, key: string): Json {
    if key in d then d[key] else Null
  }

  predicate LowerHex(c: char) {
    '0' <= c <= '9' || 'a' <= c <= 'f'
  }

  /** `str(UUID(value)) == value`: the one canonical spelling of a UUID. */
  predicate CanonicalUuid(s: string) {
    |s| == 36 &&
    forall i | 0 <= i < 36 :: if i in {8, 13, 18, 23} then s[i] == '-' else LowerHex(s[i])
  }

  const NIL_UUID := "00000000-0000-0000-0000-000000000000"

  type Uuid = s: string | CanonicalUuid(s) witness NIL_UUID
}
