/**
 Nested dictionaries addressed by key paths: reading a path, the deep
 assignment of common/control_delta.py, path deletion, and what each of them
 leaves alone.
 */
module JsonTrees {
  import opened Wrappers
  import opened JsonValues

  type Path = seq<string>

  /** The value at a path, going through dictionaries only. */
  function Lookup(j: Json, p: Path): Option<Json>
    decreases |p|
  {
    if p == [] then Some(j)
    else if j.Obj? && p[0] in j.members then Lookup(j.members[p[0]], p[1..])
    else None
  }

  /** A path as it travels in an envelope. */
  function EncodePath(path: Path): Json {
    Arr(seq(|path|, i requires 0 <= i < |path| => Str(path[i])))
  }

  function EncodePaths(paths: seq<Path>): seq<Json> {
    seq(|paths|, i requires 0 <= i < |paths| => EncodePath(paths[i]))
  }

  /** One path addresses the other or something inside it. */
  predicate Comparable(p: Path, q: Path) {
    p <= q || q <= p
  }

  /** The paths at which a delta states a value: everything but nonempty dictionaries. */
  predicate IsLeaf(v: Dict, p: Path)
    decreases |p|
  {
    p != [] && p[0] in v &&
    var child := v[p[0]];
    if child.Obj? && child.members != map[] then IsLeaf(child.members, p[1..]) else |p| == 1
  }

  /** `_deep_assign`: dictionaries merge into dictionaries, everything else assigns. */
  function DeepAssign(t: Dict, v: Dict): Dict
    decreases Obj(v)
  {
    map k | k in t.Keys + v.Keys ::
      if k !in v then t[k]
      else if v[k].Obj? && k in t && t[k].Obj? then Obj(DeepAssign(t[k].members, v[k].members))
      else v[k]
  }

  /** `_delete_path`: absent parents, or parents that are no dictionary, mean there is nothing to do. */
  function DeletePath(t: Dict, p: Path): Dict
    requires p != []
    decreases |p|
  {
    if |p| == 1 then t - {p[0]}
    else if p[0] in t && t[p[0]].Obj? then t[p[0] := Obj(DeletePath(t[p[0]].members, p[1..]))]
    else t
  }

  /** Two deltas state values at unrelated places only. */
  ghost predicate LeavesApart(a: Dict, b: Dict) {
    forall p, q :: IsLeaf(a, p) && IsLeaf(b, q) ==> !Comparable(p, q)
  }

  /** A delta states nothing at, above or below a path. */
  ghost predicate AwayFrom(v: Dict, q: Path) {
    forall p :: IsLeaf(v, p) ==> !Comparable(p, q)
  }

  // ---------------------------------------------------------------- leaves

  lemma {:induction false} LeafUnder(v: Dict, k: string, p: Path)
    requires k in v && v[k].Obj? && IsLeaf(v[k].members, p)
    ensures IsLeaf(v, [k] + p)
  {
    assert ([k] + p)[1..] == p;
  }

  lemma {:induction false} ComparableUnder(k: string, p: Path, q: Path)
    ensures Comparable([k] + p, [k] + q) <==> Comparable(p, q)
  {
    PrefixUnder(k, p, q);
    PrefixUnder(k, q, p);
  }

  lemma {:induction false} PrefixUnder(k: string, p: Path, q: Path)
    ensures [k] + p <= [k] + q <==> p <= q
  {
    if p <= q {
      assert [k] + q == ([k] + p) + q[|p|..];
    }
    if [k] + p <= [k] + q {
      assert q == ([k] + q)[1..] == p + ([k] + q)[|p| + 1..];
    }
  }

  /** A nonempty delta states some value. */
  lemma {:induction false} LeafInside(v: Dict) returns (p: Path)
    requires v != map[]
    ensures IsLeaf(v, p)
    decreases Obj(v)
  {
    var k :| k in v;
    if v[k].Obj? && v[k].members != map[] {
      assert v[k] < Obj(v);
      var inner := LeafInside(v[k].members);
      LeafUnder(v, k, inner);
      p := [k] + inner;
    } else {
      p := [k];
    }
  }

  /** Below a shared first key, a delta that stays away from a path goes on as a nonempty dictionary. */
  lemma {:induction false} AwayInside(v: Dict, q: Path)
    requires q != [] && q[0] in v && AwayFrom(v, q)
    ensures |q| > 1 && v[q[0]].Obj? && v[q[0]].members != map[] && AwayFrom(v[q[0]].members, q[1..])
  {
    var k := q[0];
    assert [k] <= q && !IsLeaf(v, [k]);
    var child := v[k].members;
    var r := LeafInside(child);
    LeafUnder(v, k, r);
    assert [k] <= [k] + r;
    assert |q| == 1 ==> q == [k];
    assert [k] + q[1..] == q;
    forall p | IsLeaf(child, p) ensures !Comparable(p, q[1..]) {
      LeafUnder(v, k, p);
      ComparableUnder(k, p, q[1..]);
    }
  }

  /** Below a shared key, two deltas that stay apart go on as nonempty dictionaries that stay apart. */
  lemma {:induction false} ApartInside(a: Dict, b: Dict, k: string)
    requires LeavesApart(a, b) && k in a && k in b
    ensures a[k].Obj? && b[k].Obj? && LeavesApart(a[k].members, b[k].members)
  {
    if IsLeaf(a, [k]) {
      AwayInside(b, [k]);
    }
    if IsLeaf(b, [k]) {
      assert AwayFrom(a, [k]);
      AwayInside(a, [k]);
    }
    forall p, q | IsLeaf(a[k].members, p) && IsLeaf(b[k].members, q) ensures !Comparable(p, q) {
      LeafUnder(a, k, p);
      LeafUnder(b, k, q);
      ComparableUnder(k, p, q);
    }
  }

  // ---------------------------------------------------------------- deep assignment

  lemma {:induction false} DeepAssignOntoNothing(v: Dict)
    ensures DeepAssign(map[], v) == v
  {
  }

  /** A path away from the delta keeps its value, or stays absent. */
  lemma {:induction false} DeepAssignFrame(t: Dict, v: Dict, q: Path)
    requires q != [] && AwayFrom(v, q)
    ensures Lookup(Obj(DeepAssign(t, v)), q) == Lookup(Obj(t), q)
    decreases |q|
  {
    var k := q[0];
    if k in v {
      AwayInside(v, q);
      if k in t && t[k].Obj? {
        DeepAssignFrame(t[k].members, v[k].members, q[1..]);
      } else {
        DeepAssignFrame(map[], v[k].members, q[1..]);
        DeepAssignOntoNothing(v[k].members);
      }
    }
  }

  /** Every leaf of the delta is in place afterwards; an empty dictionary only makes the place a dictionary. */
  lemma {:induction false} DeepAssignWrites(t: Dict, v: Dict, p: Path)
    requires IsLeaf(v, p)
    ensures var stated, after := Lookup(Obj(v), p), Lookup(Obj(DeepAssign(t, v)), p);
            stated.Some? && after.Some? &&
            (if stated.value == Obj(map[]) then after.value.Obj? else after == stated)
    decreases |p|
  {
    var child := v[p[0]];
    if child.Obj? && child.members != map[] {
      var base := if p[0] in t && t[p[0]].Obj? then t[p[0]].members else map[];
      DeepAssignWrites(base, child.members, p[1..]);
      DeepAssignOntoNothing(child.members);
    } else {
      assert p[1..] == [];
    }
  }

  /** The tree already holds what the delta states at a leaf; an empty dictionary asks for any dictionary. */
  predicate InPlace(t: Dict, v: Dict, p: Path) {
    var here, stated := Lookup(Obj(t), p), Lookup(Obj(v), p);
    here == stated || (stated == Some(Obj(map[])) && here.Some? && here.value.Obj?)
  }

  ghost predicate AllInPlace(t: Dict, v: Dict) {
    forall p :: IsLeaf(v, p) ==> InPlace(t, v, p)
  }

  /** An assignment changes nothing exactly when every leaf is already in place. */
  lemma {:induction false} AssignChangesNothing(t: Dict, v: Dict)
    ensures DeepAssign(t, v) == t <==> AllInPlace(t, v)
    decreases Obj(v)
  {
    if DeepAssign(t, v) == t {
      forall p | IsLeaf(v, p) ensures InPlace(t, v, p) {
        DeepAssignWrites(t, v, p);
      }
    }
    if AllInPlace(t, v) {
      forall k | k in v ensures k in t && DeepAssign(t, v)[k] == t[k] {
        if v[k].Obj? && v[k].members != map[] {
          assert v[k] < Obj(v);
          InPlaceBelow(t, v, k);
          AssignChangesNothing(t[k].members, v[k].members);
        } else {
          assert IsLeaf(v, [k]) && InPlace(t, v, [k]);
          assert [k][1..] == [] && Lookup(Obj(v), [k]) == Some(v[k]);
          assert Lookup(Obj(t), [k]).Some? && k in t && Lookup(Obj(t), [k]) == Some(t[k]);
          if v[k].Obj? {
            assert DeepAssign(t[k].members, v[k].members) == t[k].members;
          }
        }
      }
      assert DeepAssign(t, v) == t;
    }
  }

  lemma {:induction false} InPlaceBelow(t: Dict, v: Dict, k: string)
    requires AllInPlace(t, v) && k in v && v[k].Obj? && v[k].members != map[]
    ensures k in t && t[k].Obj? && AllInPlace(t[k].members, v[k].members)
  {
    var below := v[k].members;
    var leaf := LeafInside(below);
    forall p | IsLeaf(below, p) ensures IsLeaf(v, [k] + p) && InPlace(t, v, [k] + p) {
      LeafUnder(v, k, p);
    }
    LookupUnder(v, k, leaf);
    assert InPlace(t, v, [k] + leaf);
    LeafIsThere(below, leaf);
    var whole := [k] + leaf;
    assert whole != [] && whole[0] == k && whole[1..] == leaf;
    assert Lookup(Obj(t), whole).Some? && k in t;
    LookupUnder(t, k, leaf);
    assert Lookup(t[k], leaf).Some? && leaf != [];
    assert t[k].Obj?;
    forall p | IsLeaf(below, p) ensures InPlace(t[k].members, below, p) {
      LookupUnder(v, k, p);
      LookupUnder(t, k, p);
      assert InPlace(t, v, [k] + p);
      assert Obj(t[k].members) == t[k] && Obj(below) == v[k];
    }
  }

  lemma {:induction false} LookupUnder(t: Dict, k: string, p: Path)
    requires k in t
    ensures Lookup(Obj(t), [k] + p) == Lookup(t[k], p)
  {
    assert ([k] + p)[1..] == p;
  }

  lemma {:induction false} LeafIsThere(v: Dict, p: Path)
    requires IsLeaf(v, p)
    ensures Lookup(Obj(v), p).Some?
    decreases |p|
  {
    if v[p[0]].Obj? && v[p[0]].members != map[] {
      LeafIsThere(v[p[0]].members, p[1..]);
    }
  }

  /** Deltas that stay apart give the same tree in either order. */
  lemma {:induction false} DeepAssignCommutes(t: Dict, a: Dict, b: Dict)
    requires LeavesApart(a, b)
    ensures DeepAssign(DeepAssign(t, a), b) == DeepAssign(DeepAssign(t, b), a)
    decreases Obj(a)
  {
    forall k | k in a && k in b
      ensures DeepAssign(DeepAssign(t, a), b)[k] == DeepAssign(DeepAssign(t, b), a)[k]
    {
      ApartInside(a, b, k);
      var base := if k in t && t[k].Obj? then t[k].members else map[];
      assert a[k] < Obj(a);
      DeepAssignCommutes(base, a[k].members, b[k].members);
      DeepAssignOntoNothing(a[k].members);
      DeepAssignOntoNothing(b[k].members);
    }
  }

  // ---------------------------------------------------------------- deletion

  lemma {:induction false} DeleteRemoves(t: Dict, p: Path, q: Path)
    requires p != [] && p <= q
    ensures Lookup(Obj(DeletePath(t, p)), q) == None
    decreases |p|
  {
    if |p| > 1 && p[0] in t && t[p[0]].Obj? {
      DeleteRemoves(t[p[0]].members, p[1..], q[1..]);
    }
  }

  lemma {:induction false} DeleteFrame(t: Dict, p: Path, q: Path)
    requires p != [] && q != [] && !Comparable(p, q)
    ensures Lookup(Obj(DeletePath(t, p)), q) == Lookup(Obj(t), q)
    decreases |p|
  {
    if p[0] == q[0] && |p| > 1 && p[0] in t && t[p[0]].Obj? {
      ComparableUnder(p[0], p[1..], q[1..]);
      assert [p[0]] + p[1..] == p && [p[0]] + q[1..] == q;
      assert |q| == 1 ==> q <= p;
      DeleteFrame(t[p[0]].members, p[1..], q[1..]);
    }
  }

  /** A deletion makes nothing appear. */
  lemma {:induction false} DeleteKeepsAbsent(t: Dict, p: Path, q: Path)
    requires p != [] && Lookup(Obj(t), q) == None
    ensures Lookup(Obj(DeletePath(t, p)), q) == None
    decreases |p|
  {
    if q != [] && p[0] == q[0] && |p| > 1 && p[0] in t && t[p[0]].Obj? {
      DeleteKeepsAbsent(t[p[0]].members, p[1..], q[1..]);
    }
  }

  lemma {:induction false} DeleteAbsent(t: Dict, p: Path)
    requires p != [] && Lookup(Obj(t), p) == None
    ensures DeletePath(t, p) == t
    decreases |p|
  {
    if p[0] in t {
      if |p| > 1 && t[p[0]].Obj? {
        DeleteAbsent(t[p[0]].members, p[1..]);
      } else {
        assert |p| > 1;
      }
    }
  }

  /** Deletions commute whatever their paths are. */
  lemma {:induction false} DeletesCommute(t: Dict, p: Path, q: Path)
    requires p != [] && q != []
    ensures DeletePath(DeletePath(t, p), q) == DeletePath(DeletePath(t, q), p)
    decreases |p|
  {
    if p[0] == q[0] && |p| > 1 && |q| > 1 && p[0] in t && t[p[0]].Obj? {
      DeletesCommute(t[p[0]].members, p[1..], q[1..]);
    }
  }

  /** A deletion and a delta that stays away from it give the same tree in either order. */
  lemma {:induction false} DeleteCommutesWithAssign(t: Dict, v: Dict, p: Path)
    requires p != [] && AwayFrom(v, p)
    ensures DeletePath(DeepAssign(t, v), p) == DeepAssign(DeletePath(t, p), v)
    decreases |p|
  {
    var k := p[0];
    if k in v {
      AwayInside(v, p);
      if k in t && t[k].Obj? {
        DeleteCommutesWithAssign(t[k].members, v[k].members, p[1..]);
      } else {
        DeepAssignFrame(map[], v[k].members, p[1..]);
        DeepAssignOntoNothing(v[k].members);
        DeleteAbsent(v[k].members, p[1..]);
      }
    }
  }
}
