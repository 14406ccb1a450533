/**
 Settings writes: a deep merge in which the paths the schema declares as tagged
 unions are replaced as one value, followed by explicit deletions. The source
 lifts those values out of the delta, merges the rest, and puts them back; the
 reference is a single merge that knows which paths are atomic.
 */
module SettingsDeltas {
  import opened Wrappers
  import opened JsonValues
  import opened JsonTrees

  // ---------------------------------------------------------------- atomic paths

  /** A field of the settings schema: a nested section, a union of sections, or anything else. */
  datatype Schema = Section(fields: map<string, Schema>) | TaggedUnion | Plain

  /** `atomic_settings_paths`. */
  function AtomicPaths(s: Schema): set<Path> {
    match s
    case TaggedUnion => {[]}
    case Plain => {}
    case Section(fields) => set k, p | k in fields && p in AtomicPaths(fields[k]) :: [k] + p
  }

  ghost predicate PrefixFree(paths: set<Path>) {
    forall p, q | p in paths && q in paths :: p <= q ==> p == q
  }

  ghost predicate Atomic(paths: set<Path>) {
    PrefixFree(paths) && [] !in paths
  }

  lemma {:induction false} AtomicPathsPrefixFree(s: Schema)
    ensures PrefixFree(AtomicPaths(s))
    ensures s.Section? ==> Atomic(AtomicPaths(s))
  {
    if s.Section? {
      forall k | k in s.fields ensures PrefixFree(AtomicPaths(s.fields[k])) {
        AtomicPathsPrefixFree(s.fields[k]);
      }
      forall p, q | p in AtomicPaths(s) && q in AtomicPaths(s) && p <= q ensures p == q {
        var k, p' :| k in s.fields && p' in AtomicPaths(s.fields[k]) && p == [k] + p';
        var l, q' :| l in s.fields && q' in AtomicPaths(s.fields[l]) && q == [l] + q';
        assert k == p[0] == q[0] == l;
        PrefixUnder(k, p', q');
      }
    }
  }

  /** Walking down the fields of a schema along a path ends at a tagged union. */
  predicate EndsAtUnion(s: Schema, p: Path)
    decreases |p|
  {
    if p == [] then s.TaggedUnion? else s.Section? && p[0] in s.fields && EndsAtUnion(s.fields[p[0]], p[1..])
  }

  /** The atomic paths are those that lead to a tagged union, all of them and no others. */
  lemma {:induction false} AtomicPathsLeadToUnions(s: Schema, p: Path)
    ensures p in AtomicPaths(s) <==> EndsAtUnion(s, p)
    decreases |p|
  {
    if s.Section? {
      if p != [] && p[0] in s.fields {
        AtomicPathsLeadToUnions(s.fields[p[0]], p[1..]);
        assert p == [p[0]] + p[1..];
      }
      if p in AtomicPaths(s) {
        var k, q :| k in s.fields && q in AtomicPaths(s.fields[k]) && p == [k] + q;
        assert p[0] == k && p[1..] == q;
      }
    }
  }

  // ---------------------------------------------------------------- the reference merge

  /** The atomic paths seen from below a key. */
  function Tail(paths: set<Path>, k: string): set<Path> {
    set p | p in paths && p != [] && p[0] == k :: p[1..]
  }

  /** The value a key ends with; `None` when a mapping meets something else and the source raises. */
  function MergeAt(paths: set<Path>, t: Dict, u: Dict, k: string): Option<Json>
    requires k in u
    decreases Obj(u), 0
  {
    if [k] in paths || !u[k].Obj? then Some(u[k])
    else if k in t && !t[k].Obj? then
      if u[k].members == map[] then Some(t[k]) else None
    else
      assert u[k] < Obj(u);
      match Merge(Tail(paths, k), if k in t then t[k].members else map[], u[k].members)
      case Some(inner) => Some(Obj(inner))
      case None => None
  }

  /** Merge a partial into settings, replacing atomic paths whole. With no atomic path this is `deep_update`. */
  function Merge(paths: set<Path>, t: Dict, u: Dict): Option<Dict>
    decreases Obj(u), 1
  {
    if exists k | k in u :: MergeAt(paths, t, u, k).None? then None
    else Some(map k | k in t.Keys + u.Keys :: if k in u then MergeAt(paths, t, u, k).value else t[k])
  }

  /** `node.setdefault(key, {})` down to the parent, then assign; raises below anything that is no mapping. */
  function Override(t: Dict, p: Path, v: Json): Option<Dict>
    requires p != []
    decreases |p|
  {
    if |p| == 1 then Some(t[p[0] := v])
    else if p[0] in t && !t[p[0]].Obj? then None
    else
      match Override(if p[0] in t then t[p[0]].members else map[], p[1..], v)
      case Some(inner) => Some(t[p[0] := Obj(inner)])
      case None => None
  }

  function AndThenOverride(t: Option<Dict>, p: Path, v: Json): Option<Dict>
    requires p != []
  {
    if t.None? then None else Override(t.value, p, v)
  }

  lemma {:induction false} TailPrefixFree(paths: set<Path>, k: string)
    requires Atomic(paths) && [k] !in paths
    ensures Atomic(Tail(paths, k))
  {
    forall p, q | p in Tail(paths, k) && q in Tail(paths, k) && p <= q ensures p == q {
      var p' :| p' in paths && p' != [] && p'[0] == k && p == p'[1..];
      var q' :| q' in paths && q' != [] && q'[0] == k && q == q'[1..];
      assert p' == [k] + p && q' == [k] + q;
      PrefixUnder(k, p, q);
    }
    forall p | p in paths && p != [] && p[0] == k ensures p[1..] != [] {
      assert [p[0]] == [k] && p != [k];
    }
  }

  lemma {:induction false} TailWithout(paths: set<Path>, p: Path, k: string)
    requires p != []
    ensures Tail(paths - {p}, k) == if p[0] == k then Tail(paths, k) - {p[1..]} else Tail(paths, k)
  {
    var less := Tail(paths - {p}, k);
    forall q ensures q in less <==> q in Tail(paths, k) && (p[0] == k ==> q != p[1..]) {
      assert ([k] + q)[1..] == q;
      assert p[0] == k ==> p == [k] + p[1..];
      if q in less {
        var r :| r in paths - {p} && r != [] && r[0] == k && q == r[1..];
        assert r == [k] + q;
      }
      if q in Tail(paths, k) {
        var r :| r in paths && r != [] && r[0] == k && q == r[1..];
        assert r == [k] + q;
      }
    }
  }

  // ---------------------------------------------------------------- lifting one path

  /** Two merges that agree at every key are the same merge. */
  lemma {:induction false} MergeExtensional(a: set<Path>, b: set<Path>, t: Dict, u: Dict)
    requires forall k | k in u :: MergeAt(a, t, u, k) == MergeAt(b, t, u, k)
    ensures Merge(a, t, u) == Merge(b, t, u)
  {
    if k :| k in u && MergeAt(a, t, u, k).None? {
      assert MergeAt(b, t, u, k).None?;
    } else {
      assert forall k | k in u :: MergeAt(a, t, u, k).Some? && MergeAt(b, t, u, k).Some?;
      assert Merge(a, t, u).value == Merge(b, t, u).value;
    }
  }

  /** A merge that ends as `other` does after one more assignment, wherever `other` succeeds. */
  lemma {:induction false} MergeByOverride(
    a: set<Path>, b: set<Path>, t: Dict, u: Dict, w: Dict, k: string, v: Option<Json>)
    requires k in u && forall l | l in w && l != k :: l in u
    requires forall l | l in u && l != k :: l in w && MergeAt(a, t, u, l) == MergeAt(b, t, w, l)
    requires MergeAt(a, t, u, k) == v && (v.Some? && k in w ==> MergeAt(b, t, w, k).Some?)
    ensures v.Some? ==>
              (Merge(a, t, u).Some? <==> Merge(b, t, w).Some?) &&
              (Merge(a, t, u).Some? ==> Merge(a, t, u).value == Merge(b, t, w).value[k := v.value])
    ensures v.None? ==> Merge(a, t, u).None?
    ensures Merge(b, t, w).Some? && k in w ==>
              MergeAt(b, t, w, k).Some? && Merge(b, t, w).value[k] == MergeAt(b, t, w, k).value
  {
    if v.Some? {
      if l :| l in w && MergeAt(b, t, w, l).None? {
        assert l != k && MergeAt(a, t, u, l).None?;
      } else {
        assert forall l | l in u :: MergeAt(a, t, u, l).Some?;
        assert Merge(a, t, u).value == Merge(b, t, w).value[k := v.value];
      }
    }
  }

  /** A key that decides neither path nor delta differently merges the same. */
  lemma {:induction false} MergeAtSame(a: set<Path>, b: set<Path>, t: Dict, u: Dict, w: Dict, k: string)
    requires k in u && k in w && u[k] == w[k] && ([k] in a <==> [k] in b) && Tail(a, k) == Tail(b, k)
    ensures MergeAt(a, t, u, k) == MergeAt(b, t, w, k)
  {
  }

  /** An atomic path that the delta does not name may be forgotten. */
  lemma {:induction false} ForgetUnnamed(paths: set<Path>, t: Dict, u: Dict, p: Path)
    requires Atomic(paths) && p in paths && Lookup(Obj(u), p) == None
    ensures Merge(paths, t, u) == Merge(paths - {p}, t, u)
    decreases |p|
  {
    var less := paths - {p};
    forall k | k in u ensures MergeAt(paths, t, u, k) == MergeAt(less, t, u, k) {
      TailWithout(paths, p, k);
      if k == p[0] {
        assert Lookup(Obj(u), p) == Lookup(u[k], p[1..]) && Lookup(u[k], []) == Some(u[k]);
        if [k] !in paths && u[k].Obj? && !(k in t && !t[k].Obj?) {
          TailPrefixFree(paths, k);
          assert p[1..] in Tail(paths, k);
          ForgetUnnamed(Tail(paths, k), if k in t then t[k].members else map[], u[k].members, p[1..]);
        }
      } else {
        MergeAtSame(paths, less, t, u, u, k);
      }
    }
    MergeExtensional(paths, less, t, u);
  }

  /** Merging with an atomic path is lifting its value out, merging the rest, and putting it back. */
  lemma {:induction false} LiftOne(paths: set<Path>, t: Dict, u: Dict, p: Path)
    requires Atomic(paths) && p in paths && Lookup(Obj(u), p).Some?
    ensures Merge(paths, t, u) ==
            AndThenOverride(Merge(paths - {p}, t, DeletePath(u, p)), p, Lookup(Obj(u), p).value)
    decreases |p|
  {
    var less, w, k := paths - {p}, DeletePath(u, p), p[0];
    forall l | l in u && l != k ensures l in w && MergeAt(paths, t, u, l) == MergeAt(less, t, w, l) {
      TailWithout(paths, p, l);
      MergeAtSame(paths, less, t, u, w, l);
    }
    assert forall l | l in w && l != k :: l in u;
    if |p| == 1 {
      assert p == [k];
      assert Lookup(u[k], p[1..]) == Some(u[k]);
      MergeByOverride(paths, less, t, u, w, k, Some(u[k]));
    } else {
      LiftBelow(paths, t, u, p);
    }
  }

  lemma {:induction false} LiftBelow(paths: set<Path>, t: Dict, u: Dict, p: Path)
    requires Atomic(paths) && p in paths && Lookup(Obj(u), p).Some? && |p| > 1
    requires forall l | l in DeletePath(u, p) :: l in u
    requires forall l | l in u && l != p[0] ::
               l in DeletePath(u, p) &&
               MergeAt(paths, t, u, l) == MergeAt(paths - {p}, t, DeletePath(u, p), l)
    ensures Merge(paths, t, u) ==
            AndThenOverride(Merge(paths - {p}, t, DeletePath(u, p)), p, Lookup(Obj(u), p).value)
    decreases |p|, 0
  {
    var less, w, k, v := paths - {p}, DeletePath(u, p), p[0], Lookup(Obj(u), p).value;
    assert [k] !in paths by {
      assert [k] <= p && [k] != p;
    }
    assert u[k].Obj? && p[1..] in Tail(paths, k);
    TailPrefixFree(paths, k);
    TailWithout(paths, p, k);
    assert w == u[k := Obj(DeletePath(u[k].members, p[1..]))];
    if k in t && !t[k].Obj? {
      assert u[k].members != map[];
      MergeByOverride(paths, less, t, u, w, k, None);
    } else {
      var base := if k in t then t[k].members else map[];
      LiftOne(Tail(paths, k), base, u[k].members, p[1..]);
      MergeByOverride(paths, less, t, u, w, k, MergeAt(paths, t, u, k));
    }
  }

  // ---------------------------------------------------------------- lifting every path, in any order

  datatype Lifted = Lifted(path: Path, value: Json)

  /** The delta without the atomic values. */
  function Rest(u: Dict, order: seq<Path>): Dict
    requires [] !in order
    decreases |order|
  {
    if order == [] then u else Rest(DeletePath(u, order[0]), order[1..])
  }

  /** The atomic values the delta named, in the order they were visited. */
  function LiftedFrom(u: Dict, order: seq<Path>): (lifted: seq<Lifted>)
    requires [] !in order
    ensures forall i | 0 <= i < |lifted| :: lifted[i].path in order
    decreases |order|
  {
    if order == [] then []
    else
      var found := Lookup(Obj(u), order[0]);
      (if found.Some? then [Lifted(order[0], found.value)] else []) + LiftedFrom(DeletePath(u, order[0]), order[1..])
  }

  function OverrideAll(t: Option<Dict>, lifted: seq<Lifted>): Option<Dict>
    requires forall i | 0 <= i < |lifted| :: lifted[i].path != []
    decreases |lifted|
  {
    if lifted == [] then t else OverrideAll(AndThenOverride(t, lifted[0].path, lifted[0].value), lifted[1..])
  }

  lemma {:induction false} OverridesCommute(t: Dict, p: Path, v: Json, q: Path, w: Json)
    requires p != [] && q != [] && !Comparable(p, q)
    ensures AndThenOverride(Override(t, p, v), q, w) == AndThenOverride(Override(t, q, w), p, v)
    decreases |p|
  {
    if p[0] == q[0] {
      var k := p[0];
      assert p == [k] + p[1..] && q == [k] + q[1..];
      ComparableUnder(k, p[1..], q[1..]);
      assert [k] <= p && [k] <= q && (|p| == 1 ==> p == [k]) && (|q| == 1 ==> q == [k]);
      if !(k in t && !t[k].Obj?) {
        var base := if k in t then t[k].members else map[];
        OverridesCommute(base, p[1..], v, q[1..], w);
        OverrideTwice(t, base, p, v, q, w);
        OverrideTwice(t, base, q, w, p, v);
      }
    } else {
      OverridesApart(t, p, v, q, w);
    }
  }

  lemma {:induction false} UpdatesApart(t: Dict, k: string, x: Json, l: string, y: Json)
    requires k != l
    ensures t[k := x][l := y] == t[l := y][k := x]
  {
  }

  lemma {:induction false} OverridesApart(t: Dict, p: Path, v: Json, q: Path, w: Json)
    requires p != [] && q != [] && p[0] != q[0]
    ensures AndThenOverride(Override(t, p, v), q, w) == AndThenOverride(Override(t, q, w), p, v)
  {
    var a, b := Override(t, p, v), Override(t, q, w);
    OverrideIsLocal(t, t, p, v);
    OverrideIsLocal(t, t, q, w);
    if a.Some? {
      OverrideIsLocal(t, a.value, q, w);
    }
    if b.Some? {
      OverrideIsLocal(t, b.value, p, v);
    }
    if a.Some? && b.Some? {
      UpdatesApart(t, p[0], a.value[p[0]], q[0], b.value[q[0]]);
    }
  }

  /** An override updates one key, and what it puts there depends on that key alone. */
  lemma {:induction false} OverrideIsLocal(t: Dict, s: Dict, p: Path, v: Json)
    requires p != [] && (p[0] in t <==> p[0] in s) && (p[0] in t ==> t[p[0]] == s[p[0]])
    ensures Override(t, p, v).Some? <==> Override(s, p, v).Some?
    ensures Override(t, p, v).Some? ==>
              && p[0] in Override(t, p, v).value
              && Override(s, p, v).value == s[p[0] := Override(t, p, v).value[p[0]]]
  {
  }

  /** Two overrides below one key are two overrides of what the key holds. */
  lemma {:induction false} OverrideTwice(t: Dict, base: Dict, p: Path, v: Json, q: Path, w: Json)
    requires |p| > 1 && |q| > 1 && p[0] == q[0] && (p[0] in t ==> t[p[0]].Obj?)
    requires base == if p[0] in t then t[p[0]].members else map[]
    ensures AndThenOverride(Override(t, p, v), q, w) ==
            match AndThenOverride(Override(base, p[1..], v), q[1..], w)
            case Some(inner) => Some(t[p[0] := Obj(inner)])
            case None => None
  {
    var k, once := p[0], Override(base, p[1..], v);
    if once.Some? {
      var twice := Override(once.value, q[1..], w);
      assert twice.Some? ==> t[k := Obj(once.value)][k := Obj(twice.value)] == t[k := Obj(twice.value)];
    }
  }

  lemma {:induction false} OverridePasses(t: Option<Dict>, lifted: seq<Lifted>, p: Path, v: Json)
    requires p != []
    requires forall i | 0 <= i < |lifted| :: lifted[i].path != [] && !Comparable(p, lifted[i].path)
    ensures AndThenOverride(OverrideAll(t, lifted), p, v) == OverrideAll(AndThenOverride(t, p, v), lifted)
    decreases |lifted|
  {
    if lifted != [] {
      var q, w := lifted[0].path, lifted[0].value;
      if t.Some? {
        OverridesCommute(t.value, p, v, q, w);
      }
      OverridePasses(AndThenOverride(t, q, w), lifted[1..], p, v);
    }
  }

  ghost predicate Enumerates(order: seq<Path>, paths: set<Path>) {
    && (forall p :: p in order <==> p in paths)
    && (forall i, j | 0 <= i < j < |order| :: order[i] != order[j])
  }

  /** Whatever order the atomic paths are visited in, lift, merge and put back is the one reference merge. */
  lemma {:induction false} AnyOrderIsMerge(paths: set<Path>, order: seq<Path>, t: Dict, u: Dict)
    requires Atomic(paths) && Enumerates(order, paths)
    ensures [] !in order
    ensures OverrideAll(Merge({}, t, Rest(u, order)), LiftedFrom(u, order)) == Merge(paths, t, u)
    decreases |order|
  {
    if order == [] {
      forall p ensures p !in paths {
        assert p !in order;
      }
      assert paths == {};
    } else {
      var p, less := order[0], paths - {order[0]};
      assert p in paths;
      forall q ensures q in order[1..] <==> q in less {
        if q in order[1..] {
          var i :| 0 <= i < |order[1..]| && order[1..][i] == q;
          assert order[i + 1] == q && q in order;
        }
        if q in less {
          var i :| 0 <= i < |order| && order[i] == q;
          assert order[1..][i - 1] == q;
        }
      }
      AnyOrderIsMerge(less, order[1..], t, DeletePath(u, p));
      var after := LiftedFrom(DeletePath(u, p), order[1..]);
      var merged := Merge({}, t, Rest(u, order));
      forall i | 0 <= i < |after| ensures !Comparable(p, after[i].path) {
        assert after[i].path in less;
      }
      if Lookup(Obj(u), p).Some? {
        var v := Lookup(Obj(u), p).value;
        LiftOne(paths, t, u, p);
        OverridePasses(merged, after, p, v);
        assert LiftedFrom(u, order) == [Lifted(p, v)] + after;
      } else {
        ForgetUnnamed(paths, t, u, p);
        DeleteAbsent(u, p);
        assert LiftedFrom(u, order) == after;
      }
    }
  }

  // ---------------------------------------------------------------- deletions and the whole write

  function DeleteAll(t: Dict, paths: seq<Path>): Dict
    requires [] !in paths
    decreases |paths|
  {
    if paths == [] then t else DeletePath(DeleteAll(t, paths[..|paths| - 1]), paths[|paths| - 1])
  }

  datatype SettingsWrite = SettingsWrite(values: Dict, deletions: seq<Path>)

  /** What a write leaves; `None` when it raises. */
  function ApplySettings(paths: set<Path>, t: Dict, write: SettingsWrite): Option<Dict>
    requires [] !in write.deletions
  {
    match Merge(paths, t, write.values)
    case Some(merged) => Some(DeleteAll(merged, write.deletions))
    case None => None
  }

  const SETTINGS_DELTA_KEY := "__settings_delta__"
  const SETTINGS_DELTA_VERSION: int := 1

  function DecodeDeletion(value: Json): Option<Path> {
    if !value.Arr? || value.items == [] || exists i | 0 <= i < |value.items| :: !value.items[i].Str? then None
    else Some(seq(|value.items|, i requires 0 <= i < |value.items| =>
                    if value.items[i].Str? then value.items[i].text else ""))
  }

  function DecodeDeletions(values: seq<Json>): (paths: Option<seq<Path>>)
    ensures paths.Some? ==> [] !in paths.value
  {
    if values == [] then Some([])
    else
      var rest := DecodeDeletions(values[..|values| - 1]);
      var last := DecodeDeletion(values[|values| - 1]);
      if rest.None? || last.None? then None else Some(rest.value + [last.value])
  }

  /** A bare partial assigns itself; an envelope assigns its `set` and removes its `delete`. */
  function ReadDelta(delta: Json): (write: Option<SettingsWrite>)
    ensures write.Some? ==> [] !in write.value.deletions
  {
    if !delta.Obj? then None
    else if SETTINGS_DELTA_KEY !in delta.members then Some(SettingsWrite(delta.members, []))
    else
      var d := delta.members;
      var values, deletions := Get(d, "set"), Get(d, "delete");
      if !(d.Keys <= {SETTINGS_DELTA_KEY, "set", "delete"}) ||
         !PyEq(d[SETTINGS_DELTA_KEY], Int(SETTINGS_DELTA_VERSION)) ||
         !(values.Null? || values.Obj?) ||
         !(deletions.Null? || (deletions.Arr? && DecodeDeletions(deletions.items).Some?)) then None
      else Some(SettingsWrite(if values.Null? then map[] else values.members,
                              if deletions.Null? then [] else DecodeDeletions(deletions.items).value))
  }

  // ---------------------------------------------------------------- what a write cannot reach

  /** The delta does not reach the path: the path leaves it before a value is stated. */
  predicate Quiet(paths: set<Path>, u: Dict, q: Path)
    decreases |q|
  {
    q != [] &&
    (q[0] !in u ||
     ([q[0]] !in paths && u[q[0]].Obj? && |q| > 1 && Quiet(Tail(paths, q[0]), u[q[0]].members, q[1..])))
  }

  ghost predicate KeepsQuiet(paths: set<Path>, u: Dict, before: Dict, after: Dict) {
    forall q | Quiet(paths, u, q) :: Lookup(Obj(after), q) == Lookup(Obj(before), q)
  }

  lemma {:induction false} QuietWithoutPaths(paths: set<Path>, u: Dict, q: Path)
    requires Quiet(paths, u, q)
    ensures Quiet({}, u, q)
    decreases |q|
  {
    if q[0] in u {
      assert Tail({}, q[0]) == {};
      QuietWithoutPaths(Tail(paths, q[0]), u[q[0]].members, q[1..]);
    }
  }

  lemma {:induction false} QuietAfterDelete(u: Dict, p: Path, q: Path)
    requires p != [] && Quiet({}, u, q)
    ensures Quiet({}, DeletePath(u, p), q)
    decreases |p|
  {
    if q[0] in u && p[0] == q[0] && |p| > 1 {
      assert Tail({}, q[0]) == {};
      QuietAfterDelete(u[q[0]].members, p[1..], q[1..]);
    }
  }

  lemma {:induction false} QuietRest(u: Dict, order: seq<Path>, q: Path)
    requires [] !in order && Quiet({}, u, q)
    ensures Quiet({}, Rest(u, order), q)
    decreases |order|
  {
    if order != [] {
      QuietAfterDelete(u, order[0], q);
      QuietRest(DeletePath(u, order[0]), order[1..], q);
    }
  }

  /** An atomic path that the delta names lies away from every path it does not reach. */
  lemma {:induction false} NamedIsAway(paths: set<Path>, u: Dict, p: Path, q: Path)
    requires Quiet(paths, u, q) && p in paths && p != [] && Lookup(Obj(u), p).Some?
    ensures !Comparable(p, q)
    decreases |p|
  {
    if p[0] == q[0] {
      var k := p[0];
      assert p == [k] + p[1..] && q == [k] + q[1..];
      assert |p| == 1 ==> p == [k];
      assert |p| > 1;
      assert p[1..] in Tail(paths, k);
      NamedIsAway(Tail(paths, k), u[k].members, p[1..], q[1..]);
      ComparableUnder(k, p[1..], q[1..]);
    }
  }

  lemma {:induction false} LiftedIsNamed(u: Dict, order: seq<Path>)
    requires [] !in order
    ensures forall i | 0 <= i < |LiftedFrom(u, order)| :: Lookup(Obj(u), LiftedFrom(u, order)[i].path).Some?
    decreases |order|
  {
    if order != [] {
      var next := DeletePath(u, order[0]);
      LiftedIsNamed(next, order[1..]);
      forall i | 0 <= i < |LiftedFrom(next, order[1..])|
        ensures Lookup(Obj(u), LiftedFrom(next, order[1..])[i].path).Some?
      {
        var p := LiftedFrom(next, order[1..])[i].path;
        if Lookup(Obj(u), p) == None {
          DeleteKeepsAbsent(u, order[0], p);
        }
      }
    }
  }

  lemma {:induction false} OverrideFrame(t: Dict, p: Path, v: Json, q: Path)
    requires p != [] && q != [] && !Comparable(p, q) && Override(t, p, v).Some?
    ensures Lookup(Obj(Override(t, p, v).value), q) == Lookup(Obj(t), q)
    decreases |p|
  {
    if p[0] == q[0] {
      var k := p[0];
      assert p == [k] + p[1..] && q == [k] + q[1..];
      assert |p| > 1 && |q| > 1 by {
        assert p == [k] ==> p <= q;
        assert q == [k] ==> q <= p;
      }
      ComparableUnder(k, p[1..], q[1..]);
      OverrideFrame(if k in t then t[k].members else map[], p[1..], v, q[1..]);
    }
  }

  /** Replacing what a key holds keeps the paths that the delta does not reach, if it keeps them below the key. */
  lemma {:induction false} KeyKeepsQuiet(u: Dict, before: Dict, key: string, base: Dict, inner: Dict)
    requires key in u && u[key].Obj? && KeepsQuiet({}, u[key].members, base, inner)
    requires if key in before then before[key] == Obj(base) else base == map[]
    ensures KeepsQuiet({}, u, before, before[key := Obj(inner)])
  {
    forall q | Quiet({}, u, q) ensures Lookup(Obj(before[key := Obj(inner)]), q) == Lookup(Obj(before), q) {
      if q[0] == key {
        assert Tail({}, key) == {};
        assert Quiet({}, u[key].members, q[1..]);
        assert Lookup(Obj(inner), q[1..]) == Lookup(Obj(base), q[1..]);
      }
    }
  }

  lemma {:induction false} ValueKeepsQuiet(u: Dict, before: Dict, key: string)
    requires key in u && !u[key].Obj?
    ensures KeepsQuiet({}, u, before, before[key := u[key]])
  {
  }

  lemma {:induction false} MergeFrom(target: Dict, updates: Dict, result: Dict)
    requires result.Keys == target.Keys + updates.Keys
    requires forall k | k in updates ::
               MergeAt({}, target, updates, k).Some? && result[k] == MergeAt({}, target, updates, k).value
    requires forall k | k in target && k !in updates :: result[k] == target[k]
    ensures Merge({}, target, updates) == Some(result)
  {
    assert result == Merge({}, target, updates).value;
  }

  /** `deep_update`, one key after another; when it raises, what was done so far stays. */
  method DeepUpdate(target: Dict, updates: Dict) returns (ok: bool, result: Dict)
    ensures ok <==> Merge({}, target, updates).Some?
    ensures ok ==> result == Merge({}, target, updates).value
    ensures KeepsQuiet({}, updates, target, result)
    decreases Obj(updates)
  {
    result := target;
    var rest := updates.Keys;
    while rest != {}
      invariant rest <= updates.Keys
      invariant result.Keys == target.Keys + (updates.Keys - rest)
      invariant forall k | k in updates && k !in rest ::
                  MergeAt({}, target, updates, k).Some? && result[k] == MergeAt({}, target, updates, k).value
      invariant forall k | k in target && (k !in updates || k in rest) :: result[k] == target[k]
      invariant KeepsQuiet({}, updates, target, result)
      decreases rest
    {
      var key :| key in rest;
      assert updates[key] < Obj(updates);
      assert Tail({}, key) == {};
      if updates[key].Obj? && key in result && !result[key].Obj? {
        if updates[key].members != map[] {
          assert MergeAt({}, target, updates, key) == None;
          return false, result;
        }
      } else if updates[key].Obj? {
        var base := if key in result then result[key].members else map[];
        var done, inner := DeepUpdate(base, updates[key].members);
        KeyKeepsQuiet(updates, result, key, base, inner);
        result := result[key := Obj(inner)];
        if !done {
          assert MergeAt({}, target, updates, key) == None;
          return false, result;
        }
      } else {
        ValueKeepsQuiet(updates, result, key);
        result := result[key := updates[key]];
      }
      assert MergeAt({}, target, updates, key) == Some(result[key]);
      rest := rest - {key};
    }
    MergeFrom(target, updates, result);
    ok := true;
  }

  /** One atomic path is visited: if the delta names it, its value is taken out. */
  lemma {:induction false} LiftNext(delta: Dict, order: seq<Path>, i: nat)
    requires [] !in order && i < |order|
    ensures var found := Lookup(Obj(delta), order[i]);
            var next := if found.Some? then DeletePath(delta, order[i]) else delta;
            && Rest(delta, order[i..]) == Rest(next, order[i + 1..])
            && LiftedFrom(delta, order[i..]) ==
               (if found.Some? then [Lifted(order[i], found.value)] else []) + LiftedFrom(next, order[i + 1..])
  {
    assert order[i..][0] == order[i] && order[i..][1..] == order[i + 1..];
    if Lookup(Obj(delta), order[i]).None? {
      DeleteAbsent(delta, order[i]);
    }
  }

  class SettingsStore {
    var settings: Dict

    /** Lift the atomic values the delta names out of a copy of it. */
    static method LiftAtomic(values: Dict, order: seq<Path>) returns (delta: Dict, overrides: seq<Lifted>)
      requires [] !in order
      ensures delta == Rest(values, order) && overrides == LiftedFrom(values, order)
    {
      delta, overrides := values, [];
      for i := 0 to |order|
        invariant Rest(values, order) == Rest(delta, order[i..])
        invariant LiftedFrom(values, order) == overrides + LiftedFrom(delta, order[i..])
      {
        LiftNext(delta, order, i);
        var found := Lookup(Obj(delta), order[i]);
        if found.Some? {
          overrides := overrides + [Lifted(order[i], found.value)];
          delta := DeletePath(delta, order[i]);
        }
      }
    }

    /** Put the lifted values back, creating parents where they are missing. */
    method PutBack(overrides: seq<Lifted>) returns (ok: bool)
      requires forall i | 0 <= i < |overrides| :: overrides[i].path != []
      modifies this
      ensures ok <==> OverrideAll(Some(old(settings)), overrides).Some?
      ensures ok ==> settings == OverrideAll(Some(old(settings)), overrides).value
      ensures forall q | q != [] && (forall i | 0 <= i < |overrides| :: !Comparable(overrides[i].path, q)) ::
                Lookup(Obj(settings), q) == Lookup(Obj(old(settings)), q)
    {
      for i := 0 to |overrides|
        invariant forall q | q != [] && (forall i | 0 <= i < |overrides| :: !Comparable(overrides[i].path, q)) ::
                    Lookup(Obj(settings), q) == Lookup(Obj(old(settings)), q)
        invariant OverrideAll(Some(old(settings)), overrides) == OverrideAll(Some(settings), overrides[i..])
      {
        assert overrides[i..][0] == overrides[i] && overrides[i..][1..] == overrides[i + 1..];
        var next := Override(settings, overrides[i].path, overrides[i].value);
        if next.None? {
          NothingOverrides(overrides[i + 1..]);
          return false;
        }
        forall q | q != [] && !Comparable(overrides[i].path, q)
          ensures Lookup(Obj(next.value), q) == Lookup(Obj(settings), q)
        {
          OverrideFrame(settings, overrides[i].path, overrides[i].value, q);
        }
        settings := next.value;
      }
      ok := true;
    }

    method RemoveAll(deletions: seq<Path>)
      requires [] !in deletions
      modifies this
      ensures settings == DeleteAll(old(settings), deletions)
    {
      for i := 0 to |deletions|
        invariant settings == DeleteAll(old(settings), deletions[..i])
      {
        assert deletions[..i + 1][..i] == deletions[..i];
        settings := DeletePath(settings, deletions[i]);
      }
      assert deletions[..|deletions|] == deletions;
    }

    /**
     `apply_settings_delta`, visiting the atomic paths in the given order; when it
     raises, nothing outside its reach has changed.
     */
    method ApplySettingsDelta(delta: Json, ghost schema: Schema, order: seq<Path>) returns (ok: bool)
      requires schema.Section? && Enumerates(order, AtomicPaths(schema))
      modifies this
      ensures var paths := AtomicPaths(schema);
              ok <==> ReadDelta(delta).Some? && ApplySettings(paths, old(settings), ReadDelta(delta).value).Some?
      ensures ok ==> settings == ApplySettings(AtomicPaths(schema), old(settings), ReadDelta(delta).value).value
      ensures ok ==> ReplacesUnions(schema, ReadDelta(delta).value, settings)
      ensures ReadDelta(delta).None? ==> settings == old(settings)
      ensures !ok && ReadDelta(delta).Some? ==>
                KeepsQuiet(AtomicPaths(schema), ReadDelta(delta).value.values, old(settings), settings)
    {
      ghost var paths := AtomicPaths(schema);
      AtomicPathsPrefixFree(schema);
      var write := ReadDelta(delta);
      if write.None? {
        return false;
      }
      var values := write.value.values;
      AnyOrderIsMerge(paths, order, settings, values);
      var rest, overrides := LiftAtomic(values, order);
      var done, merged := DeepUpdate(settings, rest);
      NothingOverrides(overrides);
      QuietSteps(paths, values, order, settings, merged);
      settings := merged;
      if !done {
        return false;
      }
      ok := PutBack(overrides);
      if ok {
        RemoveAll(write.value.deletions);
        UnionsAreReplaced(schema, old(settings), write.value);
      }
    }
  }

  /** Paths that the delta does not reach are kept by the merge of its rest, and lie away from what is put back. */
  lemma {:induction false} QuietSteps(paths: set<Path>, values: Dict, order: seq<Path>, before: Dict, merged: Dict)
    requires Atomic(paths) && Enumerates(order, paths) && [] !in order
    requires KeepsQuiet({}, Rest(values, order), before, merged)
    ensures KeepsQuiet(paths, values, before, merged)
    ensures forall q, i | Quiet(paths, values, q) && 0 <= i < |LiftedFrom(values, order)| ::
              !Comparable(LiftedFrom(values, order)[i].path, q)
  {
    forall q | Quiet(paths, values, q) ensures Lookup(Obj(merged), q) == Lookup(Obj(before), q) {
      QuietWithoutPaths(paths, values, q);
      QuietRest(values, order, q);
    }
    LiftedIsNamed(values, order);
    forall q, i | Quiet(paths, values, q) && 0 <= i < |LiftedFrom(values, order)|
      ensures !Comparable(LiftedFrom(values, order)[i].path, q)
    {
      NamedIsAway(paths, values, LiftedFrom(values, order)[i].path, q);
    }
  }

  lemma {:induction false} NothingOverrides(lifted: seq<Lifted>)
    requires forall i | 0 <= i < |lifted| :: lifted[i].path != []
    ensures OverrideAll(None, lifted) == None
    decreases |lifted|
  {
    if lifted != [] {
      NothingOverrides(lifted[1..]);
    }
  }

  // ---------------------------------------------------------------- what a write means

  /** The paths at which a delta states a value, an atomic path counting as one value. */
  predicate States(paths: set<Path>, u: Dict, p: Path)
    decreases |p|
  {
    p != [] && p[0] in u &&
    if [p[0]] !in paths && u[p[0]].Obj? && u[p[0]].members != map[]
    then States(Tail(paths, p[0]), u[p[0]].members, p[1..]) else |p| == 1
  }

  /** An atomic path the delta names is stated there as one value. */
  lemma {:induction false} NamedIsStated(paths: set<Path>, u: Dict, p: Path)
    requires Atomic(paths) && p in paths && Lookup(Obj(u), p).Some?
    ensures States(paths, u, p)
    decreases |p|
  {
    if |p| == 1 {
      assert p == [p[0]];
    } else {
      assert [p[0]] <= p && [p[0]] != p;
      TailPrefixFree(paths, p[0]);
      assert p[1..] in Tail(paths, p[0]);
      NamedIsStated(Tail(paths, p[0]), u[p[0]].members, p[1..]);
    }
  }

  lemma {:induction false} MergeEntry(paths: set<Path>, t: Dict, u: Dict, k: string)
    requires Merge(paths, t, u).Some? && k in u
    ensures MergeAt(paths, t, u, k).Some? && k in Merge(paths, t, u).value
    ensures Merge(paths, t, u).value[k] == MergeAt(paths, t, u, k).value
  {
  }

  /** Merging onto nothing never raises. */
  lemma {:induction false} MergeOntoNothing(paths: set<Path>, u: Dict)
    ensures Merge(paths, map[], u).Some?
    decreases Obj(u)
  {
    forall k | k in u ensures MergeAt(paths, map[], u, k).Some? {
      if u[k].Obj? {
        assert u[k] < Obj(u);
        MergeOntoNothing(Tail(paths, k), u[k].members);
      }
    }
  }

  /** Every stated value is in place: whole at an atomic path; an empty mapping elsewhere only makes the place exist. */
  lemma {:induction false} MergeWrites(paths: set<Path>, t: Dict, u: Dict, p: Path)
    requires Merge(paths, t, u).Some? && States(paths, u, p)
    ensures var stated, after := Lookup(Obj(u), p), Lookup(Obj(Merge(paths, t, u).value), p);
            stated.Some? && after.Some? &&
            (p in paths || stated.value != Obj(map[]) ==> after == stated)
    decreases |p|
  {
    var k := p[0];
    MergeEntry(paths, t, u, k);
    if [k] !in paths && u[k].Obj? && u[k].members != map[] {
      assert p in paths ==> p[1..] in Tail(paths, k);
      MergeWrites(Tail(paths, k), if k in t then t[k].members else map[], u[k].members, p[1..]);
    } else {
      assert p == [k] && p[1..] == [];
    }
  }

  ghost predicate SilentAt(paths: set<Path>, u: Dict, q: Path) {
    forall p :: States(paths, u, p) ==> !Comparable(p, q)
  }

  lemma {:induction false} StatesUnder(paths: set<Path>, u: Dict, k: string, p: Path)
    requires k in u && [k] !in paths && u[k].Obj? && States(Tail(paths, k), u[k].members, p)
    ensures States(paths, u, [k] + p)
  {
    assert ([k] + p)[1..] == p;
  }

  lemma {:induction false} StatesSomething(paths: set<Path>, u: Dict) returns (p: Path)
    requires u != map[]
    ensures States(paths, u, p)
    decreases Obj(u)
  {
    var k :| k in u;
    if [k] !in paths && u[k].Obj? && u[k].members != map[] {
      assert u[k] < Obj(u);
      var inner := StatesSomething(Tail(paths, k), u[k].members);
      StatesUnder(paths, u, k, inner);
      p := [k] + inner;
    } else {
      p := [k];
    }
  }

  lemma {:induction false} SilentInside(paths: set<Path>, u: Dict, q: Path)
    requires q != [] && q[0] in u && SilentAt(paths, u, q)
    ensures |q| > 1 && [q[0]] !in paths && u[q[0]].Obj? && SilentAt(Tail(paths, q[0]), u[q[0]].members, q[1..])
  {
    var k := q[0];
    assert [k] <= q && !States(paths, u, [k]);
    var r := StatesSomething(Tail(paths, k), u[k].members);
    StatesUnder(paths, u, k, r);
    assert [k] <= [k] + r && (|q| == 1 ==> q == [k]);
    assert [k] + q[1..] == q;
    forall p | States(Tail(paths, k), u[k].members, p) ensures !Comparable(p, q[1..]) {
      StatesUnder(paths, u, k, p);
      ComparableUnder(k, p, q[1..]);
    }
  }

  /** A path the delta says nothing at, above or below keeps its value, or stays absent. */
  lemma {:induction false} MergeFrame(paths: set<Path>, t: Dict, u: Dict, q: Path)
    requires q != [] && Merge(paths, t, u).Some? && SilentAt(paths, u, q)
    ensures Lookup(Obj(Merge(paths, t, u).value), q) == Lookup(Obj(t), q)
    decreases |q|
  {
    var k := q[0];
    if k in u {
      MergeEntry(paths, t, u, k);
      SilentInside(paths, u, q);
      if !(k in t && !t[k].Obj?) {
        MergeFrame(Tail(paths, k), if k in t then t[k].members else map[], u[k].members, q[1..]);
      }
    }
  }

  lemma {:induction false} DeleteAllRemoves(t: Dict, paths: seq<Path>, q: Path)
    requires [] !in paths && exists i :: 0 <= i < |paths| && paths[i] <= q
    ensures Lookup(Obj(DeleteAll(t, paths)), q) == None
    decreases |paths|
  {
    var n := |paths| - 1;
    var rest := DeleteAll(t, paths[..n]);
    if paths[n] <= q {
      DeleteRemoves(rest, paths[n], q);
    } else {
      var i :| 0 <= i < |paths| && paths[i] <= q;
      assert paths[..n][i] == paths[i];
      DeleteAllRemoves(t, paths[..n], q);
      DeleteKeepsAbsent(rest, paths[n], q);
    }
  }

  lemma {:induction false} DeleteAllFrame(t: Dict, paths: seq<Path>, q: Path)
    requires [] !in paths && q != [] && forall i | 0 <= i < |paths| :: !Comparable(paths[i], q)
    ensures Lookup(Obj(DeleteAll(t, paths)), q) == Lookup(Obj(t), q)
    decreases |paths|
  {
    if paths != [] {
      var n := |paths| - 1;
      DeleteAllFrame(t, paths[..n], q);
      DeleteFrame(DeleteAll(t, paths[..n]), paths[n], q);
    }
  }

  ghost predicate Deletes(write: SettingsWrite, q: Path) {
    exists i :: 0 <= i < |write.deletions| && write.deletions[i] <= q
  }

  ghost predicate DeletesNear(write: SettingsWrite, q: Path) {
    exists i :: 0 <= i < |write.deletions| && Comparable(write.deletions[i], q)
  }

  /**
   The whole write, path by path. A deleted path is absent even when the same
   write sets it. Away from deletions, an atomic path the delta names holds
   exactly the delta's value, and a path it is silent about is unchanged.
   */
  lemma {:induction false} WriteMeaning(paths: set<Path>, t: Dict, write: SettingsWrite, q: Path)
    requires Atomic(paths) && [] !in write.deletions && q != []
    requires ApplySettings(paths, t, write).Some?
    ensures var after := Lookup(Obj(ApplySettings(paths, t, write).value), q);
            && (Deletes(write, q) ==> after == None)
            && (!DeletesNear(write, q) && q in paths && Lookup(Obj(write.values), q).Some? ==>
                  after == Lookup(Obj(write.values), q))
            && (!DeletesNear(write, q) && States(paths, write.values, q) ==>
                  after == Lookup(Obj(write.values), q) || Lookup(Obj(write.values), q) == Some(Obj(map[])))
            && (!DeletesNear(write, q) && SilentAt(paths, write.values, q) ==> after == Lookup(Obj(t), q))
  {
    var merged := Merge(paths, t, write.values).value;
    if Deletes(write, q) {
      DeleteAllRemoves(merged, write.deletions, q);
    }
    if !DeletesNear(write, q) {
      DeleteAllFrame(merged, write.deletions, q);
      if q in paths && Lookup(Obj(write.values), q).Some? {
        NamedIsStated(paths, write.values, q);
      }
      if States(paths, write.values, q) {
        MergeWrites(paths, t, write.values, q);
      }
      if SilentAt(paths, write.values, q) {
        MergeFrame(paths, t, write.values, q);
      }
    }
  }

  /**
   Each path that leads to a tagged union, that the delta names and no deletion
   touches, holds exactly the delta's value, whatever was there.
   */
  ghost predicate ReplacesUnions(schema: Schema, write: SettingsWrite, after: Dict) {
    forall q | EndsAtUnion(schema, q) && Lookup(Obj(write.values), q).Some? && !DeletesNear(write, q) ::
      Lookup(Obj(after), q) == Lookup(Obj(write.values), q)
  }

  lemma {:induction false} UnionsAreReplaced(schema: Schema, t: Dict, write: SettingsWrite)
    requires schema.Section? && [] !in write.deletions
    requires ApplySettings(AtomicPaths(schema), t, write).Some?
    ensures ReplacesUnions(schema, write, ApplySettings(AtomicPaths(schema), t, write).value)
  {
    AtomicPathsPrefixFree(schema);
    forall q | EndsAtUnion(schema, q) && Lookup(Obj(write.values), q).Some? && !DeletesNear(write, q)
      ensures Lookup(Obj(ApplySettings(AtomicPaths(schema), t, write).value), q) == Lookup(Obj(write.values), q)
    {
      AtomicPathsLeadToUnions(schema, q);
      WriteMeaning(AtomicPaths(schema), t, write, q);
    }
  }

  // ---------------------------------------------------------------- writing twice

  lemma {:induction false} MergeTwice(paths: set<Path>, t: Dict, u: Dict)
    requires Merge(paths, t, u).Some?
    ensures Merge(paths, Merge(paths, t, u).value, u) == Merge(paths, t, u)
    decreases Obj(u)
  {
    var m := Merge(paths, t, u).value;
    forall k | k in u ensures MergeAt(paths, m, u, k) == Some(m[k]) {
      MergeEntry(paths, t, u, k);
      if [k] !in paths && u[k].Obj? && !(k in t && !t[k].Obj?) {
        assert u[k] < Obj(u);
        MergeTwice(Tail(paths, k), if k in t then t[k].members else map[], u[k].members);
      }
    }
    assert Merge(paths, m, u).value == m;
  }

  /** Deleting a path before the merge makes no difference when it is deleted after it. */
  lemma {:induction false} DeleteAbsorbed(paths: set<Path>, m: Dict, u: Dict, d: Path)
    requires d != [] && Merge(paths, m, u).Some?
    ensures Merge(paths, DeletePath(m, d), u).Some?
    ensures DeletePath(Merge(paths, DeletePath(m, d), u).value, d) == DeletePath(Merge(paths, m, u).value, d)
    decreases |d|
  {
    var less, k := DeletePath(m, d), d[0];
    forall l | l in u
      ensures MergeAt(paths, less, u, l).Some? && (l != k ==> MergeAt(paths, less, u, l) == MergeAt(paths, m, u, l))
    {
      MergeEntry(paths, m, u, l);
      if l == k && [k] !in paths && u[k].Obj? && k in m && m[k].Obj? {
        if |d| == 1 {
          MergeOntoNothing(Tail(paths, k), u[k].members);
        } else {
          DeleteAbsorbed(Tail(paths, k), m[k].members, u[k].members, d[1..]);
        }
      } else if l == k && [k] !in paths && u[k].Obj? {
        MergeOntoNothing(Tail(paths, k), u[k].members);
      }
    }
    var x, y := Merge(paths, less, u).value, Merge(paths, m, u).value;
    if k in u {
      MergeEntry(paths, m, u, k);
      MergeEntry(paths, less, u, k);
      if |d| > 1 && [k] !in paths && u[k].Obj? && k in m && m[k].Obj? {
        DeleteAbsorbed(Tail(paths, k), m[k].members, u[k].members, d[1..]);
      }
    }
    DeleteRemoves(m, d, d);
    DeleteAbsent(less, d);
    SameAfterDelete(x, y, d);
  }

  /** Dictionaries that differ only where a path is deleted are the same afterwards. */
  lemma {:induction false} SameAfterDelete(x: Dict, y: Dict, d: Path)
    requires d != []
    requires forall l | l != d[0] :: (l in x <==> l in y) && (l in x ==> x[l] == y[l])
    requires |d| > 1 ==>
               && (d[0] in x <==> d[0] in y)
               && (d[0] in x ==>
                     || x[d[0]] == y[d[0]]
                     || (x[d[0]].Obj? && y[d[0]].Obj? &&
                         DeletePath(x[d[0]].members, d[1..]) == DeletePath(y[d[0]].members, d[1..])))
    ensures DeletePath(x, d) == DeletePath(y, d)
  {
    assert forall l | l in DeletePath(x, d) :: l in DeletePath(y, d) && DeletePath(x, d)[l] == DeletePath(y, d)[l];
  }

  lemma {:induction false} DeleteAllCommutes(t: Dict, paths: seq<Path>, d: Path)
    requires [] !in paths && d != []
    ensures DeletePath(DeleteAll(t, paths), d) == DeleteAll(DeletePath(t, d), paths)
    decreases |paths|
  {
    if paths != [] {
      var n := |paths| - 1;
      DeletesCommute(DeleteAll(t, paths[..n]), paths[n], d);
      DeleteAllCommutes(t, paths[..n], d);
    }
  }

  lemma {:induction false} DeletionsAbsorbed(paths: set<Path>, m: Dict, u: Dict, deletions: seq<Path>)
    requires [] !in deletions && Merge(paths, m, u).Some?
    ensures Merge(paths, DeleteAll(m, deletions), u).Some?
    ensures DeleteAll(Merge(paths, DeleteAll(m, deletions), u).value, deletions) ==
            DeleteAll(Merge(paths, m, u).value, deletions)
    decreases |deletions|
  {
    if deletions != [] {
      var n := |deletions| - 1;
      var some, d := deletions[..n], deletions[n];
      DeletionsAbsorbed(paths, m, u, some);
      DeleteAbsorbed(paths, DeleteAll(m, some), u, d);
      DeleteAllCommutes(Merge(paths, DeleteAll(m, deletions), u).value, some, d);
      DeleteAllCommutes(Merge(paths, DeleteAll(m, some), u).value, some, d);
    }
  }

  /** Applying the same write again succeeds and changes nothing. */
  lemma {:induction false} WriteIsIdempotent(paths: set<Path>, t: Dict, write: SettingsWrite)
    requires [] !in write.deletions && ApplySettings(paths, t, write).Some?
    ensures ApplySettings(paths, ApplySettings(paths, t, write).value, write) == ApplySettings(paths, t, write)
  {
    MergeTwice(paths, t, write.values);
    DeletionsAbsorbed(paths, Merge(paths, t, write.values).value, write.values, write.deletions);
  }

  // ---------------------------------------------------------------- when a write raises

  /** The delta wants a mapping's members where the settings hold something else, outside every atomic value. */
  ghost predicate Collides(paths: set<Path>, t: Dict, u: Dict, q: Path) {
    && Lookup(Obj(t), q).Some? && !Lookup(Obj(t), q).value.Obj?
    && Lookup(Obj(u), q).Some? && Lookup(Obj(u), q).value.Obj? && Lookup(Obj(u), q).value.members != map[]
    && forall p | p in paths :: !(p <= q)
  }

  lemma {:induction false} RaiseHasCollision(paths: set<Path>, t: Dict, u: Dict) returns (q: Path)
    requires Atomic(paths) && Merge(paths, t, u).None?
    ensures Collides(paths, t, u, q)
    decreases Obj(u)
  {
    var k :| k in u && MergeAt(paths, t, u, k).None?;
    if k in t && !t[k].Obj? {
      q := [k];
      forall p | p in paths ensures !(p <= q) {
        assert p <= [k] ==> p == [k];
      }
    } else {
      assert u[k] < Obj(u);
      if k !in t {
        MergeOntoNothing(Tail(paths, k), u[k].members);
      }
      TailPrefixFree(paths, k);
      var inner := RaiseHasCollision(Tail(paths, k), t[k].members, u[k].members);
      q := [k] + inner;
      assert q[1..] == inner;
      forall p | p in paths ensures !(p <= q) {
        if p[0] == k {
          assert p[1..] in Tail(paths, k) && p == [k] + p[1..];
          PrefixUnder(k, p[1..], inner);
        }
      }
    }
  }

  lemma {:induction false} CollisionRaises(paths: set<Path>, t: Dict, u: Dict, q: Path)
    requires Collides(paths, t, u, q)
    ensures Merge(paths, t, u).None?
    decreases |q|
  {
    var k := q[0];
    assert [k] <= q;
    assert Lookup(Obj(t), q) == Lookup(t[k], q[1..]) && Lookup(Obj(u), q) == Lookup(u[k], q[1..]);
    if |q| == 1 {
      assert MergeAt(paths, t, u, k).None?;
    } else {
      forall p | p in Tail(paths, k) ensures !(p <= q[1..]) {
        var r :| r in paths && r != [] && r[0] == k && p == r[1..];
        assert r == [k] + p && q == [k] + q[1..];
        PrefixUnder(k, p, q[1..]);
      }
      CollisionRaises(Tail(paths, k), t[k].members, u[k].members, q[1..]);
      assert MergeAt(paths, t, u, k).None?;
    }
  }

  /** A write raises exactly when somewhere outside the atomic values it merges members onto what is no mapping. */
  lemma {:induction false} WriteRaisesExactly(paths: set<Path>, t: Dict, write: SettingsWrite)
    requires Atomic(paths) && [] !in write.deletions
    ensures ApplySettings(paths, t, write).None? <==> exists q :: Collides(paths, t, write.values, q)
  {
    if Merge(paths, t, write.values).None? {
      var q := RaiseHasCollision(paths, t, write.values);
    }
    if q :| Collides(paths, t, write.values, q) {
      CollisionRaises(paths, t, write.values, q);
    }
  }
}
