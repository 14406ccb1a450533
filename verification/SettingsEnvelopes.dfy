/** Building settings writes, against reading them. */
module SettingsEnvelopes {
  import opened Wrappers
  import opened JsonValues
  import opened JsonTrees
  import opened SettingsDeltas

  /** `settings_delta`: the envelope, before it is validated; empty parts are left out. */
  function BuildWrite(values: Dict, deletions: seq<Path>): Json {
    var base: Dict := map[SETTINGS_DELTA_KEY := Int(SETTINGS_DELTA_VERSION)];
    var withSet := if values == map[] then base else base["set" := Obj(values)];
    Obj(if deletions == [] then withSet else withSet["delete" := Arr(EncodePaths(deletions))])
  }

  lemma {:induction false} DeletionRoundTrip(path: Path)
    ensures DecodeDeletion(EncodePath(path)) == if path != [] then Some(path) else None
  {
    var items := EncodePath(path).items;
    assert forall i | 0 <= i < |items| :: items[i] == Str(path[i]);
    if path != [] {
      assert path == seq(|items|, i requires 0 <= i < |items| => if items[i].Str? then items[i].text else "");
    }
  }

  lemma {:induction false} DeletionsRoundTrip(paths: seq<Path>)
    ensures DecodeDeletions(EncodePaths(paths)) == if [] !in paths then Some(paths) else None
    decreases |paths|
  {
    if paths != [] {
      var n := |paths| - 1;
      assert EncodePaths(paths)[..n] == EncodePaths(paths[..n]);
      DeletionsRoundTrip(paths[..n]);
      DeletionRoundTrip(paths[n]);
      assert paths[..n] + [paths[n]] == paths;
      assert [] in paths <==> [] in paths[..n] || paths[n] == [];
    }
  }

  lemma {:induction false} WriteParts(values: Dict, deletions: seq<Path>)
    ensures var d := BuildWrite(values, deletions).members;
            && d.Keys <= {SETTINGS_DELTA_KEY, "set", "delete"}
            && SETTINGS_DELTA_KEY in d && d[SETTINGS_DELTA_KEY] == Int(SETTINGS_DELTA_VERSION)
            && Get(d, "set") == (if values == map[] then Null else Obj(values))
            && Get(d, "delete") == (if deletions == [] then Null else Arr(EncodePaths(deletions)))
  {
  }

  /** Building a settings write succeeds exactly when no deletion is empty, and reading gives back that write. */
  lemma {:induction false} WriteRoundTrip(values: Dict, deletions: seq<Path>)
    ensures ReadDelta(BuildWrite(values, deletions)) ==
            if [] !in deletions then Some(SettingsWrite(values, deletions)) else None
  {
    WriteParts(values, deletions);
    DeletionsRoundTrip(deletions);
  }

  /** A bare partial is the write that assigns it and deletes nothing, unless it carries the envelope's own key. */
  lemma {:induction false} BarePartial(values: Dict)
    ensures SETTINGS_DELTA_KEY !in values ==> ReadDelta(Obj(values)) == ReadDelta(BuildWrite(values, []))
  {
    WriteRoundTrip(values, []);
  }

  // ---------------------------------------------------------------- what a write is spelled as

  predicate SpellsDeletion(value: Json, path: Path) {
    && value.Arr? && |value.items| == |path| > 0
    && forall i | 0 <= i < |path| :: value.items[i] == Str(path[i])
  }

  predicate SpellsDeletions(values: seq<Json>, paths: seq<Path>) {
    |values| == |paths| && forall i | 0 <= i < |paths| :: SpellsDeletion(values[i], paths[i])
  }

  /**
   Either a bare partial, or an envelope of version one (which `True` equals) whose
   missing or null parts are empty.
   */
  predicate SpellsWrite(delta: Json, write: SettingsWrite) {
    && delta.Obj?
    && var d := delta.members;
    if "__settings_delta__" !in d then write == SettingsWrite(d, [])
    else
      && d.Keys <= {"__settings_delta__", "set", "delete"}
      && (Spells(d["__settings_delta__"], 1.0) || d["__settings_delta__"] == Bool(true))
      && (if "set" !in d || d["set"] == Null then write.values == map[] else d["set"] == Obj(write.values))
      && (if "delete" !in d || d["delete"] == Null then write.deletions == []
          else d["delete"].Arr? && SpellsDeletions(d["delete"].items, write.deletions))
  }

  lemma {:induction false} DecodeDeletionExactly(value: Json, path: Path)
    ensures DecodeDeletion(value) == Some(path) <==> SpellsDeletion(value, path)
  {
    if SpellsDeletion(value, path) {
      assert path == seq(|value.items|, i requires 0 <= i < |value.items| =>
                           if value.items[i].Str? then value.items[i].text else "");
    }
  }

  lemma {:induction false} DecodeDeletionsExactly(values: seq<Json>, paths: seq<Path>)
    ensures DecodeDeletions(values) == Some(paths) <==> SpellsDeletions(values, paths)
    decreases |values|
  {
    if values != [] && paths != [] {
      var n, m := |values| - 1, |paths| - 1;
      DecodeDeletionsExactly(values[..n], paths[..m]);
      DecodeDeletionExactly(values[n], paths[m]);
      assert paths == paths[..m] + [paths[m]];
      assert n == m ==> (SpellsDeletions(values, paths) <==>
                           SpellsDeletions(values[..n], paths[..m]) && SpellsDeletion(values[n], paths[m]));
    }
  }

  /** Reading takes exactly what spells a write, as that write. */
  lemma {:induction false} ReadDeltaExactly(delta: Json, write: SettingsWrite)
    ensures ReadDelta(delta) == Some(write) <==> SpellsWrite(delta, write)
  {
    if delta.Obj? && "delete" in delta.members && delta.members["delete"].Arr? {
      forall paths
        ensures DecodeDeletions(delta.members["delete"].items) == Some(paths) <==>
                SpellsDeletions(delta.members["delete"].items, paths)
      {
        DecodeDeletionsExactly(delta.members["delete"].items, paths);
      }
    }
  }
}
