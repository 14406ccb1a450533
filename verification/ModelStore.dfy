/**
 Learned-model checkpoints: every store object of a process shares one backend
 with a durable record and two caches of it, and keeps a third cache of its
 own. Whether a stored value passes the persistence boundary is decided by
 `_valid`; here a value is `Sound` or `Malformed`.
 */
module ModelStore {
  import opened Wrappers
  import opened JsonValues

  /** A snapshot that passed the boundary: a nonnegative revision and the rest of the model. */
  datatype Snapshot = Snapshot(revision: nat, model: Json)

  datatype Stored = Sound(snapshot: Snapshot) | Malformed(raw: Json)

  /** The one generic key: absent, not readable as a current record, or a record per controller name. */
  datatype Storage = NeverWritten | Unrecognised | Record(models: map<string, Stored>)

  datatype Backend = Backend(latest: map<string, Snapshot>, committed: map<string, nat>, storage: Storage)

  datatype SaveOutcome = Saved | Nonadvancing | Failed

  /** The valid members of a record; malformed ones are dropped, so one controller cannot poison another. */
  function SoundModels(storage: Storage): map<string, Snapshot> {
    if storage.Record? then map k | k in storage.models && storage.models[k].Sound? :: storage.models[k].snapshot
    else map[]
  }

  /** `_read_state`: the stored snapshots and whether they are safe to overwrite. */
  function ReadState(storage: Storage, readable: bool): (map<string, Snapshot>, bool) {
    if !readable || storage.Unrecognised? then (map[], false) else (SoundModels(storage), true)
  }

  function WriteModels(models: map<string, Snapshot>): Storage {
    Record(map k | k in models :: Sound(models[k]))
  }

  // Revisions with -1 for "none", so that every comparison is one inequality.

  function DurableRevision(b: Backend, name: string): int {
    if name in SoundModels(b.storage) then SoundModels(b.storage)[name].revision else -1
  }

  function LatestRevision(b: Backend, name: string): int {
    if name in b.latest then b.latest[name].revision else -1
  }

  function CommittedRevision(b: Backend, name: string): int {
    if name in b.committed then b.committed[name] else -1
  }

  function CachedRevision(revisions: map<string, nat>, name: string): int {
    if name in revisions then revisions[name] else -1
  }

  // ---------------------------------------------------------------- the locked sections

  /** `stage_owned`: publish a snapshot before it is written. */
  function Stage(b: Backend, name: string, s: Snapshot): Backend {
    if s.revision <= LatestRevision(b, name) then b else b.(latest := b.latest[name := s])
  }

  /** The newest snapshot of this name is now the higher of two, the given one only if it is strictly newer. */
  ghost predicate Published(before: Backend, after: Backend, name: string, s: Snapshot) {
    && after.committed == before.committed && after.storage == before.storage
    && name in after.latest
    && (if name in before.latest && before.latest[name].revision >= s.revision
        then after.latest[name] == before.latest[name] else after.latest[name] == s)
    && forall other | other != name ::
         && (other in after.latest <==> other in before.latest)
         && (other in before.latest ==> after.latest[other] == before.latest[other])
  }

  lemma {:induction false} StagePublishes(b: Backend, name: string, s: Snapshot)
    ensures Published(b, Stage(b, name, s), name, s)
  {
  }

  /** `_remember_owned` for a snapshot read from or written to storage. */
  function Remember(b: Backend, name: string, s: Snapshot): Backend {
    b.(
    latest := if s.revision > LatestRevision(b, name) ||
                 (s.revision == LatestRevision(b, name) && CommittedRevision(b, name) == s.revision)
              then b.latest[name := s] else b.latest,
    committed := if s.revision > CommittedRevision(b, name) then b.committed[name := s.revision] else b.committed)
  }

  function RememberAny(b: Backend, name: string, models: map<string, Snapshot>): Backend {
    if name in models then Remember(b, name, models[name]) else b
  }

  // ---------------------------------------------------------------- whole calls

  /** `save_outcome` of a valid snapshot, when nothing else happens during the call. */
  function SaveCall(
    b: Backend, revisions: map<string, nat>, name: string, s: Snapshot, readable: bool, writable: bool)
    : (SaveOutcome, Backend, map<string, nat>)
  {
    if s.revision < LatestRevision(b, name) then (Nonadvancing, b, revisions)
    else if s.revision <= CachedRevision(revisions, name) then (Nonadvancing, b, revisions)
    else
      var (models, safe) := ReadState(b.storage, readable);
      if !safe then (Failed, b, revisions)
      else
        var known := RememberAny(b, name, models);
        if name in models && s.revision <= models[name].revision then (Nonadvancing, known, revisions)
        else if !writable then (Failed, known, revisions)
        else
          (Saved,
           Remember(known.(storage := WriteModels(models[name := s])), name, s),
           revisions[name := s.revision])
  }

  /** `load`, when nothing else happens during the call. */
  function LoadCall(b: Backend, revisions: map<string, nat>, name: string, readable: bool)
    : (Option<Snapshot>, Backend, map<string, nat>)
  {
    var (models, _) := ReadState(b.storage, readable);
    var known := RememberAny(b, name, models);
    if name !in known.latest then (None, known, revisions)
    else
      (Some(known.latest[name]), known,
       if name in known.committed then revisions[name := known.committed[name]] else revisions)
  }

  // ---------------------------------------------------------------- agreement of the views

  /** The caches of the backend never run ahead of what they stand for. */
  ghost predicate Agrees(b: Backend) {
    forall name ::
      && CommittedRevision(b, name) <= DurableRevision(b, name)
      && CommittedRevision(b, name) <= LatestRevision(b, name)
  }

  ghost predicate Behind(revisions: map<string, nat>, b: Backend) {
    forall name :: CachedRevision(revisions, name) <= DurableRevision(b, name)
  }

  /** No revision of the second backend lies below that of the first. */
  ghost predicate Advances(b: Backend, c: Backend) {
    forall name ::
      && DurableRevision(b, name) <= DurableRevision(c, name)
      && LatestRevision(b, name) <= LatestRevision(c, name)
      && CommittedRevision(b, name) <= CommittedRevision(c, name)
  }

  lemma {:induction false} RememberAgrees(b: Backend, name: string, s: Snapshot)
    requires Agrees(b) && s.revision <= DurableRevision(b, name)
    ensures Agrees(Remember(b, name, s)) && Advances(b, Remember(b, name, s))
    ensures CommittedRevision(Remember(b, name, s), name) >= s.revision
    ensures Remember(b, name, s).storage == b.storage
  {
    var c := Remember(b, name, s);
    forall other
      ensures && CommittedRevision(c, other) <= DurableRevision(c, other)
              && CommittedRevision(c, other) <= LatestRevision(c, other)
    {
      assert CommittedRevision(b, other) <= DurableRevision(b, other);
    }
  }

  lemma {:induction false} WriteAdvances(b: Backend, name: string, s: Snapshot, models: map<string, Snapshot>)
    requires Agrees(b) && models == SoundModels(b.storage) && s.revision > DurableRevision(b, name)
    ensures var c := b.(storage := WriteModels(models[name := s]));
            && Agrees(c) && Advances(b, c) && SoundModels(c.storage) == models[name := s]
            && DurableRevision(c, name) == s.revision
  {
    var c := b.(storage := WriteModels(models[name := s]));
    assert SoundModels(c.storage) == models[name := s];
    forall other
      ensures && CommittedRevision(c, other) <= DurableRevision(c, other)
              && CommittedRevision(c, other) <= LatestRevision(c, other)
    {
      assert CommittedRevision(b, other) <= DurableRevision(b, other);
    }
  }

  lemma {:induction false} StageAgrees(b: Backend, name: string, s: Snapshot)
    requires Agrees(b)
    ensures Agrees(Stage(b, name, s)) && Advances(b, Stage(b, name, s))
  {
    var c := Stage(b, name, s);
    forall other
      ensures && CommittedRevision(c, other) <= DurableRevision(c, other)
              && CommittedRevision(c, other) <= LatestRevision(c, other)
    {
      assert CommittedRevision(b, other) <= LatestRevision(b, other);
    }
  }

  lemma {:induction false} RememberAnyAgrees(b: Backend, name: string, readable: bool)
    requires Agrees(b)
    ensures var known := RememberAny(b, name, ReadState(b.storage, readable).0);
            Agrees(known) && Advances(b, known) && known.storage == b.storage
  {
    var models := ReadState(b.storage, readable).0;
    if name in models {
      RememberAgrees(b, name, models[name]);
    }
  }

  /** What one store knows stays behind storage whatever another store does. */
  lemma {:induction false} StillBehind(revisions: map<string, nat>, b: Backend, c: Backend)
    requires Behind(revisions, b) && Advances(b, c)
    ensures Behind(revisions, c)
  {
    forall name ensures CachedRevision(revisions, name) <= DurableRevision(c, name) {
      assert CachedRevision(revisions, name) <= DurableRevision(b, name);
    }
  }

  /** The views agree after every save, and no revision ever goes back. */
  lemma {:induction false} SaveAgrees(
    b: Backend, revisions: map<string, nat>, name: string, s: Snapshot, readable: bool, writable: bool)
    requires Agrees(b) && Behind(revisions, b)
    ensures var (_, c, cached) := SaveCall(b, revisions, name, s, readable, writable);
            Agrees(c) && Behind(cached, c) && Advances(b, c)
  {
    var (models, safe) := ReadState(b.storage, readable);
    RememberAnyAgrees(b, name, readable);
    var known := RememberAny(b, name, models);
    StillBehind(revisions, b, known);
    if safe && s.revision > DurableRevision(known, name) {
      WriteAdvances(known, name, s, models);
      var written := known.(storage := WriteModels(models[name := s]));
      RememberAgrees(written, name, s);
      var c := Remember(written, name, s);
      assert Advances(b, c) by {
        AdvancesTransitive(b, known, written);
        AdvancesTransitive(b, written, c);
      }
      StillBehind(revisions, b, c);
    }
  }

  lemma {:induction false} AdvancesTransitive(a: Backend, b: Backend, c: Backend)
    requires Advances(a, b) && Advances(b, c)
    ensures Advances(a, c)
  {
    forall name
      ensures && DurableRevision(a, name) <= DurableRevision(c, name)
              && LatestRevision(a, name) <= LatestRevision(c, name)
              && CommittedRevision(a, name) <= CommittedRevision(c, name)
    {
      assert DurableRevision(a, name) <= DurableRevision(b, name);
    }
  }

  lemma {:induction false} LoadAgrees(b: Backend, revisions: map<string, nat>, name: string, readable: bool)
    requires Agrees(b) && Behind(revisions, b)
    ensures var (_, c, cached) := LoadCall(b, revisions, name, readable);
            Agrees(c) && Behind(cached, c) && Advances(b, c)
  {
    RememberAnyAgrees(b, name, readable);
    var known := RememberAny(b, name, ReadState(b.storage, readable).0);
    StillBehind(revisions, b, known);
    assert CommittedRevision(known, name) <= DurableRevision(known, name);
  }

  /**
   The refusal that costs one lookup is sound: whatever the store's own cache
   refuses, the durable record would refuse too. So the cache can be left out of
   the decision without changing it.
   */
  lemma {:induction false} CheapRefusalIsExact(
    b: Backend, revisions: map<string, nat>, name: string, s: Snapshot, writable: bool)
    requires Agrees(b) && Behind(revisions, b) && !b.storage.Unrecognised?
    ensures SaveCall(b, revisions, name, s, true, writable).0 == SaveCall(b, map[], name, s, true, writable).0
  {
  }

  /** With readable storage a save is refused exactly when the durable record or a newer staged snapshot outranks it. */
  lemma {:induction false} SaveDecision(
    b: Backend, revisions: map<string, nat>, name: string, s: Snapshot, writable: bool)
    requires Agrees(b) && Behind(revisions, b) && !b.storage.Unrecognised?
    ensures SaveCall(b, revisions, name, s, true, writable).0 ==
            if s.revision <= DurableRevision(b, name) || s.revision < LatestRevision(b, name) then Nonadvancing
            else if writable then Saved else Failed
  {
  }

  /** A save that reports success stored exactly this snapshot and kept every other valid member. */
  lemma {:induction false} SavedKeepsTheRest(
    b: Backend, revisions: map<string, nat>, name: string, s: Snapshot, readable: bool, writable: bool)
    ensures var (outcome, c, cached) := SaveCall(b, revisions, name, s, readable, writable);
            && (outcome.Saved? ==>
                  && SoundModels(c.storage) == SoundModels(b.storage)[name := s]
                  && cached == revisions[name := s.revision])
            && (!outcome.Saved? ==> c.storage == b.storage && cached == revisions)
  {
    var (models, _) := ReadState(b.storage, readable);
    assert SoundModels(WriteModels(models[name := s])) == models[name := s];
  }

  /** Loading brings the cache up to storage, and settles on the stored bytes once they are known to be committed. */
  lemma {:induction false} LoadReconciles(b: Backend, revisions: map<string, nat>, name: string)
    requires Agrees(b) && !b.storage.Unrecognised?
    ensures var (result, c, _) := LoadCall(b, revisions, name, true);
            && (result.Some? <==> LatestRevision(c, name) >= 0)
            && (result.Some? ==> result.value.revision == LatestRevision(c, name) >= DurableRevision(b, name))
            && (LatestRevision(b, name) < DurableRevision(b, name) ||
                (0 <= LatestRevision(b, name) == DurableRevision(b, name) == CommittedRevision(b, name)) ==>
                  result == Some(SoundModels(b.storage)[name]))
  {
  }

  ghost predicate OthersKept(before: Backend, after: Backend, name: string) {
    forall other | other != name ::
      && (other in after.latest <==> other in before.latest)
      && (other in before.latest ==> after.latest[other] == before.latest[other])
      && (other in after.committed <==> other in before.committed)
      && (other in before.committed ==> after.committed[other] == before.committed[other])
  }

  /** Storage said that this snapshot is committed: it is the newest unless a newer one is staged. */
  ghost predicate Remembers(before: Backend, after: Backend, name: string, s: Snapshot) {
    && after.storage == before.storage && OthersKept(before, after, name)
    && name in after.latest && name in after.committed
    && after.committed[name] == (if name in before.committed && before.committed[name] > s.revision
                                 then before.committed[name] else s.revision)
    && after.latest[name] ==
       (if name in before.latest &&
           (before.latest[name].revision > s.revision ||
            (before.latest[name].revision == s.revision &&
             !(name in before.committed && before.committed[name] == s.revision)))
        then before.latest[name] else s)
  }

  lemma {:induction false} RememberMeans(b: Backend, name: string, s: Snapshot)
    ensures Remembers(b, Remember(b, name, s), name, s)
  {
  }

  /** What storage holds for a name, as far as it can be read. */
  function Durable(storage: Storage, name: string): Option<Snapshot> {
    match storage
    case Record(models) =>
      if name in models then (match models[name] case Sound(s) => Some(s) case Malformed(_) => None) else None
    case _ => None
  }

  /** A cache knows a newer snapshot, or one that this store has seen committed. */
  predicate Refused(b: Backend, revisions: map<string, nat>, name: string, s: Snapshot) {
    || (name in b.latest && s.revision < b.latest[name].revision)
    || (name in revisions && s.revision <= revisions[name])
  }

  /** Refused by a cache, or with storage that cannot be used, a save changes nothing. */
  lemma {:induction false} SaveChangesNothing(
    b: Backend, revisions: map<string, nat>, name: string, s: Snapshot, readable: bool, writable: bool)
    requires Refused(b, revisions, name, s) || !readable || b.storage == Unrecognised
    ensures SaveCall(b, revisions, name, s, readable, writable) ==
            (if Refused(b, revisions, name, s) then Nonadvancing else Failed, b, revisions)
  {
  }

  lemma {:induction false} SoundIsDurable(storage: Storage, name: string)
    ensures name in SoundModels(storage) <==> Durable(storage, name).Some?
    ensures name in SoundModels(storage) ==> Durable(storage, name) == Some(SoundModels(storage)[name])
  {
  }

  /**
   Otherwise the caches take note of what is stored, and of this snapshot if it was
   written; it is not advanced exactly when what is stored is as new.
   */
  lemma {:induction false} SaveLeaves(
    b: Backend, revisions: map<string, nat>, name: string, s: Snapshot, writable: bool)
    requires !Refused(b, revisions, name, s) && b.storage != Unrecognised
    ensures var (outcome, c, cached) := SaveCall(b, revisions, name, s, true, writable);
            var durable := Durable(b.storage, name);
            && (outcome == Nonadvancing <==> durable.Some? && s.revision <= durable.value.revision)
            && (outcome == Saved <==> outcome != Nonadvancing && writable)
            && OthersKept(b, c, name)
            && (outcome != Saved ==> if durable.Some? then Remembers(b, c, name, durable.value) else c == b)
            && (outcome == Saved ==> WrittenAndKnown(b, c, name, s))
  {
    SoundIsDurable(b.storage, name);
    var models := SoundModels(b.storage);
    if name in models {
      RememberMeans(b, name, models[name]);
    }
    var known := RememberAny(b, name, models);
    var written := known.(storage := WriteModels(models[name := s]));
    RememberMeans(written, name, s);
    if !(name in models && s.revision <= models[name].revision) && writable {
      assert SaveCall(b, revisions, name, s, true, writable) ==
             (Saved, Remember(written, name, s), revisions[name := s.revision]);
      WriteIsKnown(b, known, Remember(written, name, s), name, s);
    }
  }

  lemma {:induction false} WriteIsKnown(b: Backend, known: Backend, c: Backend, name: string, s: Snapshot)
    requires !(name in b.latest && s.revision < b.latest[name].revision)
    requires known == b || exists stored: Snapshot :: stored.revision < s.revision && Remembers(b, known, name, stored)
    requires Remembers(known.(storage := c.storage), c, name, s)
    ensures WrittenAndKnown(b, c, name, s) && OthersKept(b, c, name)
  {
  }

  /** The caches after a save that wrote: this snapshot's revision is committed, and newest unless outranked. */
  ghost predicate WrittenAndKnown(b: Backend, c: Backend, name: string, s: Snapshot) {
    && name in c.latest && name in c.committed
    && c.committed[name] == (if name in b.committed && b.committed[name] > s.revision
                             then b.committed[name] else s.revision)
    && c.latest[name].revision == s.revision
    && (!(name in b.latest && b.latest[name].revision == s.revision) ==> c.latest[name] == s)
  }

  /** What a load returns and notes: the newest snapshot known once storage was read, and what is committed. */
  lemma {:induction false} LoadReturns(b: Backend, revisions: map<string, nat>, name: string, readable: bool)
    ensures var (result, c, cached) := LoadCall(b, revisions, name, readable);
            var durable := Durable(b.storage, name);
            && (if readable && durable.Some? then Remembers(b, c, name, durable.value) else c == b)
            && result == (if name in c.latest then Some(c.latest[name]) else None)
            && cached == (if name in c.latest && name in c.committed
                          then revisions[name := c.committed[name]] else revisions)
  {
    SoundIsDurable(b.storage, name);
    if Durable(b.storage, name).Some? {
      RememberMeans(b, name, Durable(b.storage, name).value);
    }
  }

  /** A snapshot that was staged is what a following load returns, if it is newer than all that was known. */
  lemma {:induction false} StagedIsLoaded(b: Backend, revisions: map<string, nat>, name: string, s: Snapshot)
    requires s.revision > DurableRevision(b, name) && s.revision > LatestRevision(b, name)
    ensures forall readable :: LoadCall(Stage(b, name, s), revisions, name, readable).0 == Some(s)
  {
  }

  // ---------------------------------------------------------------- objects

  class BackendState {
    var latest: map<string, Snapshot>
    var committed: map<string, nat>
    var storage: Storage

    constructor (storage: Storage)
      ensures View() == Backend(map[], map[], storage)
      ensures Agrees(View())
    {
      latest, committed, this.storage := map[], map[], storage;
    }

    function View(): Backend
      reads this
    {
      Backend(latest, committed, storage)
    }

    method RememberOwned(name: string, s: Snapshot)
      modifies this`latest, this`committed
      ensures View() == Remember(old(View()), name, s)
    {
      var newest, known := LatestRevision(View(), name), CommittedRevision(View(), name);
      if s.revision > newest || (s.revision == newest && known == s.revision) {
        latest := latest[name := s];
      }
      if s.revision > known {
        committed := committed[name := s.revision];
      }
    }
  }

  class ControllerModelStore {
    const backend: BackendState
    var revisions: map<string, nat>

    constructor (backend: BackendState)
      ensures this.backend == backend && revisions == map[]
    {
      this.backend, revisions := backend, map[];
    }

    ghost predicate Valid()
      reads this, backend
    {
      Agrees(backend.View()) && Behind(revisions, backend.View())
    }

    method StageOwned(name: string, value: Stored) returns (published: bool)
      requires Valid()
      modifies backend`latest
      ensures Valid() && Advances(old(backend.View()), backend.View())
      ensures published <==> value.Sound?
      ensures value.Sound? ==> Published(old(backend.View()), backend.View(), name, value.snapshot)
      ensures backend.View() == if value.Sound? then Stage(old(backend.View()), name, value.snapshot)
                                else old(backend.View())
    {
      if value.Malformed? {
        return false;
      }
      StageAgrees(backend.View(), name, value.snapshot);
      StagePublishes(backend.View(), name, value.snapshot);
      StillBehind(revisions, backend.View(), Stage(backend.View(), name, value.snapshot));
      if value.snapshot.revision > LatestRevision(backend.View(), name) {
        backend.latest := backend.latest[name := value.snapshot];
      }
      published := true;
    }

    method SaveOutcome(name: string, value: Stored, readable: bool, writable: bool) returns (outcome: SaveOutcome)
      requires Valid()
      modifies this`revisions, backend
      ensures Valid() && Advances(old(backend.View()), backend.View())
      ensures value.Malformed? ==> outcome == Failed && unchanged(this) && unchanged(backend)
      ensures value.Sound? ==>
                (outcome, backend.View(), revisions) ==
                SaveCall(old(backend.View()), old(revisions), name, value.snapshot, readable, writable)
    {
      if value.Malformed? {
        return Failed;
      }
      var s := value.snapshot;
      SaveAgrees(backend.View(), revisions, name, s, readable, writable);
      if s.revision < LatestRevision(backend.View(), name) {
        return Nonadvancing;
      }
      if s.revision <= CachedRevision(revisions, name) {
        return Nonadvancing;
      }
      var (models, safe) := ReadState(backend.storage, readable);
      if !safe {
        return Failed;
      }
      if name in models {
        backend.RememberOwned(name, models[name]);
        if s.revision <= models[name].revision {
          return Nonadvancing;
        }
      }
      if !writable {
        return Failed;
      }
      backend.storage := WriteModels(models[name := s]);
      revisions := revisions[name := s.revision];
      backend.RememberOwned(name, s);
      outcome := Saved;
    }

    method Load(name: string, readable: bool) returns (snapshot: Option<Snapshot>)
      requires Valid()
      modifies this`revisions, backend`latest, backend`committed
      ensures Valid() && Advances(old(backend.View()), backend.View())
      ensures (snapshot, backend.View(), revisions) == LoadCall(old(backend.View()), old(revisions), name, readable)
    {
      LoadAgrees(backend.View(), revisions, name, readable);
      var (models, _) := ReadState(backend.storage, readable);
      if name in models {
        backend.RememberOwned(name, models[name]);
      }
      if name !in backend.latest {
        return None;
      }
      if name in backend.committed {
        revisions := revisions[name := backend.committed[name]];
      }
      snapshot := Some(backend.latest[name]);
    }
  }
}
