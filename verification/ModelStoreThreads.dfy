/**
 The same calls with their lock-protected sections interleaved: a save holds
 the transaction lock throughout, while stagings and loads slip in between any
 two of its steps and between each other's.
 */
module ModelStoreThreads {
  import opened Wrappers
  import opened ModelStore

  /** Where a thread stands inside a call; the suspended values are its local variables. */
  datatype Pc =
    | Idle
    | SaveChecking(name: string, s: Snapshot)
    | SaveConsulting(name: string, s: Snapshot)
    | SaveReading(name: string, s: Snapshot)
    | SaveComparing(name: string, s: Snapshot, models: map<string, Snapshot>)
    | SaveWriting(name: string, s: Snapshot, models: map<string, Snapshot>)
    | SaveNoting(name: string, s: Snapshot)
    | SaveRemembering(name: string, s: Snapshot)
    | LoadReading(name: string)
    | LoadRemembering(name: string, persisted: Option<Snapshot>)
    | LoadPeeking(name: string)
    | LoadAsking(name: string)
    | LoadNoting(name: string, known: Option<nat>)
  {
    predicate IsSaving() {
      || SaveChecking? || SaveConsulting? || SaveReading? || SaveComparing?
      || SaveWriting? || SaveNoting? || SaveRemembering?
    }
  }

  datatype Thread = Thread(store: nat, pc: Pc)

  /** One revision that a load returned or a save reported as written, under its controller name. */
  datatype Entry = Entry(name: string, revision: nat)

  datatype World = World(
    backend: Backend,
    caches: seq<map<string, nat>>,
    threads: seq<Thread>,
    lock: Option<nat>,
    loaded: seq<Entry>,
    saved: seq<Entry>)

  datatype Call = CallStage(name: string, s: Snapshot) | CallSave(name: string, s: Snapshot) | CallLoad(name: string)

  /** A thread begins a call, or takes its next step; `io` says whether storage answers. */
  datatype Action = Begin(thread: nat, call: Call) | Advance(thread: nat, io: bool)

  predicate WellShaped(w: World) {
    && (forall i | 0 <= i < |w.threads| :: w.threads[i].store < |w.caches|)
    && (w.lock.Some? ==> w.lock.value < |w.threads|)
  }

  function MoveTo(w: World, i: nat, pc: Pc): World
    requires i < |w.threads|
  {
    w.(threads := w.threads[i := w.threads[i].(pc := pc)])
  }

  /** Leave the call; a save gives the transaction lock back. */
  function Return(w: World, i: nat): World
    requires i < |w.threads|
  {
    MoveTo(if w.threads[i].pc.IsSaving() then w.(lock := None) else w, i, Idle)
  }

  function Noted(cache: map<string, nat>, name: string, revision: nat): map<string, nat> {
    cache[name := revision]
  }

  function BeginCall(w: World, i: nat, call: Call): World
    requires i < |w.threads|
  {
    if !w.threads[i].pc.Idle? then w
    else
      match call
      case CallStage(name, s) => w.(backend := Stage(w.backend, name, s))
      case CallSave(name, s) => if w.lock.Some? then w else MoveTo(w.(lock := Some(i)), i, SaveChecking(name, s))
      case CallLoad(name) => MoveTo(w, i, LoadReading(name))
  }

  function StepThread(w: World, i: nat, io: bool): World
    requires WellShaped(w) && i < |w.threads|
  {
    var b, store := w.backend, w.threads[i].store;
    match w.threads[i].pc
    case Idle => w
    case SaveChecking(name, s) =>
      if s.revision < LatestRevision(b, name) then Return(w, i) else MoveTo(w, i, SaveConsulting(name, s))
    case SaveConsulting(name, s) =>
      if s.revision <= CachedRevision(w.caches[store], name) then Return(w, i) else MoveTo(w, i, SaveReading(name, s))
    case SaveReading(name, s) =>
      var (models, safe) := ReadState(b.storage, io);
      if safe then MoveTo(w, i, SaveComparing(name, s, models)) else Return(w, i)
    case SaveComparing(name, s, models) =>
      var next := w.(backend := RememberAny(b, name, models));
      if name in models && s.revision <= models[name].revision then Return(next, i)
      else MoveTo(next, i, SaveWriting(name, s, models))
    case SaveWriting(name, s, models) =>
      if !io then Return(w, i)
      else
        MoveTo(w.(backend := b.(storage := WriteModels(models[name := s])),
               saved := w.saved + [Entry(name, s.revision)]), i, SaveNoting(name, s))
    case SaveNoting(name, s) =>
      MoveTo(w.(caches := w.caches[store := Noted(w.caches[store], name, s.revision)]), i, SaveRemembering(name, s))
    case SaveRemembering(name, s) => Return(w.(backend := Remember(b, name, s)), i)
    case LoadReading(name) =>
      var models := ReadState(b.storage, io).0;
      MoveTo(w, i, LoadRemembering(name, if name in models then Some(models[name]) else None))
    case LoadRemembering(name, persisted) =>
      MoveTo(if persisted.Some? then w.(backend := Remember(b, name, persisted.value)) else w, i, LoadPeeking(name))
    case LoadPeeking(name) =>
      if name !in b.latest then Return(w, i)
      else MoveTo(w.(loaded := w.loaded + [Entry(name, b.latest[name].revision)]), i, LoadAsking(name))
    case LoadAsking(name) =>
      MoveTo(w, i, LoadNoting(name, if name in b.committed then Some(b.committed[name]) else None))
    case LoadNoting(name, known) =>
      Return(if known.Some? then w.(caches := w.caches[store := Noted(w.caches[store], name, known.value)]) else w, i)
  }

  function Act(w: World, a: Action): World
    requires WellShaped(w)
  {
    if a.thread >= |w.threads| then w
    else
      match a
      case Begin(i, call) => BeginCall(w, i, call)
      case Advance(i, io) => StepThread(w, i, io)
  }

  /** A staging by an idle thread is one step: the snapshot is published unless one as new already is. */
  lemma {:induction false} StagingPublishes(w: World, i: nat, name: string, s: Snapshot)
    requires WellShaped(w) && i < |w.threads| && w.threads[i].pc.Idle?
    ensures var v := Act(w, Begin(i, CallStage(name, s)));
            && Published(w.backend, v.backend, name, s) && v == w.(backend := v.backend)
            && name in v.backend.latest && v.backend.latest[name].revision >= s.revision
  {
    StagePublishes(w.backend, name, s);
  }

  // ---------------------------------------------------------------- the invariant

  /** What the local variables of a suspended call still say about storage. */
  ghost predicate Local(b: Backend, pc: Pc) {
    match pc
    case SaveComparing(_, _, models) => models == SoundModels(b.storage) && !b.storage.Unrecognised?
    case SaveWriting(name, s, models) => models == SoundModels(b.storage) && s.revision > DurableRevision(b, name)
    case SaveNoting(name, s) => s.revision <= DurableRevision(b, name)
    case SaveRemembering(name, s) => s.revision <= DurableRevision(b, name)
    case LoadRemembering(name, persisted) => persisted.Some? ==> persisted.value.revision <= DurableRevision(b, name)
    case LoadNoting(name, known) => known.Some? ==> known.value <= DurableRevision(b, name)
    case _ => true
  }

  /** A log of revisions that never goes back (or strictly rises) per controller, and stays below a bound. */
  ghost predicate Rising(log: seq<Entry>, strict: bool) {
    forall i, j | 0 <= i < j < |log| && log[i].name == log[j].name ::
      log[i].revision <= log[j].revision && (strict ==> log[i].revision < log[j].revision)
  }

  ghost predicate Inv(w: World) {
    && WellShaped(w)
    && Agrees(w.backend)
    && (forall s | 0 <= s < |w.caches| :: Behind(w.caches[s], w.backend))
    && (forall i | 0 <= i < |w.threads| :: Local(w.backend, w.threads[i].pc))
    && (forall i | 0 <= i < |w.threads| :: w.threads[i].pc.IsSaving() ==> w.lock == Some(i))
    && Rising(w.loaded, false) && Rising(w.saved, true)
    && (forall i | 0 <= i < |w.loaded| :: w.loaded[i].revision <= LatestRevision(w.backend, w.loaded[i].name))
    && (forall i | 0 <= i < |w.saved| :: w.saved[i].revision <= DurableRevision(w.backend, w.saved[i].name))
  }

  lemma {:induction false} LocalSurvives(b: Backend, c: Backend, pc: Pc)
    requires Local(b, pc) && Advances(b, c) && (pc.IsSaving() ==> c.storage == b.storage)
    ensures Local(c, pc)
  {
    match pc
    case SaveNoting(name, s) => assert DurableRevision(b, name) <= DurableRevision(c, name);
    case SaveRemembering(name, s) => assert DurableRevision(b, name) <= DurableRevision(c, name);
    case LoadRemembering(name, _) => assert DurableRevision(b, name) <= DurableRevision(c, name);
    case LoadNoting(name, _) => assert DurableRevision(b, name) <= DurableRevision(c, name);
    case _ =>
  }

  /** Replacing the backend by one that advances keeps everything the invariant says about the rest of the world. */
  lemma {:induction false} BackendMoves(w: World, i: nat, c: Backend, pc: Pc)
    requires Inv(w) && i < |w.threads| && Agrees(c) && Advances(w.backend, c) && Local(c, pc)
    requires c.storage == w.backend.storage || w.lock == Some(i)
    requires pc.IsSaving() ==> w.lock == Some(i)
    ensures Inv(MoveTo(w.(backend := c), i, pc))
  {
    var v := MoveTo(w.(backend := c), i, pc);
    forall s | 0 <= s < |w.caches| ensures Behind(w.caches[s], c) {
      StillBehind(w.caches[s], w.backend, c);
    }
    forall j | 0 <= j < |w.threads| ensures Local(c, v.threads[j].pc) {
      if j != i {
        LocalSurvives(w.backend, c, w.threads[j].pc);
      }
    }
    forall k | 0 <= k < |w.loaded| ensures w.loaded[k].revision <= LatestRevision(c, w.loaded[k].name) {
      assert LatestRevision(w.backend, w.loaded[k].name) <= LatestRevision(c, w.loaded[k].name);
    }
    forall k | 0 <= k < |w.saved| ensures w.saved[k].revision <= DurableRevision(c, w.saved[k].name) {
      assert DurableRevision(w.backend, w.saved[k].name) <= DurableRevision(c, w.saved[k].name);
    }
  }

  lemma {:induction false} CacheMoves(w: World, i: nat, name: string, revision: nat, pc: Pc)
    requires Inv(w) && i < |w.threads| && revision <= DurableRevision(w.backend, name) && Local(w.backend, pc)
    requires pc.IsSaving() ==> w.lock == Some(i)
    ensures var store := w.threads[i].store;
            Inv(MoveTo(w.(caches := w.caches[store := Noted(w.caches[store], name, revision)]), i, pc))
  {
    var store := w.threads[i].store;
    var cache := Noted(w.caches[store], name, revision);
    forall other ensures CachedRevision(cache, other) <= DurableRevision(w.backend, other) {
      assert CachedRevision(w.caches[store], other) <= DurableRevision(w.backend, other);
    }
  }

  ghost predicate NeverBack(w: World, v: World) {
    && Advances(w.backend, v.backend)
    && |w.caches| == |v.caches| && |w.threads| == |v.threads|
    && w.loaded <= v.loaded && w.saved <= v.saved
  }

  /** A step that only moves on, or leaves, with the backend as it is. */
  lemma {:induction false} PcMoves(w: World, i: nat, pc: Pc)
    requires Inv(w) && i < |w.threads| && Local(w.backend, pc)
    requires pc.IsSaving() ==> w.lock == Some(i)
    ensures Inv(MoveTo(w, i, pc)) && NeverBack(w, MoveTo(w, i, pc))
    ensures Inv(Return(w, i)) && NeverBack(w, Return(w, i))
  {
    assert Advances(w.backend, w.backend);
  }

  /** A step after which the backend is another one that agrees, and the thread moves on or leaves. */
  lemma {:induction false} BackendSteps(w: World, i: nat, c: Backend, pc: Pc)
    requires Inv(w) && i < |w.threads| && Agrees(c) && Advances(w.backend, c) && c.storage == w.backend.storage
    requires Local(c, pc) && (pc.IsSaving() ==> w.lock == Some(i))
    ensures Inv(MoveTo(w.(backend := c), i, pc)) && NeverBack(w, MoveTo(w.(backend := c), i, pc))
    ensures Inv(Return(w.(backend := c), i)) && NeverBack(w, Return(w.(backend := c), i))
  {
    var here := w.threads[i].pc;
    assert Local(w.backend, here);
    LocalSurvives(w.backend, c, here);
    BackendMoves(w, i, c, pc);
    BackendMoves(w, i, c, here);
    assert MoveTo(w.(backend := c), i, here) == w.(backend := c);
    PcMoves(w.(backend := c), i, here);
  }

  lemma {:induction false} CheckingKeepsInv(w: World, i: nat, io: bool)
    requires Inv(w) && i < |w.threads|
    requires w.threads[i].pc.SaveChecking? || w.threads[i].pc.SaveConsulting? || w.threads[i].pc.SaveReading?
    ensures Inv(StepThread(w, i, io)) && NeverBack(w, StepThread(w, i, io))
  {
    match w.threads[i].pc
    case SaveChecking(name, s) => PcMoves(w, i, SaveConsulting(name, s));
    case SaveConsulting(name, s) => PcMoves(w, i, SaveReading(name, s));
    case SaveReading(name, s) =>
      var (models, safe) := ReadState(w.backend.storage, io);
      PcMoves(w, i, if safe then SaveComparing(name, s, models) else Idle);
  }

  lemma {:induction false} ComparingKeepsInv(w: World, i: nat, io: bool)
    requires Inv(w) && i < |w.threads| && w.threads[i].pc.SaveComparing?
    ensures Inv(StepThread(w, i, io)) && NeverBack(w, StepThread(w, i, io))
  {
    var b := w.backend;
    var name, s, models := w.threads[i].pc.name, w.threads[i].pc.s, w.threads[i].pc.models;
    assert Local(b, w.threads[i].pc);
    RememberAnyAgrees(b, name, true);
    var c := RememberAny(b, name, models);
    if name in models && s.revision <= models[name].revision {
      BackendSteps(w, i, c, Idle);
    } else {
      assert DurableRevision(c, name) == DurableRevision(b, name);
      BackendSteps(w, i, c, SaveWriting(name, s, models));
    }
  }

  lemma {:induction false} WritingKeepsInv(w: World, i: nat, io: bool)
    requires Inv(w) && i < |w.threads| && w.threads[i].pc.SaveWriting?
    ensures Inv(StepThread(w, i, io)) && NeverBack(w, StepThread(w, i, io))
  {
    var name, s, models := w.threads[i].pc.name, w.threads[i].pc.s, w.threads[i].pc.models;
    assert Local(w.backend, w.threads[i].pc);
    if io {
      var c := w.backend.(storage := WriteModels(models[name := s]));
      WriteAdvances(w.backend, name, s, models);
      BackendMoves(w, i, c, SaveNoting(name, s));
      LogSaved(MoveTo(w.(backend := c), i, SaveNoting(name, s)), w, name, s.revision);
    } else {
      PcMoves(w, i, Idle);
    }
  }

  /** A revision above everything stored so far extends the log of saved revisions. */
  lemma {:induction false} LogSaved(v: World, w: World, name: string, revision: nat)
    requires Inv(v) && Inv(w) && v.saved == w.saved
    requires DurableRevision(w.backend, name) < revision <= DurableRevision(v.backend, name)
    ensures Inv(v.(saved := v.saved + [Entry(name, revision)]))
  {
    forall k | 0 <= k < |w.saved| && w.saved[k].name == name ensures w.saved[k].revision < revision {
    }
  }

  lemma {:induction false} LoadingKeepsInv(w: World, i: nat, io: bool)
    requires Inv(w) && i < |w.threads| && !w.threads[i].pc.IsSaving()
    ensures Inv(StepThread(w, i, io)) && NeverBack(w, StepThread(w, i, io))
  {
    var b := w.backend;
    assert Local(b, w.threads[i].pc);
    match w.threads[i].pc
    case Idle => assert Advances(b, b);
    case LoadReading(name) =>
      var models := ReadState(b.storage, io).0;
      PcMoves(w, i, LoadRemembering(name, if name in models then Some(models[name]) else None));
    case LoadRemembering(_, _) => RememberingKeepsInv(w, i, io);
    case LoadPeeking(_) => PeekingKeepsInv(w, i, io);
    case LoadAsking(name) =>
      assert CommittedRevision(b, name) <= DurableRevision(b, name);
      PcMoves(w, i, LoadNoting(name, if name in b.committed then Some(b.committed[name]) else None));
    case LoadNoting(name, known) =>
      PcMoves(w, i, Idle);
      if known.Some? {
        CacheMoves(w, i, name, known.value, Idle);
      }
  }

  lemma {:induction false} RememberingKeepsInv(w: World, i: nat, io: bool)
    requires Inv(w) && i < |w.threads| && w.threads[i].pc.LoadRemembering?
    ensures Inv(StepThread(w, i, io)) && NeverBack(w, StepThread(w, i, io))
  {
    var b, name, persisted := w.backend, w.threads[i].pc.name, w.threads[i].pc.persisted;
    assert Local(b, w.threads[i].pc);
    if persisted.Some? {
      RememberAgrees(b, name, persisted.value);
      BackendSteps(w, i, Remember(b, name, persisted.value), LoadPeeking(name));
    } else {
      PcMoves(w, i, LoadPeeking(name));
    }
  }

  /** A loaded revision is the newest one, so it extends the log without going back. */
  lemma {:induction false} PeekingKeepsInv(w: World, i: nat, io: bool)
    requires Inv(w) && i < |w.threads| && w.threads[i].pc.LoadPeeking?
    ensures Inv(StepThread(w, i, io)) && NeverBack(w, StepThread(w, i, io))
  {
    PcMoves(w, i, LoadAsking(w.threads[i].pc.name));
  }

  /** Every step of every thread keeps the invariant, and no revision anywhere goes back. */
  lemma {:induction false} StepKeepsInv(w: World, i: nat, io: bool)
    requires Inv(w) && i < |w.threads|
    ensures Inv(StepThread(w, i, io)) && NeverBack(w, StepThread(w, i, io))
  {
    assert Local(w.backend, w.threads[i].pc);
    match w.threads[i].pc
    case SaveChecking(_, _) => CheckingKeepsInv(w, i, io);
    case SaveConsulting(_, _) => CheckingKeepsInv(w, i, io);
    case SaveReading(_, _) => CheckingKeepsInv(w, i, io);
    case SaveComparing(_, _, _) => ComparingKeepsInv(w, i, io);
    case SaveWriting(_, _, _) => WritingKeepsInv(w, i, io);
    case SaveNoting(name, s) =>
      PcMoves(w, i, SaveRemembering(name, s));
      CacheMoves(w, i, name, s.revision, SaveRemembering(name, s));
    case SaveRemembering(name, s) =>
      RememberAgrees(w.backend, name, s);
      BackendSteps(w, i, Remember(w.backend, name, s), Idle);
    case _ => LoadingKeepsInv(w, i, io);
  }

  lemma {:induction false} ActKeepsInv(w: World, a: Action)
    requires Inv(w)
    ensures Inv(Act(w, a)) && NeverBack(w, Act(w, a))
  {
    if a.thread < |w.threads| {
      match a
      case Begin(i, call) =>
        if call.CallStage? {
          StageAgrees(w.backend, call.name, call.s);
          BackendMoves(w, i, Stage(w.backend, call.name, call.s), w.threads[i].pc);
          assert MoveTo(w.(backend := Stage(w.backend, call.name, call.s)), i, w.threads[i].pc) ==
                 w.(backend := Stage(w.backend, call.name, call.s));
        }
      case Advance(i, io) => StepKeepsInv(w, i, io);
    }
  }

  function Run(w: World, actions: seq<Action>): World
    requires WellShaped(w)
    decreases |actions|
  {
    if actions == [] then w
    else
      var next := Act(w, actions[0]);
      if WellShaped(next) then Run(next, actions[1..]) else next
  }

  /** Any number of fresh stores and idle threads over whatever storage the process finds. */
  function Initial(storage: Storage, threads: seq<nat>, stores: nat): World {
    World(Backend(map[], map[], storage),
          seq(stores, _ => map[]),
          seq(|threads|, i requires 0 <= i < |threads| => Thread(threads[i], Idle)),
          None, [], [])
  }

  lemma {:induction false} RunKeepsInv(w: World, actions: seq<Action>)
    requires Inv(w)
    ensures Inv(Run(w, actions)) && NeverBack(w, Run(w, actions))
    decreases |actions|
  {
    if actions != [] {
      ActKeepsInv(w, actions[0]);
      var next := Act(w, actions[0]);
      RunKeepsInv(next, actions[1..]);
      AdvancesTransitive(w.backend, next.backend, Run(w, actions).backend);
    }
  }

  /**
   Over every interleaving of stagings, saves and loads: revisions reported as
   saved strictly rise per controller, loaded revisions never go back, and at
   every moment each store's cache and the committed cache lie at or below the
   durable revision, the committed one also at or below the latest.
   */
  lemma {:induction false} EveryInterleavingAgrees(
    storage: Storage, threads: seq<nat>, stores: nat, actions: seq<Action>)
    requires forall i | 0 <= i < |threads| :: threads[i] < stores
    ensures var w := Run(Initial(storage, threads, stores), actions);
            && Rising(w.saved, true) && Rising(w.loaded, false)
            && Agrees(w.backend)
            && (forall s | 0 <= s < |w.caches| :: Behind(w.caches[s], w.backend))
  {
    RunKeepsInv(Initial(storage, threads, stores), actions);
  }

  /** At any moment of any run, a refusal by a store's own cache is one the durable record would repeat. */
  lemma {:induction false} RefusalAgreesWithStorage(w: World, i: nat, io: bool)
    requires Inv(w) && i < |w.threads| && w.threads[i].pc.SaveConsulting?
    ensures var pc := w.threads[i].pc;
            StepThread(w, i, io).threads[i].pc.Idle? ==> pc.s.revision <= DurableRevision(w.backend, pc.name)
  {
    assert Behind(w.caches[w.threads[i].store], w.backend);
  }

  /** Only a save that has the lock changes storage, and then only the member it names. */
  lemma {:induction false} WritesKeepTheRest(w: World, a: Action)
    requires Inv(w)
    ensures var before, after := SoundModels(w.backend.storage), SoundModels(Act(w, a).backend.storage);
            after == before ||
            (a.thread < |w.threads| && w.threads[a.thread].pc.SaveWriting? &&
             after == before[w.threads[a.thread].pc.name := w.threads[a.thread].pc.s])
  {
    if a.thread < |w.threads| && w.threads[a.thread].pc.SaveWriting? {
      var pc := w.threads[a.thread].pc;
      WriteAdvances(w.backend, pc.name, pc.s, pc.models);
    }
  }

  // ---------------------------------------------------------------- undisturbed calls

  /** A thread alone at work, storage answering each step as given. */
  function Alone(w: World, i: nat, io: seq<bool>): World
    requires WellShaped(w) && i < |w.threads|
    decreases |io|
  {
    if io == [] then w
    else
      var next := StepThread(w, i, io[0]);
      if WellShaped(next) && i < |next.threads| then Alone(next, i, io[1..]) else next
  }

  lemma {:induction false} AloneStep(w: World, i: nat, io: seq<bool>)
    requires Inv(w) && i < |w.threads| && io != []
    ensures Inv(StepThread(w, i, io[0])) && |StepThread(w, i, io[0]).threads| == |w.threads|
    ensures Alone(w, i, io) == Alone(StepThread(w, i, io[0]), i, io[1..])
  {
    StepKeepsInv(w, i, io[0]);
  }

  lemma {:induction false} LoadReadsAndRemembers(w: World, i: nat, name: string, readable: bool)
    requires Inv(w) && i < |w.threads| && w.threads[i].pc.Idle?
    ensures var w0 := BeginCall(w, i, CallLoad(name));
            && Inv(w0) && Inv(StepThread(w0, i, readable)) && i < |StepThread(w0, i, readable).threads|
            && var known := RememberAny(w.backend, name, ReadState(w.backend.storage, readable).0);
            StepThread(StepThread(w0, i, readable), i, true) == MoveTo(w.(backend := known), i, LoadPeeking(name))
  {
    ActKeepsInv(w, Begin(i, CallLoad(name)));
    var w0 := BeginCall(w, i, CallLoad(name));
    StepKeepsInv(w0, i, readable);
    var models := ReadState(w.backend.storage, readable).0;
    var persisted := if name in models then Some(models[name]) else None;
    assert StepThread(w0, i, readable) == MoveTo(w, i, LoadRemembering(name, persisted));
  }

  /** The last two steps of a load: ask for the committed revision, then note it in the store's own cache. */
  lemma {:induction false} LoadNotes(w: World, i: nat, name: string)
    requires Inv(w) && i < |w.threads| && w.threads[i].pc == LoadAsking(name)
    ensures var v := Alone(w, i, [true, true]);
            var cache := w.caches[w.threads[i].store];
            && v.backend == w.backend && v.loaded == w.loaded && v.threads == MoveTo(w, i, Idle).threads
            && v.caches == w.caches[w.threads[i].store :=
                                    if name in w.backend.committed
                                    then Noted(cache, name, w.backend.committed[name]) else cache]
  {
    AloneStep(w, i, [true, true]);
    assert [true, true][1..] == [true];
    var known := if name in w.backend.committed then Some(w.backend.committed[name]) else None;
    var w1 := MoveTo(w, i, LoadNoting(name, known));
    assert StepThread(w, i, true) == w1;
    AloneStep(w1, i, [true]);
    assert Alone(StepThread(w1, i, true), i, []) == StepThread(w1, i, true);
    MoveTwice(w, i, LoadNoting(name, known), Idle);
  }

  /** The last three steps of a load. */
  lemma {:induction false} LoadPeeksAndNotes(w: World, i: nat, name: string)
    requires Inv(w) && i < |w.threads| && w.threads[i].pc == LoadPeeking(name)
    ensures var v := Alone(w, i, [true, true, true]);
            var cache := w.caches[w.threads[i].store];
            && v.backend == w.backend && v.threads == MoveTo(w, i, Idle).threads
            && (name !in w.backend.latest ==> v.caches == w.caches && v.loaded == w.loaded)
            && (name in w.backend.latest ==>
                  v.loaded == w.loaded + [Entry(name, w.backend.latest[name].revision)] &&
                  v.caches == w.caches[w.threads[i].store :=
                                       if name in w.backend.committed
                                       then Noted(cache, name, w.backend.committed[name]) else cache])
  {
    AloneStep(w, i, [true, true, true]);
    assert [true, true, true][1..] == [true, true];
    var w1 := StepThread(w, i, true);
    if name !in w.backend.latest {
      AloneIdle(w1, i, [true, true]);
    } else {
      var seen := w.(loaded := w.loaded + [Entry(name, w.backend.latest[name].revision)]);
      assert w1 == MoveTo(seen, i, LoadAsking(name));
      LoadNotes(w1, i, name);
      MoveTwice(seen, i, LoadAsking(name), Idle);
    }
  }

  /** A load that nobody disturbs is the load of the sequential specification. */
  lemma {:induction false} UndisturbedLoad(w: World, i: nat, name: string, readable: bool)
    requires Inv(w) && i < |w.threads| && w.threads[i].pc.Idle?
    ensures var v := Alone(BeginCall(w, i, CallLoad(name)), i, [readable, true, true, true, true]);
            var (result, c, cached) := LoadCall(w.backend, w.caches[w.threads[i].store], name, readable);
            && v.backend == c && v.caches == w.caches[w.threads[i].store := cached]
            && v.threads == w.threads
            && v.loaded == w.loaded + if result.Some? then [Entry(name, result.value.revision)] else []
  {
    LoadReadsAndRemembers(w, i, name, readable);
    var w0 := BeginCall(w, i, CallLoad(name));
    AloneStep(w0, i, [readable, true, true, true, true]);
    var w1 := StepThread(w0, i, readable);
    AloneStep(w1, i, [true, true, true, true]);
    LoadPeeksAndNotes(StepThread(w1, i, true), i, name);
  }

  lemma {:induction false} AloneIdle(w: World, i: nat, io: seq<bool>)
    requires Inv(w) && i < |w.threads| && w.threads[i].pc.Idle?
    ensures Alone(w, i, io) == w
    decreases |io|
  {
    if io != [] {
      AloneIdle(w, i, io[1..]);
    }
  }

  lemma {:induction false} MoveTwice(w: World, i: nat, a: Pc, b: Pc)
    requires i < |w.threads|
    ensures MoveTo(MoveTo(w, i, a), i, b) == MoveTo(w, i, b)
    ensures a.IsSaving() == w.threads[i].pc.IsSaving() ==> Return(MoveTo(w, i, a), i) == Return(w, i)
  {
    var t := w.threads;
    assert t[i := t[i].(pc := a)][i := t[i].(pc := a).(pc := b)] == t[i := t[i].(pc := b)];
    assert t[i := t[i].(pc := a)][i := t[i].(pc := a).(pc := Idle)] == t[i := t[i].(pc := Idle)];
  }

  /** A thread that has left its call stays where it is. */
  lemma {:induction false} AloneLeaves(w: World, i: nat, io: seq<bool>, rest: seq<bool>)
    requires Inv(w) && i < |w.threads|
    ensures Inv(Return(w, i)) && Alone(Return(w, i), i, io) == Alone(Return(w, i), i, rest)
  {
    PcMoves(w, i, Idle);
    AloneIdle(Return(w, i), i, io);
    AloneIdle(Return(w, i), i, rest);
  }

  lemma {:induction false} SaveReads(w: World, i: nat, name: string, s: Snapshot, readable: bool, rest: seq<bool>)
    requires Inv(w) && i < |w.threads| && w.threads[i].pc == SaveReading(name, s)
    ensures var (models, safe) := ReadState(w.backend.storage, readable);
            var next := if safe then MoveTo(w, i, SaveComparing(name, s, models)) else Return(w, i);
            Inv(next) && Alone(w, i, [readable] + rest) == Alone(next, i, rest)
  {
    assert ([readable] + rest)[1..] == rest;
    AloneStep(w, i, [readable] + rest);
  }

  lemma {:induction false} SaveConsults(w: World, i: nat, name: string, s: Snapshot, io: seq<bool>)
    requires Inv(w) && i < |w.threads| && w.threads[i].pc == SaveConsulting(name, s)
    ensures var next := if s.revision <= CachedRevision(w.caches[w.threads[i].store], name) then Return(w, i)
                        else MoveTo(w, i, SaveReading(name, s));
            Inv(next) && Alone(w, i, [true] + io) == Alone(next, i, io)
  {
    assert ([true] + io)[1..] == io;
    AloneStep(w, i, [true] + io);
  }

  /** The three looks before anything is changed: newest snapshot, own cache, storage. */
  lemma {:induction false} SaveChecks(w: World, i: nat, name: string, s: Snapshot, readable: bool, rest: seq<bool>)
    requires Inv(w) && i < |w.threads| && w.threads[i].pc == SaveChecking(name, s)
    ensures var (models, safe) := ReadState(w.backend.storage, readable);
            var refused := s.revision < LatestRevision(w.backend, name) ||
                           s.revision <= CachedRevision(w.caches[w.threads[i].store], name) || !safe;
            var next := if refused then Return(w, i) else MoveTo(w, i, SaveComparing(name, s, models));
            Inv(next) && Alone(w, i, [true] + ([true] + ([readable] + rest))) == Alone(next, i, rest)
  {
    var last := [readable] + rest;
    var middle := [true] + last;
    assert ([true] + middle)[1..] == middle;
    AloneStep(w, i, [true] + middle);
    AloneLeaves(w, i, middle, rest);
    AloneLeaves(w, i, last, rest);
    if s.revision >= LatestRevision(w.backend, name) {
      var consulting := MoveTo(w, i, SaveConsulting(name, s));
      SaveConsults(consulting, i, name, s, last);
      MoveTwice(w, i, SaveConsulting(name, s), SaveReading(name, s));
      if s.revision > CachedRevision(w.caches[w.threads[i].store], name) {
        SaveReads(MoveTo(w, i, SaveReading(name, s)), i, name, s, readable, rest);
        MoveTwice(w, i, SaveReading(name, s), SaveComparing(name, s, ReadState(w.backend.storage, readable).0));
      }
    }
  }

  /** After a successful write: note the revision, remember the snapshot, return. */
  lemma {:induction false} SaveFinishes(w: World, i: nat, name: string, s: Snapshot)
    requires Inv(w) && i < |w.threads| && w.threads[i].pc == SaveNoting(name, s)
    ensures var store := w.threads[i].store;
            Alone(w, i, [true, true]) ==
            Return(w.(backend := Remember(w.backend, name, s),
                   caches := w.caches[store := Noted(w.caches[store], name, s.revision)]), i)
  {
    AloneStep(w, i, [true, true]);
    var w1 := StepThread(w, i, true);
    AloneStep(w1, i, [true]);
    assert Alone(StepThread(w1, i, true), i, []) == StepThread(w1, i, true);
    assert StepThread(w1, i, true).threads == w.threads[i := w.threads[i].(pc := Idle)];
  }

  /** Comparing with storage, writing and finishing. */
  lemma {:induction false} SaveWrites(
    w: World, i: nat, name: string, s: Snapshot, models: map<string, Snapshot>, writable: bool)
    requires Inv(w) && i < |w.threads| && w.threads[i].pc == SaveComparing(name, s, models)
    ensures var known, store := RememberAny(w.backend, name, models), w.threads[i].store;
            Alone(w, i, [true, writable, true, true]) ==
            if (name in models && s.revision <= models[name].revision) || !writable
            then Return(w.(backend := known), i)
            else Return(w.(backend := Remember(known.(storage := WriteModels(models[name := s])), name, s),
                        caches := w.caches[store := Noted(w.caches[store], name, s.revision)],
                        saved := w.saved + [Entry(name, s.revision)]), i)
  {
    var known := RememberAny(w.backend, name, models);
    var remembered := w.(backend := known);
    AloneStep(w, i, [true, writable, true, true]);
    assert [true, writable, true, true][1..] == [writable, true, true];
    var w1 := StepThread(w, i, true);
    if name in models && s.revision <= models[name].revision {
      AloneIdle(w1, i, [writable, true, true]);
    } else {
      assert w1 == MoveTo(remembered, i, SaveWriting(name, s, models));
      AloneStep(w1, i, [writable, true, true]);
      assert [writable, true, true][1..] == [true, true];
      MoveTwice(remembered, i, SaveWriting(name, s, models), SaveNoting(name, s));
      var w2 := StepThread(w1, i, writable);
      if !writable {
        AloneIdle(w2, i, [true, true]);
      } else {
        var written := remembered.(backend := known.(storage := WriteModels(models[name := s])),
                       saved := w.saved + [Entry(name, s.revision)]);
        assert w2 == MoveTo(written, i, SaveNoting(name, s)) by {
          MoveTwice(written, i, SaveWriting(name, s, models), SaveNoting(name, s));
        }
        SaveFinishes(w2, i, name, s);
        var store := w.threads[i].store;
        var finished := written.(backend := Remember(written.backend, name, s),
                        caches := w.caches[store := Noted(w.caches[store], name, s.revision)]);
        MoveTwice(finished, i, SaveNoting(name, s), Idle);
      }
    }
  }

  /** A save has the lock and has looked at everything: its remaining steps, when none of the looks refuses. */
  lemma {:induction false} AcceptedSave(
    w: World, i: nat, name: string, s: Snapshot, models: map<string, Snapshot>, writable: bool)
    requires i < |w.threads| && w.threads[i].pc.Idle? && w.lock.None?
    requires var w0 := BeginCall(w, i, CallSave(name, s)); Inv(MoveTo(w0, i, SaveComparing(name, s, models)))
    ensures var known, store := RememberAny(w.backend, name, models), w.threads[i].store;
            var w0 := BeginCall(w, i, CallSave(name, s));
            Alone(MoveTo(w0, i, SaveComparing(name, s, models)), i, [true, writable, true, true]) ==
            if (name in models && s.revision <= models[name].revision) || !writable
            then w.(backend := known)
            else w.(backend := Remember(known.(storage := WriteModels(models[name := s])), name, s),
                    caches := w.caches[store := Noted(w.caches[store], name, s.revision)],
                    saved := w.saved + [Entry(name, s.revision)])
  {
    var next := MoveTo(BeginCall(w, i, CallSave(name, s)), i, SaveComparing(name, s, models));
    SaveWrites(next, i, name, s, models, writable);
    assert next.threads[i := next.threads[i].(pc := Idle)] == w.threads;
  }

  /** A save that one of its looks refuses leaves the world as it was. */
  lemma {:induction false} RefusedSave(w: World, i: nat, name: string, s: Snapshot, io: seq<bool>)
    requires i < |w.threads| && w.threads[i].pc.Idle? && w.lock.None?
    requires Inv(w)
    ensures var w0 := BeginCall(w, i, CallSave(name, s));
            Return(w0, i) == w && Alone(Return(w0, i), i, io) == w
  {
    var w0 := BeginCall(w, i, CallSave(name, s));
    assert Return(w0, i).threads == w.threads;
    AloneIdle(w, i, io);
  }

  /** A save that nobody disturbs is the save of the sequential specification. */
  lemma {:induction false} UndisturbedSave(w: World, i: nat, name: string, s: Snapshot, readable: bool, writable: bool)
    requires Inv(w) && i < |w.threads| && w.threads[i].pc.Idle? && w.lock.None?
    ensures var v := Alone(BeginCall(w, i, CallSave(name, s)), i,
                           [true] + ([true] + ([readable] + [true, writable, true, true])));
            var store := w.threads[i].store;
            var (outcome, c, cached) := SaveCall(w.backend, w.caches[store], name, s, readable, writable);
            && v.backend == c && v.caches == w.caches[store := cached]
            && v.threads == w.threads && v.lock.None?
            && v.saved == w.saved + if outcome.Saved? then [Entry(name, s.revision)] else []
  {
    ActKeepsInv(w, Begin(i, CallSave(name, s)));
    var w0 := BeginCall(w, i, CallSave(name, s));
    SaveChecks(w0, i, name, s, readable, [true, writable, true, true]);
    var (models, safe) := ReadState(w.backend.storage, readable);
    RefusedSave(w, i, name, s, [true, writable, true, true]);
    if s.revision >= LatestRevision(w.backend, name) &&
       s.revision > CachedRevision(w.caches[w.threads[i].store], name) && safe {
      AcceptedSave(w, i, name, s, models, writable);
    }
  }
}
