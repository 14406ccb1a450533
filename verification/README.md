# PiFire controller core: a verified model

PiFire runs a pellet grill. This project models the parts of it whose
correctness does not rest on hardware, and proves what they are for:

- **Timers, TimerRuns, ClockDomain, TimerProjection** — a duration timer that only
  monotonic time inside one boot and one runtime generation may consume. Whole
  runs are proved to refine a stopwatch that keeps nothing but a list of credited
  time spans.
- **JsonValues, JsonTrees, UuidTexts, ControlDeltas, ControlEnvelopes, ControlSpelling,
  ControlEffects, ControlFootprints, ControlWriters, ControlOrder, ControlTurns, ControlMeanings,
  ControlFailures, ControlDrain, CalibrationRegister, CalibrationPrediction** — queued control writes: building,
  decoding, the three phases `set`, `ops` and `delete` applied in place to the live
  dictionary, the exact footprint of a write, commutation of writers whose footprints
  do not meet, what raises and what it leaves behind, the drain of the queue, and the
  calibration register that many writers share, with the prediction handlers make of it.
- **SettingsDeltas, SettingsEnvelopes** — the settings write with atomic subtrees, against a reference
  merge that knows nothing of the order in which the original visits them.
- **ModelStore, ModelStoreThreads** — the learned-model store: its calls as methods
  over three cached views, and the same calls cut into their lock-protected steps
  and interleaved arbitrarily.
- **FrozenJson, TrajectorySegments, SegmentValidation** — canonical frozen JSON, the one canonical
  run-length encoding of an audit, and segments that tile time.
- **AnswerQueue** — the queue all system-command answers share, with any number of
  consumers popping past each other's entries.
- **InstallLog** — incremental reads of a growing log and the client that follows them.
- **SchemaMigrations** — the version number, the registry and the frame-table rebuilds
  of the schema bootstrap.
- **Texts, BoardConfig, BoardConfigWrite, BoardConfigSettles, BoardConfigRuns, BoardConfigGlued,
  BoardConfigMeanings** — parsing and printing lines of `config.txt`, and what re-running a write does to the file.

Objects whose fields the original updates are classes here; each of their methods
is proved equal to a function on values, and the laws are proved about those
functions. Times are reals or integer milliseconds. Clocks, fresh identities,
and whether storage answers are parameters.

Run `dafny verify dfyconfig.toml` (Dafny 4.11).

## Where code and documentation disagree

The model follows the code.

- `common/control_delta.py:276-279` calls the order of `set` and `ops` unobservable.
  `ControlOrder.OrderObservableExactly` gives the exact condition: `set` must carry no
  member of an operation whose turn can come, which validation ensures for `timer.*`
  and `notify.*` only; `ControlOrder.OrderObservableFromList` reads it off the list.
- `common/common.py:632-633` says that pushing deferred answers back preserves their order.
  `AnswerQueue.OrderAfterTaking` shows between which entries it does.
- `common/install_log.py:52-57` promises never to splice two transcripts. A replaced file
  can be spliced onto what was seen whenever the read does not start over. It starts over when the
  held offset lies at or before the run's start, past the end of the file, or more than the
  cap before the end: `InstallLog.ResetExactly`, `InstallLog.RotationSeen`.
- `common/persistence/control.py:122` promises the first accepted command at the highest
  live-or-queued revision. Rows that the drain rejects, later commands of one envelope, and
  rows that set or delete the register make it wrong: `CalibrationPrediction.PredictionIsExact`.
- `common/learning_trajectory.py:600-601` calls the accepted audit canonical. The comparison
  is Python's, so `0.0` and `False` pass for `0`: `TrajectorySegments.OneIntegerAudit`.
- `board-config.py:353-354` appends a parameter with the value `on` whatever value the
  caller asked for, so it takes a second run to store it: `BoardConfigGlued.ParameterNeedsTwoRuns`.
- `board-config.py:360-362` promises that re-running with identical settings needs no reboot.
  It may change the file at every run, or fail for good after a last line without a newline:
  `BoardConfigGlued.RunsGrow`, `BoardConfigGlued.RerunsSettle`.

## Model

| member | source | states |
|---|---|---|
| ClockDomain.AgeMeaning | common/clock_domain.py:118-135 | An age between two stamps is known exactly when both lie in one boot and one runtime, the suspend offset grew by at most 60 s and the monotonic clock did not step back; it is then the monotonic difference. |
| ClockDomain.ContinuityMeaning | common/clock_domain.py:138-153 | Continuity is lost exactly when time did not provably pass, or more of it than the gap allows. |
| ClockDomain.QualifiedAgeMeaning | common/clock_domain.py:226-262 | A reader in another process ages a stamp exactly as the controller itself would at that instant, and only while the heartbeat is fresh. |
| ClockDomain.StampRoundTrip | common/clock_domain.py:53-115 | Every stamp survives being written as JSON and parsed. |
| ClockDomain.ParseStampExactly | common/clock_domain.py:53-115 | Parsing takes exactly the dictionaries whose six fields spell a stamp, numbers of either kind, and gives that stamp. |
| Timers.ParseTimerRoundTrip | common/timer.py:70-107 | The strict parser accepts an encoded record if and only if it meets the five-state invariant, and returns it unchanged. |
| Timers.ParseTimerAdmits | common/timer.py:70-107 | Whatever JSON the parser accepts denotes an admissible record, and re-encoding it parses to the same record. |
| Timers.ParseTimerExactly | common/timer.py:70-107 | Parsing takes exactly the dictionaries whose nine fields spell a record that meets the invariant, and gives that record. |
| Timers.StepsLabel | common/timer.py:110-201 | What each step does to identity, labels and what is left, and when it raises: a resumed timer keeps its identity and first start and gets a new projected end. |
| Timers.StepsStayAdmissible | common/timer.py:129-201 | Start, pause, interrupt, resume, expire and checkpoint all lead from an admissible record to an admissible record. |
| Timers.RestoreIsSafe | common/timer.py:204-232 | Restoring any JSON whatever gives an admissible record that neither counts down nor may fire, and keeps the input aside exactly when it was no current record. |
| Timers.RestoreMeaning | common/timer.py:204-232 | For any JSON: a running record is interrupted with identity, time and labels kept and any other current record unchanged; a record of epochs is the default one exactly when all three are zero, and keeps end minus paused exactly for a consistent pause. |
| Timers.RestoreOfCurrent | common/timer.py:204-212 | Restoring a current record gives no credit for the downtime. |
| TimerRuns.StepRefines | common/timer.py:129-212 | One timer step does what the reference stopwatch does, including whether the action fires. |
| TimerRuns.RunRefines | common/timer.py:129-212 | Over every run, at arbitrary stamps, the timer shows what the stopwatch has left. |
| TimerRuns.Conservation | common/timer.py:110-212 | After any run the remaining time is the started duration minus the sum of credited spans (at least zero), each span inside one generation and free of a long suspend; expiry fires if and only if credited and current running time reach the duration. |
| TimerRuns.SpansNeverOverlap | common/timer.py:110-201 | With a monotonic clock that never steps back within a generation, credited spans never overlap: no second is consumed twice. |
| TimerRuns.FiresAtMostOncePerArming | common/timer.py:129-189 | Over every run the number of firings is at most the number of arming starts and resumes. |
| TimerRuns.WallTimeIsALabel | common/timer.py:110-212 | Two runs whose stamps differ only in wall time agree on state, remaining time, arming, every firing and the monotonic part of the checkpoint; only wall times may differ: the three labels and the one inside the checkpoint. |
| TimerRuns.CheckpointsKeepTime | common/timer.py:192-201 | Checkpointing at any steady sequence of stamps consumes exactly the elapsed monotonic time. |
| TimerRuns.CheckpointsAreTransparent | common/timer.py:110-201 | A checkpointed timer and one left alone show the same remaining time later if and only if the suspend offset grew by at most 60 s in all; while the direct age is known they fire alike. |
| TimerRuns.KnownAgeIsSteady | common/clock_domain.py:118-135 | When the direct age is known, forward clocks make every stamp in between steady. |
| TimerProjection.ProjectionAgrees | common/timer_projection.py:11-50 | A projection is current exactly when the timer runs and the reader can age its checkpoint; it then equals the controller's own remaining time and is zero exactly when expiry would fire; otherwise it is the checkpoint value, never below a known remaining time. |
| TimerProjection.CurrentViewsCountDown | common/timer_projection.py:31-40 | Between two current readings of one record the shown time falls by exactly the monotonic time between them, down to zero. |
| TimerProjection.UnreadableIsNeverCurrent | common/timer_projection.py:18-50 | An unreadable record is never reported as current. |
| TimerProjection.ViewShowsRecord | common/timer_projection.py:18-50 | A view names the record it shows with its state, labels and options; of an unreadable record it shows nothing. |
| JsonTrees.DeepAssignFrame | common/control_delta.py:311-319 | A deep assignment leaves every path away from its leaves as it was, presence included. |
| JsonTrees.DeepAssignWrites | common/control_delta.py:311-319 | Every leaf of a deep assignment is in place afterwards; an empty mapping only makes the place a mapping. |
| JsonTrees.DeepAssignCommutes | common/control_delta.py:311-319 | Deep assignments whose leaves are incomparable commute. |
| JsonTrees.DeleteRemoves | common/control_delta.py:361-368 | After a deletion nothing is left at or below the path. |
| JsonTrees.DeleteFrame | common/control_delta.py:361-368 | A deletion leaves every incomparable path as it was. |
| JsonTrees.DeletesCommute | common/control_delta.py:361-368 | Deletions commute, comparable or not. |
| JsonTrees.DeleteCommutesWithAssign | common/control_delta.py:311-368 | A deletion commutes with an assignment that stays away from its path. |
| ControlEnvelopes.OpRoundTrip | common/control_delta.py:167-225 | An operation written as an entry is read back unchanged if and only if it is valid, for each of the nine kinds; a timer operation needs a target that the UUID constructor takes. |
| ControlEnvelopes.DecodedOpIsValid | common/control_delta.py:167-225 | Every entry that passes validation denotes a valid operation. |
| ControlSpelling.DecodeOpExactly | common/control_delta.py:167-225 | Validation takes exactly the entries that spell one of the nine operations, field by field, and reads that operation. |
| UuidTexts.CanonicalIsUuidText | common/control_delta.py:187-199 | The canonical spelling of every identity is a target that validation accepts. |
| UuidTexts.PlainTextTaken | common/control_delta.py:187-199 | A target of hexadecimal digits and hyphens is taken exactly when it has thirty-two digits, wherever the hyphens are. |
| UuidTexts.ForeignTextRefused | common/control_delta.py:187-199 | A target with a character that has no place in any spelling is refused. |
| UuidTexts.WrappedTextTaken | common/control_delta.py:187-199 | Braces and the URN prefix make no difference to a canonical target. |
| ControlEnvelopes.EnvelopeRoundTrip | common/control_delta.py:101-162 | Building an envelope succeeds if and only if set, deletions and operations are well-formed, and the drain then reads back exactly that intent. |
| ControlSpelling.DecodeExactly | common/control_delta.py:126-225 | Validation takes exactly the envelopes that spell a write of version two, and reads that write. |
| ControlSpelling.RefusedExactly | common/control_delta.py:286-300 | An envelope of another version is dropped without an error; one that spells no write, has null operations or aims a timer operation at another generation raises; nothing else is refused. |
| ControlDeltas.RefusedChangesNothing | common/control_delta.py:286-300 | An envelope refused for its version, its form or a retired generation leaves the control state unchanged. |
| ControlFootprints.StepIsLocal | common/control_delta.py:311-456 | Each step of a write changes only its own top-level members, and its outcome depends on nothing else. |
| ControlFootprints.PatchKeepsFind | common/control_delta.py:379-403 | Patching a notify entry without renaming label or type moves no entry out of reach of any address. |
| ControlFootprints.EntryOpIsPatch | common/control_delta.py:379-456 | An accepted entry-level operation patches exactly one notify entry, plus a new timer record for timer operations. |
| ControlFootprints.EntryOpCommutesWithPatch | common/control_delta.py:379-456 | An entry-level operation is neither hindered nor changed by a patch of another entry, and leaves that patch in place. |
| ControlFootprints.IndependentStepsSwap | common/control_delta.py:311-456 | Two accepted steps with non-clashing footprints give one result in either order, and neither footprint moves. |
| ControlWriters.EnvelopeKeepsTheRest | common/control_delta.py:273-308 | An accepted envelope leaves every path and every notify entry outside its footprint as it was. |
| ControlMeanings.EnvelopeMeaning | common/control_delta.py:273-308 | An accepted envelope, path by path: deleted paths are absent even if also set; away from deletions and operations every stated leaf is in place and every unmentioned path is as before. |
| ControlEffects.TimerOpEffect | common/control_delta.py:406-456 | An accepted timer operation changes, of the first entry of type timer, `req` as its name says, and `shutdown` and `keep_warm` to the options given at a start with options, to false at a clear, and not at all otherwise; no other field, entry or member but the timer changes. |
| ControlEffects.NotifySetEffect | common/control_delta.py:379-394 | `notify.set` writes each given field into the first entry of that label and type and leaves its other fields, or appends an entry of label, type and fields. |
| ControlEffects.NotifyDeleteEffect | common/control_delta.py:397-400 | `notify.delete` takes out the first entry of that label and type, the others keep their order; without one nothing changes. |
| ControlEffects.NotifyReplaceEffect | common/control_delta.py:403-404 | `notify.replace` is always accepted and leaves the given list. |
| ControlEffects.NotifyRaises | common/control_delta.py:379-404 | A notify operation raises exactly where the list cannot be searched, or is no list that could be appended to, and then changes nothing. |
| ControlEffects.HoldEffect | common/control_delta.py:322-336 | `hold.set_setpoint` stores the setpoint and the mode, and raises `updated` exactly when another mode was left. |
| ControlEffects.BothWritersSurvive | common/control_delta.py:228-239 | Two writers that patch different entries of the notify list, or different fields of one, both survive: in either order the list is the same and holds the fields of both. |
| ControlEffects.FootprintExactly | common/control_delta.py:322-456 | The footprint of every operation: its own members, for entry-level operations the one entry it finds, and the whole list exactly where no entry is found or the list itself changes. |
| ControlMeanings.NotifySetStores | common/control_delta.py:379-403 | After an accepted `notify.set` whose fields leave its entry under its address, looking the entry up finds it, at its old place if it had one, with every field as given. |
| ControlMeanings.NotifySetIsIdempotent | common/control_delta.py:379-403 | Repeating an accepted `notify.set` changes nothing if and only if a label or type among its fields equals the one it is addressed by. |
| ControlMeanings.RenamingSetGrows | common/control_delta.py:386-394 | On an empty list, a `notify.set` that renames its entry adds one, and repeated another. |
| ControlMeanings.NotifyDeleteUndoesSet | common/control_delta.py:379-403 | Deleting by address restores the list that a `notify.set` appended to, if and only if the new entry is under that address. |
| ControlMeanings.TimerOpIsStep | common/control_delta.py:406-456 | Every accepted timer operation other than clear takes exactly one step of the timer machine, the one its name and the stored state call for, and arms the timer exactly when it is no pause. |
| ControlWriters.EnvelopesCommute | common/control_delta.py:273-308 | Two accepted envelopes with disjoint footprints are accepted in either order and end in the same state. |
| ControlWriters.TimerAndNotifyOrderHidden | common/control_delta.py:126-225 | For every valid envelope whose operations are all timer or notify operations, applying `set` before or after `ops` gives one outcome, raising included. |
| ControlOrder.OrderObservableExactly | common/control_delta.py:273-308 | For every list of operations: the order of `set` and `ops` is unobservable over all values and states if and only if no operation whose turn can come works on a member that `set` carries. |
| ControlOrder.OrderObservableFromList | common/control_delta.py:273-308 | For valid operations the same, read off the list alone: only operations count before which no start with options follows a pause of a timer that the list itself started. |
| ControlTurns.TurnComesExactly | common/control_delta.py:406-456 | Some state exists from which all operations before this one are accepted, if and only if no start with options among them follows a pause of a timer that the list itself started. |
| ControlOrder.HeldStartHides | common/control_delta.py:406-456 | A list whose last operation never has its turn: it sets the mode, and still its order with a `set` of the mode is unobservable. |
| ControlOrder.OneOperation | common/control_delta.py:273-308 | For one operation: unobservable if and only if `set` carries none of its members. |
| ControlWriters.TimerOpKeepsStep | common/control_delta.py:406-456 | After an accepted timer operation the stored timer parses, the first timer entry is the same one, and its `req` is true exactly when the timer runs. |
| ControlDrain.MergeInto | common/control_delta.py:311-319 | The recursive loop that assigns member by member, in whatever order, ends in the tree the specification gives. |
| ControlDrain.LiveControl.PerformTimer | common/control_delta.py:406-456 | The in-place timer operations leave exactly the specified dictionary, also when they raise half way. |
| ControlDrain.LiveControl.PerformNotify | common/control_delta.py:379-403 | The in-place notify operations leave exactly the specified dictionary. |
| ControlDrain.LiveControl.Apply | common/control_delta.py:273-308 | The in-place application of an envelope ends in exactly the specified state, also when it raises. |
| ControlDrain.ControlDatastore.ExecuteControlWrites | common/persistence/control.py:188-233 | Draining empties the queue and leaves durable control as the fold of its rows: an accepted row takes effect as a whole, a row that raises changes nothing in storage. |
| ControlDrain.NeighboursMaySwap | common/persistence/control.py:188-233 | Two neighbouring rows whose accepted envelopes do not meet may be swapped anywhere in the queue without a trace in storage. |
| ControlFailures.TimerOpRaises | common/control_delta.py:406-456 | A valid timer operation raises if and only if it is blocked by the stored timer or an unknown clock, and then changes nothing, or the notify list cannot be searched, and then leaves the new timer stored. |
| ControlFailures.RunRaises | common/control_delta.py:300-308 | A list of timer operations raises if and only if one of them, in the state the accepted ones before it left, is blocked or cannot search. |
| ControlFailures.TimerRun | common/control_delta.py:300-308 | What a list of timer operations does is read off the stored timer, the clock and the list: it raises if and only if one of them is blocked in its turn or the notify list cannot be searched, and it leaves the record and the notify fields of the operations that stored theirs, nothing else. |
| ControlFailures.HalfAppliedInMemory | common/control_delta.py:300-308 | An envelope of `set` and timer operations raises if and only if the operations would on the state before the call; what is left differs from that state if and only if some leaf of `set` was not in place already, or the operations that stored their record left another record or other notify fields than were there. |
| ControlFailures.HalfAppliedExample | common/control_delta.py:445-456 | A concrete envelope that raises with its `set` already assigned. |
| JsonTrees.AssignChangesNothing | common/control_delta.py:311-319 | A deep assignment changes nothing if and only if every leaf it states is already in place. |
| CalibrationRegister.RegisterKeepsFirstHighest | common/control_delta.py:342-358 | From no command, any sequence of calibration commands leaves the first one that arrived with the highest revision. |
| CalibrationRegister.ArrivalOrderHidden | common/control_delta.py:342-358 | All arrival orders of the same commands leave one register if and only if any two different commands of equal revision are outranked by another command. |
| CalibrationRegister.RepeatedRevisionShowsOrder | common/control_delta.py:342-358 | Two different commands of one revision: the earlier stays, in either order. |
| CalibrationRegister.OperationsFillRegister | common/control_delta.py:342-358 | Any run of calibration operations is accepted, leaves the register under its member, and changes no other member. |
| ControlEffects.CalibrationEffect | common/control_delta.py:339-358 | `mpc_calibration.set` stores the command in an empty register or over a lower revision, and leaves the register otherwise. |
| CalibrationPrediction.DrainFillsRegister | common/persistence/control.py:188-233 | For every queue, whatever its rows do and whichever are accepted, the drain leaves in the register the value after the last row that rewrote it, with the commands of the accepted rows since applied to it. |
| CalibrationPrediction.FirstInMeaning | common/persistence/control.py:109-118 | The handler takes of any list of entries the first that carries a calibration command. |
| CalibrationPrediction.ScanMeaning | common/persistence/control.py:138-149 | For any commands, valid or not, the scan answers with the first one at their highest revision, if that is above the live one, and else with the live value. |
| CalibrationPrediction.PredictionIsExact | common/persistence/control.py:109-149 | For every queue that can be looked through: the prediction equals what is read after the drain if and only if it names the survivor among the register and the commands that accepted rows apply since the last rewrite. |
| CalibrationPrediction.OrderlyHistory | common/persistence/control.py:188-233 | When every row with a command is accepted and none rewrites the register, the drain applies exactly the commands that the queued envelopes hold, in order, to the value before the queue. |
| CalibrationPrediction.OrderlyPrediction | common/persistence/control.py:109-149 | On such a queue over a readable register the prediction is right if and only if no queued command outranks the register or the winner among all queued commands is the winner among the first commands of each envelope. |
| CalibrationPrediction.OneEachIsRight | common/persistence/control.py:109-149 | With one command per envelope such a queue is always predicted right. |
| CalibrationPrediction.RejectedCommandPredicted | common/persistence/control.py:138-149 | A command queued beside a timer operation for a retired generation is predicted, but the drain drops its row. |
| CalibrationPrediction.SecondCommandUnseen | common/persistence/control.py:109-118 | Of two rising commands in one envelope the drain keeps the second and the prediction names the first. |
| SettingsEnvelopes.WriteRoundTrip | common/settings_schema.py:805-853 | Building a settings write succeeds if and only if no deletion path is empty, and reading it gives back exactly that write. |
| SettingsEnvelopes.BarePartial | common/settings_schema.py:827-872 | A bare partial is the write that assigns it and deletes nothing. |
| SettingsEnvelopes.ReadDeltaExactly | common/settings_schema.py:805-905 | Reading takes exactly what spells a settings write, bare or as an envelope, and gives that write. |
| SettingsDeltas.AtomicPathsPrefixFree | common/settings_schema.py:758-788 | The atomic paths of every schema are prefix-free, and none is the root. |
| SettingsDeltas.AtomicPathsLeadToUnions | common/settings_schema.py:758-788 | A path is atomic exactly when walking the fields of the schema along it ends at a tagged union. |
| SettingsDeltas.LiftOne | common/settings_schema.py:886-928 | Lifting one atomic value out, merging the rest and putting it back is the reference merge. |
| SettingsDeltas.AnyOrderIsMerge | common/settings_schema.py:886-928 | Whatever order the atomic paths are visited in, lift, merge and put back give the one reference merge, raising included. |
| SettingsDeltas.DeepUpdate | common/common.py:689-695 | The in-place recursive update computes the reference merge with no atomic path; when it raises, every path that the update does not reach is as before. |
| SettingsDeltas.SettingsStore.LiftAtomic | common/settings_schema.py:894-911 | The loop lifts exactly the atomic values the delta names and leaves the rest of the delta. |
| SettingsDeltas.SettingsStore.ApplySettingsDelta | common/settings_schema.py:886-928 | The in-place write succeeds exactly when the specification does and then leaves its result, for every visiting order; when it raises, every path that the write does not reach is as before, and nothing was deleted there. |
| SettingsDeltas.WriteMeaning | common/settings_schema.py:875-928 | Path by path: a deleted path is absent even if also set; a named atomic path holds exactly the delta's value; any other stated value is in place; a path the write is silent about is unchanged. |
| SettingsDeltas.UnionsAreReplaced | common/settings_schema.py:886-928 | After a write every path that leads to a tagged union, that the delta names and no deletion touches, holds exactly the value of the delta. |
| SettingsDeltas.WriteIsIdempotent | common/settings_schema.py:886-928 | Applying the same write again succeeds and changes nothing. |
| SettingsDeltas.WriteRaisesExactly | common/settings_schema.py:886-928 | A write raises if and only if, outside atomic values, it merges members onto something that is no mapping. |
| ModelStore.BackendState.RememberOwned | common/controller_model_state.py:290-303 | Remembering a stored snapshot updates the newest and the committed view as specified. |
| ModelStore.ControllerModelStore.StageOwned | common/controller_model_state.py:269-279 | Staging publishes exactly the valid snapshots, and keeps all views in agreement. |
| ModelStore.StagePublishes | common/controller_model_state.py:267-278 | Staging makes the snapshot the newest of its name exactly when it is strictly newer, and changes nothing else. |
| ModelStore.StagedIsLoaded | common/controller_model_state.py:165-181 | A staged snapshot that is newer than all that was known is what the next load returns, whether or not storage answers. |
| ModelStore.ControllerModelStore.SaveOutcome | common/controller_model_state.py:186-267 | A save call does what the sequential specification says to storage and to all three views, and no revision goes back. |
| ModelStore.ControllerModelStore.Load | common/controller_model_state.py:135-180 | A load call returns and caches what the specification says, and no revision goes back. |
| ModelStore.SaveAgrees | common/controller_model_state.py:186-267 | A save keeps every cached revision at or below the durable one and the committed one at or below the newest, whether or not storage answers. |
| ModelStore.LoadAgrees | common/controller_model_state.py:135-180 | A load keeps the same agreement. |
| ModelStore.CheapRefusalIsExact | common/controller_model_state.py:217-229 | The refusal by the store's own cache never changes the outcome: with an empty cache the same save ends the same way. |
| ModelStore.SaveDecision | common/controller_model_state.py:186-267 | With readable storage a save is refused if and only if the durable record, or a newer staged snapshot, outranks it. |
| ModelStore.SavedKeepsTheRest | common/controller_model_state.py:231-267 | A successful save stored exactly this snapshot and kept every other valid member; an unsuccessful one left storage alone. |
| ModelStore.SaveLeaves | common/controller_model_state.py:186-265 | What a save does to the caches in every outcome: what is stored is remembered, a written snapshot is committed and newest, other names keep theirs. |
| ModelStore.SaveChangesNothing | common/controller_model_state.py:186-265 | A save refused by a cache, or with storage that cannot be used, changes nothing at all. |
| ModelStore.LoadReconciles | common/controller_model_state.py:135-180 | With readable storage a load returns the newest revision, never below the durable one, and the stored bytes once they are committed. |
| ModelStore.LoadReturns | common/controller_model_state.py:165-181 | What a load returns and notes, for readable and unreadable storage. |
| ModelStoreThreads.StepKeepsInv | common/controller_model_state.py:135-303 | Every lock-protected step of every thread keeps the invariant, and no revision anywhere goes back. |
| ModelStoreThreads.EveryInterleavingAgrees | common/controller_model_state.py:135-303 | Over every interleaving of stagings, saves and loads on any number of stores: saved revisions strictly rise, loaded revisions never go back, every cached revision is at or below the durable one, committed at or below durable and newest. |
| ModelStoreThreads.RefusalAgreesWithStorage | common/controller_model_state.py:217-229 | At any moment of any interleaving, a refusal by a store's cache is one the durable record would repeat. |
| ModelStoreThreads.WritesKeepTheRest | common/controller_model_state.py:231-267 | Only the save that holds the lock changes storage, and only the member it names. |
| ModelStoreThreads.UndisturbedLoad | common/controller_model_state.py:135-180 | The step-by-step load, undisturbed, is the sequential load. |
| ModelStoreThreads.StagingPublishes | common/controller_model_state.py:267-278 | A staging by an idle thread publishes the snapshot in one step and moves nothing else. |
| ModelStoreThreads.UndisturbedSave | common/controller_model_state.py:186-267 | The step-by-step save, undisturbed, is the sequential save. |
| FrozenJson.FreezeFreezes | common/learning_trajectory.py:209-243 | Freezing gives a canonical frozen structure: sorted, duplicate-free, frozen throughout. |
| FrozenJson.FreezeOfFrozen | common/learning_trajectory.py:209-243 | Freezing what is frozen is the identity. |
| FrozenJson.ThawOfFrozen | common/learning_trajectory.py:50-126 | Thawing a frozen value gives the same JSON value. |
| FrozenJson.FreezeOfThawed | common/learning_trajectory.py:209-243 | Freezing what was thawed gives the frozen value back. |
| FrozenJson.FreezeIsCanonical | common/learning_trajectory.py:209-243 | Two plain values freeze to the same structure if and only if they differ at most in object-key order. |
| TrajectorySegments.CanonicalGenerationAuditRanges | common/learning_trajectory.py:367-388 | The loop that extends its last range yields ranges with no mergeable neighbours whose expansion is exactly the ordered list of attributed frames. |
| TrajectorySegments.CanonicalIsUnique | common/learning_trajectory.py:367-388 | No two different canonical lists of ranges have one expansion. |
| TrajectorySegments.AuditMatches | common/learning_trajectory.py:595-601 | The validator accepts recorded JSON if and only if each item has exactly the three fields, each a whole number for Python, and they name the one canonical cover of the frames. |
| TrajectorySegments.OneIntegerAudit | common/learning_trajectory.py:595-601 | Of the accepted audits exactly one has only integers, and it is the canonical encoding. |
| TrajectorySegments.FloatAuditAccepted | common/learning_trajectory.py:595-601 | An audit with a float and a bool for its sequence numbers is accepted too. |
| TrajectorySegments.TimelineMeansTiling | common/learning_trajectory.py:460-612 | For current segments the validator's separate checks hold together if and only if bounds match and the frames tile time. |
| SegmentValidation.ValidateSegment | common/learning_trajectory.py:533-643 | The checks in their order, loop by loop, accept exactly the specified segments. |
| SegmentValidation.AcceptedExactly | common/learning_trajectory.py:533-643 | A segment is accepted exactly when its frames as one sequence follow each other in number and time, but for the one typed gap of historical records, each is of its part's kind, the audit names the canonical cover, the bounds match, and the Hold mode was entered inside the first scored interval or at the end of the pre-roll. |
| SegmentValidation.ValidExactly | common/learning_trajectory.py:314-358 | A frame is valid exactly when its length, its flags, the ages and the drift between the clocks, and its shares of delivery agree. |
| TrajectorySegments.AcceptedSegmentsTileTime | common/learning_trajectory.py:314-358 | Every accepted current segment: sequence numbers without gaps, durations summing to the span, 20,000 ms per scored frame, delivered auger time at most the span. |
| TrajectorySegments.HistoricalGapIsAtTheJunction | common/learning_trajectory.py:532-612 | A historical segment can miss time only between a partial, typed pre-roll end and the scored part. |
| AnswerQueue.SqliteQueue.Push | common/sqlite_queue.py:37-38 | A push adds one row under a fresh, larger id at the end. |
| AnswerQueue.SqliteQueue.Pop | common/sqlite_queue.py:40-46 | A pop takes the row with the smallest id. |
| AnswerQueue.SqliteQueue.ClearThrough | common/sqlite_queue.py:71-78 | Clearing removes exactly the rows up to the high-water mark. |
| AnswerQueue.GetSystemCommandOutput | common/common.py:598-654 | An uninterrupted call returns the first matching answer at position i and leaves what followed it and then what preceded it; without a match the queue is untouched. |
| AnswerQueue.OrderAfterTaking | common/common.py:632-648 | Two entries that stay keep their order if and only if the taken answer did not lie between them. |
| AnswerQueue.EveryInterleavingConserves | common/common.py:598-654 | Over every interleaving of producers and consumers each pushed answer is in one place: the queue, one consumer's hands, or returned to a caller that asked for it. |
| AnswerQueue.NothingIsLost | common/common.py:598-654 | Once no consumer is in the middle of a scan, every pushed answer was returned once or is still queued. |
| AnswerQueue.UndisturbedConsumer | common/common.py:618-648 | The step-by-step consumer, undisturbed, ends as the sequential call does. |
| InstallLog.RunStartGrows | common/install_log.py:38-46 | When a file grows by whole lines, the current run begins in the new part or is the run it was. |
| InstallLog.RunStartMeaning | common/install_log.py:38-46 | The run starts at the beginning of the line that holds the last marker; without a marker at the beginning of the file. |
| InstallLog.ReadExactly | common/install_log.py:49-89 | What each read sends and whether the client starts over: from the offset or the run's start, or the lines that begin within the cap. |
| InstallLog.PollKeepsSync | common/install_log.py:49-89 | One poll of a grown file keeps the client's buffer a line-aligned part of one run up to the end of the file, and keeps it whole if the unread part fits. |
| InstallLog.ClientFollowsTheRun | common/install_log.py:49-89 | Any sequence of polls of a file that grows by whole lines, new runs included, leaves the client with a line-aligned suffix of the current run, the whole run if no poll exceeded the limit. |
| InstallLog.MissingFileStartsOver | common/install_log.py:49-89 | A missing file leaves the client as new. |
| InstallLog.ResetExactly | common/install_log.py:71-87 | A read starts over if and only if the offset lies at or before the run start, or past the end of the file, or more than the cap is unread. |
| InstallLog.RotationSeen | common/install_log.py:49-89 | For every file of whole lines and every offset: a poll brings all clients that could hold the offset back in step with the file if and only if the read starts over, or the offset is one and the file begins with an empty line. |
| InstallLog.RegrownFileIsSpliced | common/install_log.py:49-89 | A replaced file that has grown past the cursor is not noticed. |
| SchemaMigrations.MigrationKeepsRows | common/schema_migrations.py:43-170 | Each migration succeeds exactly from the version before its target or any later one, raises the version at least to its target, and keeps every frame, history and metrics row. |
| SchemaMigrations.BootstrapConverges | common/datastore.py:460-554 | The bootstrap succeeds if and only if every recorded migration is known and not ahead of the version; it then ends at version 14 or the newer one it found, all four recorded, frame rows unchanged, history rows carried over (before version 4 copied under numeric affinity) and metrics rows kept, except that those of versions 1 and 2 are dropped; otherwise the database is as before. |
| SchemaMigrations.CopiedMeaning | common/datastore.py:438-457 | The copy of the history under numeric affinity keeps every row, every number and everything else of a row; whole setpoints become integers, and a second copy changes nothing. |
| SchemaMigrations.BootstrapIsIdempotent | common/datastore.py:460-554 | A second bootstrap changes nothing. |
| SchemaMigrations.MissingIsUnreachable | common/schema_migrations.py:173-194 | After the registry ran, no migration can be missing: that conflict is unreachable. |
| SchemaMigrations.Database.RebuildFrameTable | common/schema_migrations.py:56-159 | The rebuild of the frame table, row by row, fails exactly when a row breaks the new constraint, and otherwise gives the specified table. |
| SchemaMigrations.Database.Migrate | common/schema_migrations.py:43-170 | One registered migration run against the database does what its specification says. |
| SchemaMigrations.Database.ApplyRegisteredMigrations | common/schema_migrations.py:173-194 | Applying the registry and checking its record does what the specification says. |
| SchemaMigrations.Database.Ensure | common/datastore.py:620-643 | The bootstrap as one transaction: an error leaves the database as it was. |
| BoardConfig.ParseConfigLine | board-config.py:378-408 | The parsing loop computes the specified components, options belonging to the last feature seen. |
| BoardConfig.BuildConfigLine | board-config.py:411-443 | The printing loops produce the specified line. |
| BoardConfigMeanings.ParseMeaning | board-config.py:378-408 | On any line: a feature has exactly the options between its last naming and the next bare item; a name that is never bare has the value of its last pair before any feature; nothing else is there. |
| BoardConfig.ParseUndoesBuild | board-config.py:378-443 | For every nonempty printable config, parsing its printed line without the type prefix gives it back up to two blanks on the last token, if and only if no option key ends like the type and no key equals the last bare feature with those blanks. |
| BoardConfig.SuffixExample | board-config.py:378-443 | A concrete config that does not survive the round trip. |
| BoardConfigWrite.ConfigFile.RpiConfigWrite | board-config.py:292-356 | The rewrite of the file: text, success and the reported change are as specified, and an unchanged report means an unchanged file. |
| BoardConfigWrite.EditConfigLine | board-config.py:302-340 | The edit of the one matching line is as specified, including where the original raises. |
| BoardConfigMeanings.OneLineChanges | board-config.py:292-356 | A write edits the first kept line that names type and feature and no other, or adds one at the end; it fails exactly when that edit does. |
| BoardConfigMeanings.KeptExactly | board-config.py:293-300 | The lines kept are, in their order, all but the old pwm overlays that a two-channel write replaces. |
| BoardConfigMeanings.OverlayFails | board-config.py:322-340 | The edit of an overlay fails exactly when there is something to change and its feature is missing or no feature. |
| BoardConfigMeanings.DisablingSettles | board-config.py:303-314 | Disabling a feature leaves one hash before what the line said, and done again changes nothing. |
| BoardConfigSettles.OptionsSettle | board-config.py:326-340 | Rewriting the options of an overlay line twice gives what rewriting once gives. |
| BoardConfigRuns.LineIsEdited | board-config.py:302-345 | Rewriting an overlay line of this write edits its options and nothing else. |
| BoardConfigGlued.RerunsSettle | board-config.py:292-356 | Repeating one overlay write on a file that lacks the line. Where every kept line ends: from the second run on the file stays the same if and only if the pin is stored under a pin noun or there are further settings. Where the last one does not end: the new line is glued to it, and every later run fails and leaves the file alone if and only if what the open line says has a comment or ends inside an item. |
| BoardConfigGlued.OpenEndExample | board-config.py:326-345 | The file `a=1` without a newline never gets its overlay: every run from the second on fails. |
| BoardConfigGlued.RunsGrow | board-config.py:326-345 | A lone pin under another name gains two blanks at every run, so the file grows for ever, unless the line was lost in an open one; then every run fails. |
| BoardConfigGlued.PinAloneSettlesAtOnce | board-config.py:292-356 | Without further settings the second run already changes nothing, also where the line was lost in an open one. |
| BoardConfigGlued.ParameterNeedsTwoRuns | board-config.py:292-356 | A parameter write on a file without the line never fails and stores `on` first. Where every line ends, the asked value comes at the second run and stays, so one run is enough if and only if `on` was wanted; otherwise the second run stores it on the line that the open one became part of. |
| BoardConfigGlued.OpenParameterExample | board-config.py:310-345 | From the second run on the file `a=1` without a newline reads the parameter, and its own value has swallowed the name of the parameter. |

## Left out

- Seconds are real numbers, so the `isfinite` guards and rounding of the original do not appear.
- `uuid4` is a parameter: that fresh identities differ from older ones is not stated. Texts that the UUID constructor takes are modelled for ASCII digits and blanks.
- JSON text, its size limits and numbers that compare equal across types beyond Python's own rules are not modelled; dictionaries are maps without key order, except in FrozenJson and the BoardConfig modules.
- Aliasing of nested dictionaries: the classes hold values, so an inner dictionary shared by two places of the original is two equal values here.
- SettingsDeltas.SettingsStore.ApplySettingsDelta: of a write that raises half way it is stated what stays as it was; how far the reached paths got depends on the order of the delta's keys and is not stated.
- SettingsDeltas.AtomicPathsPrefixFree: takes the schema as a tree of sections, unions and leaves; how Pydantic fields produce it is not modelled.
- ControlDrain.ControlDatastore.ExecuteControlWrites: the decoding of the stored text, the row ids and the error log are not modelled.
- CalibrationPrediction.PredictionIsExact: a handler whose look through the queue raises, because some `ops` cannot be iterated, has no prediction.
- ModelStoreThreads.EveryInterleavingAgrees: one process and one backend; races between processes on the storage itself, the conditional writer and `load_strict` are not modelled.
- ModelStore.ControllerModelStore.SaveOutcome: whether a stored value is a valid snapshot is taken as given (`Sound` or `Malformed`).
- AnswerQueue.GetSystemCommandOutput: the deadline is the number of polls it leaves time for; sleeping is not modelled. Order per command is not promised by the original and not claimed.
- InstallLog.ClientFollowsTheRun: reads are of bytes; the decoding of the returned bytes to text is not modelled.
- SchemaMigrations.BootstrapConverges: tables are rows with their constraint, of a history row only the setpoint is a number; SQL text, indexes, other tables and the bookkeeping inside `sqlite_utils` are not modelled beyond applying unrecorded migrations in registration order.
- BoardConfigWrite.ConfigFile.RpiConfigWrite: opening and creating the file, and the message of a failure, are not modelled; blanks stripped before a hash are those of ASCII; text is taken after newline translation.
- BoardConfigGlued.RerunsSettle: for tokens without separators or line ends. Of an open last line that itself names the feature, of an option of that name, and of a glued line that a two-channel write drops again, no outcome is stated; where the glued overlay is found, only that the second run succeeds.
- BoardConfigGlued.PinAloneSettlesAtOnce: says nothing of a glued line on which the overlay is found; BoardConfigGlued.RunsGrow likewise.
- Trajectory digests (SHA-256), the fields of a frame that no check reads, and the learning jobs that produce segments.
- Routes, displays, drivers, updater and wizard, control trace and model evidence records: input, output or one-branch checks that would only add easy members.
- Reading the clocks and rotating the runtime identity.
