# DynaSched verification model

A Dafny model of the DynaSched scheduler daemon and of the utilities around it, with proofs about
every run, every input and every sequence of operations. `dafny verify dfyconfig.toml` checks it.

## The scheduling round

A request enters through `dsched_alloc_fn`, its directives are processed, and it is fanned out to
every meta module; each meta module fans out to every scheduler; the responses come back in any
order and end in the reply to the requestor. `Round.dfy` models this as a transition system with one
transition per event handler. Each handler runs atomically, as it does on its event base. Objects are
elements of sequences and pointers are indices. Each object carries the one event that it embeds, and
any object with a queued event may be served next. That allows every interleaving of the three event
bases, and more orders than libevent produces, so what holds here of requests and meta objects holds
of the daemon. Who owns allocations, caddies and trackers is not part of the model.

`RoundDaemon.dfy` has the daemon as a class whose methods update the tables in place, loop over the
modules and count the responses as the handlers do. Each method is proved to make exactly its
transition, and serving any queued event keeps the invariant of `RoundInvariant.dfy`, which
`RoundSteps.dfy` proves handler by handler. Its methods `AllocFn`, `PriSchedule` and `OtherSchedule`
are single updates and have no row below. `RoundTheorems.dfy` and `RoundOutcome.dfy` hold the
consequences for whole runs. `RoundRecords.dfy` ties them to what arrives and to what the modules
answer, and `RoundExamples.dfy` has some runs that do not go well. A few fields are history and only
record what happened: the replies of a request, how many modules accepted it, and which module a
scheduler caddy belongs to.

Two counts appear in the theorems, because the code counts active modules that it can never hear
from: `AbsentMetas` and `AbsentScheds` are the numbers of active modules without a `schedule`
function.

## Where the code and its documentation differ

The model follows the code. These are results of the proofs. Each names the lemma that says exactly when
the code does what one expects, and the lemma with an input for which it does not:

- When every meta module refuses a request, the reply is never sent: the queued callback counts one
  response more than there are modules (`DrainedReplies`; `NeverAnswered`).
- The FIFO scheduler never removes the head of its list, so all its answers are sized for the first
  request that ever reached it (`FifoSizeIsTheHeads`; `WrongSize`), and no request that reached it is
  ever released (`ReleasedUnlessInFifo`, `FifoHoldsForEver`).
- A request that no meta module took, or whose round waits for a module without a `schedule` function,
  keeps its table slot when nothing is queued any more (`SlotsLeftTaken`; `NeverAnswered`).
- With several meta modules, a request that has an allocation can still be reported as unavailable to
  its requestor
  (`StatusAfterAssignment`; `AllocatedButUnavailable`).
- `dsched_progress_thread_finalize` is documented as reference counted, but destroys the thread at its
  first call (`FinalizeIsNotCounted`; `FinalizedTooEarly`). Pausing an unknown name succeeds, and pausing
  with NULL stops every thread while resuming with NULL restarts only the shared one
  (`StatusesAsPromised`, `PauseAllThenResume`; `PausedUnknownName`).
- A thread that could not be bound keeps running on the event base that is then freed. A thread that
  could not be created is tracked as active if setting its optional binding hides the failure, and in
  any case if it was to be resumed, after which resuming it again finds it busy (`StepKeepsInv`,
  `RunKeepsInv`; `FaultyStarts`, `FailedResume`).
- Setting a boolean attribute to false removes one entry instead of overwriting it, and stores one if
  there was none (`ClearingAFlag`; `ClearedFlagShows`).
- Looking up a process or a namespace that was loaded without data has no defined outcome
  (`UndefinedLookups`; `NullLoadedThenUndefined`).
- `dsched_nptr_match` is not symmetric when only one node has aliases (`SymmetricUnlessOneSided`;
  `AsymmetricPair`).
- A string from which a circle of install directories is reached keeps the rewriting loop going for ever
  (`StopsUnlessCircular`; `SelfReference`).
- With `DSCHED_DESTDIR` set, an install directory that refers to one expanded later loses the first
  characters of that one, or has no defined outcome (`RightForEveryDestdir`, `RightExactlyInOrder`;
  `LaterReference`).
- `DSCHED_COMPUTE_MAX_VALUE` reports a wrong size when eight times the byte count wraps around to a
  small number (`ComputeMaxValue`; `MisreadInput`).
- A comment line whose text is a single character adds nothing to a description (`WordsKept`;
  `LostWord`).

## Model

| member | source | states |
|---|---|---|
| RoundDaemon.Daemon.RequestInit | src/tools/dsched/session.c:137-161 | the directives are recorded; without an error the request takes a free table slot, is queued for the meta modules and is acknowledged if its requestor does not wait; with one the requestor is told and the request released |
| RoundDaemon.Daemon.MetaBaseSchedule | src/mca/dmeta/base/meta_base_frame.c:123-164 | the fan-out to the meta modules: one caddy per acceptance, one response counted per refusal, the assign flag for the first to accept only, and a caddy of the base's own when all refuse |
| RoundDaemon.Daemon.SchedBaseSchedule | src/mca/dsched/base/sched_base_frame.c:117-164 | the fan-out to the schedulers: a tracker, the order that each scheduler is given, one response counted per refusal, and the continuation queued at once when all refuse |
| RoundDaemon.Daemon.FifoSchedule | src/mca/dsched/fifo/sched_fifo.c:76-124 | the request is retained and appended, and the head of the list is answered for if it passes the guard |
| RoundDaemon.Daemon.SchedBaseCallback | src/mca/dsched/base/sched_base_frame.c:98-115 | one response is counted, its allocation collected, and the continuation queued when the count is complete |
| RoundDaemon.Daemon.PriCallback | src/mca/dmeta/pri/meta_pri.c:72-99 | the caddy with the flag assigns the allocation of least pri, first on a tie, and marks the request successful; without one nothing is written |
| RoundDaemon.Daemon.MetaBaseCallback | src/mca/dmeta/base/meta_base_frame.c:99-121 | one response is counted; the last one replies, clears the table slot, drops the request's reference and releases the meta object, which drops another |
| RoundDaemon.Daemon.Serve | src/event/event-internal.h:139-144 | serving any queued event makes its transition and keeps the invariant |
| RoundSteps.StepKeepsInv | src/mca/dmeta/base/meta_base_frame.c:99-164 | every handler, whatever the modules answer, keeps the whole invariant |
| RoundTheorems.ReachableInv | src/mca/dsched/base/sched_base_frame.c:98-164 | the invariant holds in every reachable state |
| RoundTheorems.EnabledCanRun | src/mca/dsched/base/sched_base_frame.c:98-115 | in every run a queued callback can be served: every pointer that its handler follows leads to an object |
| RoundTheorems.ReferencesAreHolders | src/include/dsched_globals.c:400-415 | in every run the reference count of a request is the number of its holders: its creation event or table slot, its one live meta object, and its FIFO entries |
| RoundTheorems.NoUseAfterRelease | src/mca/dmeta/base/meta_base_frame.c:99-121 | no handler follows a pointer to a released request, meta object or caddy |
| RoundTheorems.ReleasedStaysReleased | src/mca/dmeta/base/meta_base_frame.c:110-119 | a request whose count has reached zero never changes again, in any continuation |
| RoundTheorems.TakenInRun | src/mca/dmeta/base/meta_base_frame.c:146-156 | a request counts as accepted exactly when the run contains a step in which a meta module accepted it |
| RoundTheorems.RepliesAtMostOnce | src/tools/dsched/session.c:137-160 | a requestor is called at most once, or at most twice if it does not wait, each kind of call at most once; a rejection carries the first error |
| RoundTheorems.DrainedCompletion | src/mca/dmeta/base/meta_base_frame.c:106-119 | once nothing is queued, a request is complete exactly when its directives parse, a meta module accepted it and every active module has a schedule function |
| RoundTheorems.DrainedReplies | src/mca/dmeta/base/meta_base_frame.c:99-164 | once nothing is queued, a requestor has been told exactly this: the rejection with the first error if its directives do not parse; otherwise an acknowledgement if it does not wait, and the completion with the request's status if and only if a meta module accepted and every active module has a schedule function |
| RoundTheorems.CompletionClearsSlot | src/mca/dmeta/base/meta_base_frame.c:110-118 | the completion reply and the clearing of the request's own table slot are one step, and no other step completes a request |
| RoundTheorems.NoQueuedEventLost | src/event/event-internal.h:139-144 | serving an event never queues an object that is still queued, so no callback is lost or replaced |
| RoundTheorems.ContinuationWithLastResponse | src/mca/dsched/base/sched_base_frame.c:106-114 | a response queues the continuation exactly when it is the last outstanding one and no module is unable to respond |
| RoundTheorems.CaddyCallbacksOnce | src/mca/dsched/base/sched_base_frame.c:98-164 | in every run the callbacks of a caddy are served in order and each at most once, so the schedulers are called, the choice is made and the response is counted once |
| RoundTheorems.ReleasedRequests | src/include/dsched_globals.c:309-354 | a request whose count has reached zero was rejected, without an allocation, or is complete |
| RoundInvariant.PendingSchedIsAwaited | src/mca/dsched/base/sched_base_frame.c:98-114 | a queued scheduler caddy belongs to a live, idle caddy whose tracker still waits |
| RoundInvariant.LiveMetaHoldsRequest | src/mca/dmeta/base/meta_base_frame.c:139-143 | a live meta object is the only one of its request, which is in the table and has at least two references |
| RoundInvariant.OneMetaPerRequest | src/mca/dmeta/base/meta_base_frame.c:139-143 | no request ever has two meta objects |
| RoundInvariant.OneFlagPerMeta | src/mca/dmeta/base/meta_base_frame.c:129-154 | at most one caddy of a round may assign an allocation |
| RoundOutcome.HandlersLowerMeasure | src/mca/dsched/base/sched_base_frame.c:98-164 | every handler lowers a measure on the queued events |
| RoundOutcome.RoundsDrain | src/mca/dmeta/base/meta_base_frame.c:99-164 | in every run the number of callbacks served is bounded by a constant per request, so every round drains |
| RoundOutcome.UndrainedCanRun | src/mca/dsched/base/sched_base_frame.c:98-164 | as long as anything is queued some handler can be served |
| RoundOutcome.BestIsLeast | src/mca/dmeta/pri/meta_pri.c:83-91 | the chooser's result is one of the allocations, none has a smaller pri, and it is empty only without allocations |
| RoundOutcome.BestIsFirstAnswer | src/mca/dmeta/pri/meta_pri.c:83-95 | what a caddy chooses is the answer of the first scheduler in priority order that answered with an allocation |
| RoundOutcome.BestSchedulerWins | src/mca/dmeta/pri/meta_pri.c:80-96 | in every run a completed request holds the allocation of the first scheduler in priority order that produced one, and none exactly when none did |
| RoundOutcome.InterleavingDoesNotMatter | src/mca/dmeta/pri/meta_pri.c:80-96 | any two runs whose schedulers give the same answers end with the same allocation |
| RoundOutcome.SuccessHasAllocation | src/mca/dmeta/pri/meta_pri.c:92-95 | a request is never successful without an allocation |
| RoundOutcome.SingleMetaStatus | src/mca/dsched/base/sched_base_frame.c:159-161 | with one meta module, a request is successful exactly when it has an allocation |
| RoundOutcome.StatusAfterAssignment | src/mca/dsched/base/sched_base_frame.c:159-161 | a request that was assigned an allocation stays successful exactly as long as no other meta module of its round finds every scheduler refusing |
| RoundOutcome.FirstTakerAssigns | src/mca/dmeta/base/meta_base_frame.c:129-156 | the assign flag goes to the first caddy of a round, exactly when some meta module accepts |
| RoundOutcome.FifoKeepsArrivalOrder | src/mca/dsched/fifo/sched_fifo.c:84-91 | the FIFO list only ever grows at its end |
| RoundOutcome.FifoIsArrivals | src/mca/dsched/fifo/sched_fifo.c:84-91 | in every run the FIFO list is the sequence of all requests that reached it, in that order |
| RoundOutcome.FifoAnswersForItsHead | src/mca/dsched/fifo/sched_fifo.c:93-120 | every answer of the FIFO, the very first included, is about the first request that ever reached it, which is still held; it answers exactly when that request's count is below the available one, with the first nodes of the pool |
| RoundOutcome.ReleasedWithoutAllocation | src/include/dsched_globals.c:309-354 | a request is released without an allocation exactly when it was rejected or no scheduler answered the caddy that may assign one |
| RoundOutcome.ReleasedUnlessInFifo | src/mca/dsched/fifo/sched_fifo.c:84-91 | in every run a request's count is zero exactly when it was rejected or is complete, and never reached the FIFO |
| RoundOutcome.FifoHoldsForEver | src/mca/dsched/fifo/sched_fifo.c:84-91 | a request that has reached the FIFO is never released, in any continuation of the run |
| RoundOutcome.SlotsLeftTaken | src/mca/dmeta/base/meta_base_frame.c:106-119 | once nothing is queued, the table slots still taken are exactly those of the requests whose directives parse and that are not complete: no meta module took them, or some active module has no schedule function |
| RoundRecords.CalledSchedulers | src/mca/dsched/base/sched_base_frame.c:138-157 | a scheduler is called for a caddy exactly when it has a schedule function and accepts, whatever the others do, for the caddy's request; earlier calls stay as they are |
| RoundRecords.CallsInRun | src/mca/dsched/base/sched_base_frame.c:117-164 | in every run the schedulers that work for a caddy are exactly those that have a schedule function and accepted when the base called them for it |
| RoundRecords.CalledMetas | src/mca/dmeta/base/meta_base_frame.c:129-163 | as many caddies are made as meta modules have a schedule function and accept, or one of the base's own when all have one and refuse |
| RoundRecords.RequestsAreArrivals | src/tools/dsched/session.c:165-184 | in every run the requests are the arrivals in their order, with their directives and callbacks |
| RoundRecords.RecordedParams | src/tools/dsched/session.c:30-161 | in every run a request holds what its own directives describe as soon as they have been processed, and the constructor's values until then |
| RoundRecords.FifoSizeIsTheHeads | src/mca/dsched/fifo/sched_fifo.c:101-120 | with an available count that does not exceed the pool, the FIFO answers exactly if the directives of the first request that ever reached it ask for fewer nodes than are available; the answer has as many nodes as the directives of its own round's request ask for exactly when that is what the first one's ask for, or the whole pool if those ask for none |
| RoundRecords.AnswersAreGiven | src/mca/dsched/base/sched_base_frame.c:98-108 | in every run the answer of a scheduler other than the FIFO is the one that it gave when it was served, under its own order |
| RoundRecords.AnswersStay | src/mca/dsched/base/sched_base_frame.c:98-108 | an answer, of the FIFO too, never changes afterwards |
| RoundRecords.StatusInRun | src/mca/dmeta/pri/meta_pri.c:92-95 | in every run the status of a request is what the last step wrote that refused it or assigned it an allocation: unavailable if all modules called had a schedule function and refused, success if the flagged caddy had an answer; not supported without such a step |
| RoundExamples.NeverAnswered | src/mca/dmeta/base/meta_base_frame.c:158-163 | a run in which the only meta module refuses ends with nothing queued, a waiting requestor that was told nothing, and the request's table slot taken |
| RoundExamples.AllocatedButUnavailable | src/mca/dsched/base/sched_base_frame.c:159-161 | a run that ends with nothing queued and a request that holds an allocation, and whose requestor has been told that it is unavailable |
| RoundExamples.WrongSize | src/mca/dsched/fifo/sched_fifo.c:93-120 | a run in which the answer to a request for two nodes, of three available, has one |
| FifoNodes.SelectNodes | src/mca/dsched/fifo/sched_fifo.c:109-119 | the node loop takes the first nodes of the pool in pool order, skipping empty slots, and all of them when the count is never met |
| FifoNodes.LiveHoldsThePool | src/mca/dsched/fifo/sched_fifo.c:109-114 | skipping empty slots keeps exactly the nodes of the pool, without repeats |
| FifoNodes.LiveInOrder | src/mca/dsched/fifo/sched_fifo.c:109-114 | the nodes stay in pool order: each is preceded by exactly as many as there are filled slots before its own |
| FifoNodes.GuardedPickIsExact | src/mca/dsched/fifo/sched_fifo.c:102-119 | a request for n nodes that passes the guard gets exactly n nodes of the pool, each once, if the available count does not exceed the pool |
| FifoNodes.PickCount | src/mca/dsched/fifo/sched_fifo.c:109-119 | the number handed out is the number asked for exactly when that is positive and in the pool; a request without a node count, or for more nodes than the pool has, gets every node |
| Directives.Process | src/tools/dsched/session.c:30-135 | the directive loop records the first error, the last value of every directive that converts, and whether the requestor waits |
| Directives.FirstErrorIsFirst | src/tools/dsched/session.c:41-45 | the error is zero exactly when no session id, node count, cpu count or memory size fails to convert, and otherwise the code of the first one that does |
| Directives.LastOfIsLast | src/tools/dsched/session.c:30-135 | a later directive overrides an earlier one of its kind |
| Directives.RecordsNumbers | src/tools/dsched/session.c:46-101 | a session id, node count, cpu count or memory size that converts is recorded if no later one of its kind converts, the counts as 32-bit integers |
| Directives.RecordsTexts | src/tools/dsched/session.c:102-134 | a text or a flag is recorded under its own key if none of that key follows |
| Directives.KeepsDefaults | src/include/dsched_globals.c:275-308 | a number that no directive gives is that of the constructor: no session, or zero |
| Directives.KeepsAbsent | src/include/dsched_globals.c:275-308 | a text or a flag that no directive gives is absent |
| Directives.DescriptionIsUnique | src/tools/dsched/session.c:30-135 | what the loop is proved to compute leaves no freedom |
| Directives.ToInt32 | src/tools/dsched/session.c:62 | the cast of an unsigned 64-bit count to int is congruent modulo 2^32 and in range, and exact for small counts |
| Selection.Framework.Select | src/mca/dsched/base/sched_base_select.c:42-108 | after the first call the list holds exactly the components that were queried and initialised, by descending priority with ties in discovery order; a second call changes nothing |
| Selection.InsertKeepsSelection | src/mca/dsched/base/sched_base_select.c:93-105 | inserting before the first entry of smaller priority keeps that order |
| Selection.SelectionIsUnique | src/mca/dmeta/base/meta_base_select.c:42-108 | there is only one such list, so both frameworks compute the stable sort |
| Selection.HighestPriorityWins | src/mca/dsched/base/sched_base_select.c:93-105 | with the schedulers in selection order, a completed request's allocation comes from a scheduler whose priority no other answering scheduler exceeds |
| InstallTokens.OccurrenceIsToken | src/mca/dinstalldirs/base/dinstalldirs_base_expand.c:33-43 | in a string of well-formed references, strstr finds a reference only where one was written |
| InstallTokens.TokenOccurs | src/mca/dinstalldirs/base/dinstalldirs_base_expand.c:33-43 | and it finds every reference that was written |
| InstallTokens.UniqueTokens | src/mca/dinstalldirs/base/dinstalldirs_base_expand.c:31-54 | a string can be read as references and plain characters in one way only |
| InstallTokens.ReplaceKeepsFull | src/mca/dinstalldirs/base/dinstalldirs_base_expand.c:34-42 | replacing one reference by its field keeps the recursive expansion and leaves one replacement less to do |
| InstallLoop.Expand | src/mca/dinstalldirs/base/dinstalldirs_base_expand.c:31-54 | one macro replaces the first reference to its field, the dollar form before the other, and changes nothing without one |
| InstallLoop.ExpandAll | src/mca/dinstalldirs/base/dinstalldirs_base_expand.c:132-149 | one turn of the loop applies the macros of all fields in order and notes whether any changed the string |
| InstallLoop.Rewrite | src/mca/dinstalldirs/base/dinstalldirs_base_expand.c:115-151 | for every string on which the loop ends it returns the end, which refers to no field |
| InstallLoop.UnchangedPass | src/mca/dinstalldirs/base/dinstalldirs_base_expand.c:131-150 | a turn of the loop changes nothing exactly when the string refers to no field |
| InstallLoop.OneEnd | src/mca/dinstalldirs/base/dinstalldirs_base_expand.c:131-150 | the loop has at most one end |
| InstallLoop.ExpansionIsFinal | src/mca/dinstalldirs/base/dinstalldirs_base_expand.c:131-150 | the end refers to no field, and expanding it again gives it back |
| InstallMeaning.MacroOnTokens | src/mca/dinstalldirs/base/dinstalldirs_base_expand.c:31-54 | what a macro does to the string is replacing one reference by its field's value |
| InstallMeaning.GoesRound | src/mca/dinstalldirs/base/dinstalldirs_base_expand.c:131-150 | from a string that refers into a circle of fields, after any number of turns there is a reference left and the loop goes on |
| InstallMeaning.EndsWithFull | src/mca/dinstalldirs/base/dinstalldirs_base_expand.c:131-150 | if the fields that the string leads to can be ranked along their references, the loop ends with the recursive substitution, whatever the other fields are |
| InstallMeaning.StopsUnlessCircular | src/mca/dinstalldirs/base/dinstalldirs_base_expand.c:131-150 | the loop ends on a string if and only if no circle of fields is reached from it, and then with the recursive substitution, in any field order |
| InstallMeaning.RankedUnlessCircular | src/mca/dinstalldirs/base/dinstalldirs_base_expand.c:131-150 | fields can be ranked along their references if and only if none of them refer to each other in a circle |
| InstallDirs.SelfReference | src/mca/dinstalldirs/base/dinstalldirs_base_expand.c:131-150 | with a field that refers to itself, the loop does not end on that field and does on another |
| InstallDirs.MeaningOfString | src/mca/dinstalldirs/base/dinstalldirs_base_expand.c:131-150 | the substitution depends on the string alone, not on how it is read |
| InstallDirs.ExpandSetup | src/mca/dinstalldirs/base/dinstalldirs_base_expand.c:108-160 | with DESTDIR set, a string becomes DESTDIR followed by its expansion, although the fields carry DESTDIR already |
| InstallDirs.ExpandInPlace | src/mca/dinstalldirs/base/dinstalldirs_base_components.c:87-110 | without DSCHED_DESTDIR every field becomes its full expansion, however deep the references go and whichever fields they are to, if no fields refer to each other in a circle; with it, if every field refers to fields before it only, every field becomes DESTDIR, once, followed by its full expansion |
| InstallDirs.RightExactlyInOrder | src/mca/dinstalldirs/base/dinstalldirs_base_components.c:87-110 | the pass gives every full expansion whenever there is no DSCHED_DESTDIR or every field refers to fields before it only; with a DESTDIR longer than every field it does so if and only if every field refers to fields before it only |
| InstallDirs.RightForEveryDestdir | src/mca/dinstalldirs/base/dinstalldirs_base_components.c:87-110 | the pass gives every full expansion for every absolute DESTDIR if and only if every field refers to fields before it only |
| InstallMeaning.ShortValueHasNoEnd | src/mca/dinstalldirs/base/dinstalldirs_base_expand.c:37 | a string has no defined outcome if the first field that it refers to without being readable is shorter than what is skipped |
| InstallDirs.ValueOfAnyRank | src/mca/dinstalldirs/base/dinstalldirs_base_expand.c:131-150 | the full expansion of a field does not depend on how the fields are ranked |
| InstallDirs.LaterReference | src/mca/dinstalldirs/base/dinstalldirs_base_expand.c:37 | with a DESTDIR of two characters, a first field that refers to the second, "/usr", ends as "sr" |
| InstallDirs.WrittenReference | src/mca/dinstalldirs/base/dinstalldirs_base_expand.c:31-54 | references are written as ${exec_prefix} and @{prefix} |
| InstallDirs.Merge | src/mca/dinstalldirs/base/dinstalldirs_base_components.c:46-85 | each field keeps what was there, and otherwise gets the value of the first component that has one |
| InstallDirs.FirstGivenIsFirst | src/mca/dinstalldirs/base/dinstalldirs_base_components.c:46-85 | the value given is that of a component before which none has one, and there is none exactly if no component has one |
| McaParams.EnvNameInjective | src/runtime/dsched_mca_params.c:272-290 | a PMIx parameter is set as PMIX_MCA_ and its name, any other as DSCHED_MCA_ and its name, so distinct parameters never share an environment variable |
| McaParams.FirstIsFirst | src/runtime/dsched_mca_params.c:212-239 | the first entry of a name is one that no entry of that name precedes |
| McaParams.LastIsLast | src/runtime/dsched_mca_params.c:271-290 | the last entry of a name is one that no entry of that name follows |
| McaParams.EarlierFileFirst | src/runtime/dsched_mca_params.c:180-210 | of several files the first one that holds a name gives its first entry |
| McaParams.PreloadFails | src/runtime/dsched_mca_params.c:167-250 | the load fails exactly when a file that is there cannot be read, with the code of the first such one, the override file coming last |
| McaParams.LastOptionIsLast | src/runtime/dsched_mca_params.c:319-367 | an option sets the variable of its prefix and of the text before its first equals sign to the text after it, and the last one counts |
| McaParams.Environment.CrossCheck | src/runtime/dsched_mca_params.c:212-239 | after the list moves, the first entry for a name is the first user entry, else the first system entry, whatever the duplicates |
| McaParams.Environment.RewriteDefaults | src/runtime/dsched_mca_params.c:254-269 | every default whose name has an override takes the value of the first one |
| McaParams.Environment.ReadDefaults | src/runtime/dsched_mca_params.c:180-210 | the files are read in order, a missing one is no error, and the first unreadable one ends it with its code |
| McaParams.Environment.PreloadDefaults | src/runtime/dsched_mca_params.c:167-317 | each parameter gets its last override entry, else keeps its environment value, else gets its default; on an error nothing changes |
| McaParams.Environment.ProcessCli | src/runtime/dsched_mca_params.c:319-367 | the last command-line entry of a variable wins, the dmca option before the mca option, and no other variable changes |
| McaParams.Environment.Load | src/tools/dsched/dsched.c:332-335 | both together, as at start-up, are one layered override per parameter: command line, override file, environment, user default, system default; when a file cannot be read the command line still overrides the environment, because the status is ignored; every other variable is unchanged |
| McaParams.SetByName | src/runtime/dsched_mca_params.c:271-313 | which entry sets a variable is decided by the parameter's name alone |
| McaParams.CrossCheckStep | src/runtime/dsched_mca_params.c:214-234 | one turn of the cross-check keeps the value that each name will get |
| HashString.HashStrlen | src/include/dsched_hash_string.h:31-48 | the macro's hash is the hash of the C string, and its length is the string's length modulo 2^32 |
| HashString.HashStr | src/include/dsched_hash_string.h:56-70 | the other macro gives the same hash |
| HashString.StateAppend | src/include/dsched_hash_string.h:34-41 | the hash starts from 0, and each character is added modulo 2^32 and mixed in, in order |
| HashString.MixBits | src/include/dsched_hash_string.h:40-41 | bit k after mixing is set exactly when bits k and k + 6 of 1025 times the word, modulo 2^32, differ |
| HashString.FinishBits | src/include/dsched_hash_string.h:44-46 | the end multiplies by 9, makes of bit k the difference of bits k and k + 11, and multiplies by 32769, modulo 2^32 |
| HashString.ExtendIsSigned | src/include/dsched_hash_string.h:39 | a char is added as its value, a signed one from 128 on as that less 256 |
| HashString.HashOfLetter | src/include/dsched_hash_string.h:34-46 | the hash of "a" is 0xCA2E9442 |
| HashString.XorIsBitwise | src/include/dsched_hash_string.h:41 | the exclusive or of the model sets bit k exactly when the two bits k differ |
| HashString.MixInjective | src/include/dsched_hash_string.h:40-41 | the mixing of one round can be undone modulo 2^32 |
| HashString.FinishInjective | src/include/dsched_hash_string.h:44-46 | the finaliser can be undone modulo 2^32 |
| HashString.CommonSuffixCancels | src/include/dsched_hash_string.h:31-48 | strings with a common suffix collide exactly when they collide without it |
| HashString.OneChangedCharacter | src/include/dsched_hash_string.h:31-48 | strings of one length that agree in all but one position collide exactly when they agree there too, for signed and unsigned char |
| Attributes.UnloadValue | src/util/dsched_attr.c:364-533 | which refusal comes when, in the order of the checks; a NULL process or namespace has no defined outcome; anything else is copied unchanged, an empty byte object as NULL |
| Attributes.AttributeList.GetAttribute | src/util/dsched_attr.c:33-57 | a lookup answers from the first item of the key, and fails on a type mismatch |
| Attributes.AttributeList.SetAttribute | src/util/dsched_attr.c:59-99 | setting replaces the first item of the key in place, removes it for a false flag, or appends; a mismatch or an unknown type changes nothing |
| Attributes.AttributeList.PrependAttribute | src/util/dsched_attr.c:140-154 | prepending puts a new item first |
| Attributes.AttributeList.RemoveAttribute | src/util/dsched_attr.c:156-168 | removing takes out the first item of the key only |
| Attributes.OperationOnStacks | src/util/dsched_attr.c:33-168 | an operation acts on the stack of its own key: prepend pushes, remove pops, get peeks, set replaces the top; every other key's stack is untouched |
| Attributes.RunsAreStacks | src/util/dsched_attr.c:33-168 | over any sequence of operations, each key ends with and shows what its own operations do to its own stack |
| Attributes.LoadThenUnload | src/util/dsched_attr.c:188-533 | a loaded value of a supported type unloads unchanged, except that an empty byte object becomes NULL |
| Attributes.LoadNothing | src/util/dsched_attr.c:188-226 | loading without data leaves a set flag, zero or NULL |
| Attributes.SetThenGet | src/util/dsched_attr.c:59-99 | a value that was set is read back unchanged, an empty byte object as NULL, and no value as a set flag, zero or NULL, whatever is done to other keys in between; what was below the item that it replaced stays |
| Attributes.PrependThenRemove | src/util/dsched_attr.c:140-168 | removing a prepended item brings back what it hid, whatever is done to other keys in between |
| Attributes.ClearingAFlag | src/util/dsched_attr.c:73-82 | a flag set to false is gone exactly when it was the only entry of its key; else the next entry shows, and an absent flag is stored as false |
| Attributes.SetsKeepKeysUnique | src/util/dsched_attr.h:45-47 | without prepending no key ever has two items |
| Attributes.LookupsAreDefined | src/util/dsched_attr.c:488-502 | over any sequence in which no process or namespace is loaded without data, every lookup has a defined outcome |
| Attributes.UndefinedLookups | src/util/dsched_attr.c:488-502 | after any sequence of operations a lookup has no defined outcome if and only if the operations on its key leave on top an entry that was loaded without data as a process or a namespace, and the lookup asks for that type and has a place |
| Attributes.NullLoadedThenUndefined | src/util/dsched_attr.c:488-502 | loading a process or a namespace without data leads to such a lookup, whatever is done to other keys in between |
| Attributes.ClearedFlagShows | src/util/dsched_attr.c:73-82 | a flag that was prepended twice is still found set after it has been set to false |
| ProgressThreads.Registry.ThreadInit | src/runtime/dsched_progress_threads.c:176-236 | a tracked name gives its event base and counts a use; a new one is appended with a new base when starting its thread is reported to succeed, and nothing is tracked otherwise |
| ProgressThreads.Registry.ThreadFinalize | src/runtime/dsched_progress_threads.c:238-267 | the tracker of the name is removed with its thread and base whatever its count |
| ProgressThreads.Registry.ThreadPause | src/runtime/dsched_progress_threads.c:272-295 | the thread of the name stops, or with NULL every thread; nothing else changes |
| ProgressThreads.Registry.ThreadResume | src/runtime/dsched_progress_threads.c:297-323 | an idle tracker becomes active and its thread is started, with what starting reports, even if nothing runs; an active one is busy |
| ProgressThreads.StepKeepsInv | src/runtime/dsched_progress_threads.c:113-323 | an operation keeps names and bases distinct, exactly the tracked bases allocated and exactly the active ones running, if and only if it is no faulty start: a new thread unbound or not created unnoticed, or a resumed one not created, noticed or not |
| ProgressThreads.RunKeepsInv | src/runtime/dsched_progress_threads.c:176-323 | that holds all through a run if and only if no start in the run is faulty |
| ProgressThreads.StepOnEntry | src/runtime/dsched_progress_threads.c:176-323 | the tracker of a name changes only by the operations on that name and by pausing all, however threads start |
| ProgressThreads.CountsInits | src/runtime/dsched_progress_threads.c:186-195 | in every run a name is tracked exactly when it was successfully initialised since it was last finalised, and its count is the number of those calls |
| ProgressThreads.ResultsInRun | src/runtime/dsched_progress_threads.c:176-267 | in every run an initialisation fails exactly when the name has no use and there is no memory or starting is reported to fail, and finalising succeeds exactly when the name has a use |
| ProgressThreads.SameBase | src/runtime/dsched_progress_threads.c:186-195 | until a name is finalised every initialisation returns the base that it was created with, however threads start |
| ProgressThreads.FinalizeIsNotCounted | src/runtime/dsched_progress_threads.h:33-43 | a run keeps the promised reference counting for a name exactly when it never finalises the name with more than one use left |
| ProgressThreads.StatusesAsPromised | src/runtime/dsched_progress_threads.h:45-67 | when exactly pausing and resuming return the documented status, and that a successful resume leaves the thread running unless the failure to start it was hidden |
| ProgressThreads.PauseThenResume | src/runtime/dsched_progress_threads.h:45-67 | resuming a paused thread restores the whole state |
| ProgressThreads.PauseAllThenResume | src/runtime/dsched_progress_threads.c:284-305 | after pausing and resuming with NULL only the shared thread runs |
| ProgressThreads.FaultyStarts | src/runtime/dsched_progress_threads.c:140-173 | an unbound thread runs on a base that is gone, and one whose failure was hidden is tracked without running |
| ProgressThreads.FailedResume | src/runtime/dsched_progress_threads.c:140-173 | a paused thread that cannot be created again fails to resume, is tracked as active without running, and resuming it again finds it busy |
| ProgressThreads.FinalizedTooEarly | src/runtime/dsched_progress_threads.c:252-263 | a name with two uses is gone after one finalisation |
| ProgressThreads.PausedUnknownName | src/runtime/dsched_progress_threads.c:272-323 | pausing a name that was never initialised succeeds, and pausing all is not undone by resuming with NULL |
| NodeMatch.CheckHostIsLocal | src/include/dsched_globals.c:56-74 | a name is local exactly when it is the hostname, a loopback name or an alias of this host |
| NodeMatch.MatchInList | src/include/dsched_globals.c:77-122 | the lookup returns the first node with the id, or of the name with local names standing for the hostname, or with the alias; none exactly when no node qualifies |
| NodeMatch.MatchInPool | src/include/dsched_globals.c:77-152 | in the pool an id that is a filled position wins, and otherwise the first node found by name; none exactly when no node qualifies |
| NodeMatch.NptrMatch | src/include/dsched_globals.c:154-181 | with an alias on the first node, two nodes match exactly when their names and aliases intersect, otherwise when their names are equal |
| NodeMatch.SymmetricUnlessOneSided | src/include/dsched_globals.c:154-181 | the comparison is symmetric except for exactly the pairs where one node has no alias and its name is an alias of the other |
| NodeMatch.AsymmetricPair | src/include/dsched_globals.c:154-181 | a pair for which it is not symmetric |
| NodeMatch.LookupIsMatch | src/include/dsched_globals.c:100-117 | a lookup of the name of a node without aliases finds exactly the nodes that match it, or, if the name is local, those of the hostname and those that have it as an alias |
| MaxValue.ComputeMaxValue | config/dsched_functions.m4:350-389 | for every byte count and every wrapping width of 8 bits or more the loop ends with the largest value of min(8n, W) bits, and flags overflow exactly when 8n exceeds W, if and only if the bit count is not misread after wrapping around |
| MaxValue.FoundIsRight | config/dsched_functions.m4:350-389 | the bit count is never misread when the shell can hold it |
| MaxValue.WrapIsCongruent | config/dsched_functions.m4:350-389 | wrapping changes a number by a multiple of 2^w |
| MaxValue.MisreadInput | config/dsched_functions.m4:350-389 | with 16-bit arithmetic 8193 bytes give 127 and no overflow |
| WordWrap.WrapTokens | contrib/construct_constants.py:173-191 | the loop over the tokens puts each escaped token into the current string or starts a new one |
| WordWrap.WrapLine | contrib/construct_constants.py:197-229 | the loops over one comment line put its words in their order; a text of one character adds none |
| WordWrap.EscapeIsFaithful | contrib/construct_constants.py:173-229 | escaping puts a backslash before every quote and changes nothing else |
| WordWrap.TextWordsAreTheText | contrib/construct_constants.py:197-229 | the words of a comment line have no spaces, and joined by single spaces they are its escaped text |
| WordWrap.LinesInOrder | contrib/construct_constants.py:192-229 | the words of several comment lines follow each other in the order of the lines |
| WordWrap.Describe | contrib/construct_constants.py:173-236 | the strings written for words that are not empty are the chunks of the greedy wrapping |
| WordWrap.GreedyWraps | contrib/construct_constants.py:180-191 | the greedy wrapping keeps all words in order, and every chunk has at most 53 characters or is a single word |
| WordWrap.GreedyIsBest | contrib/construct_constants.py:180-191 | no such wrapping of the same words has fewer chunks |
| WordWrap.PutIsGreedy | contrib/construct_constants.py:180-191 | what is written and what is pending are the greedy chunks at every moment |
| WordWrap.WordsKept | contrib/construct_constants.py:204-229 | all words of the comment lines are kept exactly when no line's text is a single character |
| WordWrap.LostWord | contrib/construct_constants.py:204-229 | the only word of the comment line "// a" is lost |

## Left out

- PMIx, libevent and hwloc: lists are sequences, pointer arrays are sparse arrays whose add takes any free slot, a thread shift queues an event, and number conversion of directive values is a parameter.
- Modules other than `pri` and the FIFO: every meta module that accepts behaves like `pri`, and schedulers other than the FIFO answer arbitrarily.
- The available node count and the node pool, which no code of this model sets, are parameters of each FIFO step.
- A NULL request as a trigger for scheduling, which no code of this model produces.
- Ownership of allocation objects, caddies and trackers: reference counts are those of requests and meta objects; the caddy and its tracker are one object, and the release of the tracker when every scheduler refuses is not modelled.
- The text, flag and time fields of a request beyond their last value, and the directive code of a request.
- A directive value that is not of the type its key calls for, other than a number that does not convert.
- Out of memory, except for a new progress thread.
- Malformed references: a sigil that stands just before another sigil, at the end of the text, or before an opening brace without a name is not covered by the token reading.
- `pmix_os_path` on anything but two absolute paths, which it concatenates; so an empty or relative DSCHED_DESTDIR, and fields that do not expand to an absolute path.
- Fields left NULL when the install directories are expanded.
- Command-line parameters without an equals sign, for which the code has no defined behaviour; the warnings about overridden parameters.
- `dsched_fetch_attribute`, printing of attributes, and PMIX_DATA_ARRAY values; an ENVAR with a NULL member set over an existing one, which would keep a pointer to freed memory; the truncation of long namespaces.
- ProgressThreads.Registry.ThreadInit: the CPU affinity list is not parsed; whether a thread starts, whether it is bound and what is reported are parameters. Stopping a tracker whose thread was never created, which the code joins all the same, only marks it idle.
- Trackers, attributes and the daemon's objects are values held in sequences that the methods update, so aliasing between C pointers to one object is by index only.
- The generator around the descriptions (types, keys, output formatting), and a comment line without a text, at which it fails.
- Session control, queries, logging, metrics, dynamic loading, session directories and start-up: plumbing, or copies of the selection algorithm.
