# Models of the platform's stateful algorithms

The repository is a self-hosted AI platform. Most of it moves data between a database, HTTP
endpoints and containers; a few places hold small algorithms that many tasks share or that
rest on a non-obvious argument. This project models those in Dafny and proves what they keep,
what they return and where they fall short. `dafny verify dfyconfig.toml` checks everything.

| module | what it models |
|---|---|
| `ProviderSlots`, `Affinity`, `Failover`, `Dispatcher`, `DispatcherRuns`, `SlotRegistry` | the LLM dispatcher: provider slots with a semaphore and a hand-kept counter, caller affinity, failover, creation of slots |
| `VideoService` | the LTX and Wan video services: request threads and the idle watcher over shared globals, two locks and a semaphore |
| `SnapshotRepair` | the repair of transient dips in portfolio snapshots |
| `JsonBlock`, `DiscoveryCache` | the script runner's header scanner and its cached directory scan |
| `StreamDrain` | the script runner's capped reader of subprocess output |
| `TextScan`, `ToolBridge`, `ToolCalls` | the Claude CLI bridge's `<tool_call>` protocol: matching, stripping, reading, deduplicating |
| `Segmenter` | Bark's splitting of long texts |
| `Browser` | the sandbox's shared browser page and its idle reaper, with time |
| `Hermes` | the Hermes adapter's transcript window, end markers and rounds |
| `Slugs` | blog slugs: making, finding a free one, inserting against concurrent inserts |
| `Common`, `Text` | shared datatypes, sequences, numerals, white space |

How the models are built:

* Code shared between tasks is a transition system. `Dispatcher` has one step per stretch of
  code between two awaits; the services use threads, so `VideoService` has one step per read or
  write of a global; `SlotRegistry` splits at the lock and the query; `Browser` splits at awaits
  and lets time pass in between. Theorems are about every reachable state of every run.
* Loops and classes of the source are methods and classes, each proved against a function of the
  inputs or of the old state. The laws are then lemmas about that function.
* The semaphore is CPython 3.12's `asyncio.Semaphore`: a woken waiter stays in line until it runs,
  and a newcomer lines up behind it even if a permit is free.
* The database is a finite map or sequence, a provider or agent is an arbitrary outcome, JSON
  decoding, canonical JSON text, Unicode folding and `str.upper` are parameters.

Where a property fails, the model keeps the code as it is, and the exact condition is proved:

* `_waiters` is not always restored. A call cancelled inside `await slot.acquire()` is outside the
  `try`, so its unit is never given back; by `Dispatcher.LeakExactlyFromQueuedCancel` the counter is off
  by exactly the number of such calls, and `DispatcherRuns.CancelledInLineLeaks` is a run with one.
* Calls of one lab that overlap may meet at one provider. A caller without a pin goes exactly to the
  first of the least loaded candidates nobody else has pinned (`Affinity.FirstChoiceExactly`), so a
  second overlapping call meets the first exactly when the first one's provider is still that candidate
  (`Affinity.OverlappingFirstCalls`, and `DispatcherRuns.OverlappingStarts` over whole runs). With
  unchanged loads and rows they always meet; once the first has lined up they part exactly under the
  condition of `Affinity.QueuedFirstCallSpreads`. The query fixes no order, so each call has rows of its own.
* The suffix loop for slugs makes at most one lookup more than there are rows, except for a base of
  180 characters that ends in a suffix the loop will try; then it can be two
  (`Slugs.OneMoreLookupExactly`, with such a title in `Slugs.SelfCandidateSlugExists`).
* A slug made into a slug again changes exactly when the cut at 180 characters left a dash at its end
  (`Slugs.SlugifyAgain`, with such a title in `Slugs.CutSlugChangesAgain`).
* The idle time of the browser counts from the last successful use. Until another operation starts, a look
  of the reaper closes the page exactly when the idle time has passed since the end of the operation if that
  succeeded, and since the `last_used` it ran under if it failed; so a look sooner after the end closes it
  exactly behind a failed operation for which that time ran out (`Browser.LookAfterOperation`). With a
  reaper that waits for the lock this happens with no time between
  (`Browser.FailedOperationIsFollowedByClose`).
* The cached directory scan can be stale, and a call can raise and leave the cache as it was. Over any run, a
  call does what a fresh scan would, whatever the headers mean, if and only if its files have not changed under
  their signature since an earlier call whose scan every call in between may have left in the cache, because
  it saw that signature or something new that can make it raise
  (`DiscoveryCache.FreshExactlyWhenNothingSlipsBy`); `DiscoveryCache.EditWithinOneTick` is a stale call.
* The capped reader of subprocess output does not always drain the stream: it raises exactly when some
  line is longer than the stream reader's own limit (`StreamDrain.DrainStream`).
* Bark's splitting is optimal for texts without white space around them. White space in front costs one
  segment exactly when it keeps the second sentence out of the first segment and the other sentences need as
  many segments without the first; white space behind costs one exactly when the last sentence has no mark
  and fits into the open segment without the white space only. The split needs exactly that many segments
  more than the best grouping (`Segmenter.SplitCostsExactly`); `Segmenter.PaddingCostsTwo` is a text that
  pays for both, at the default limit and any other from seven characters on.

* The video services' watcher can unload a model that was just in use: its test of the idle time is not repeated
  under the lock. It unloads only after it has found the model idle, and unless a request was counted since
  (`VideoService.OnlyIdleIsUnloaded`) it still is; a request that comes and goes in between is the exception
  (`VideoService.StaleCheckUnloads`).

Where documentation and code differ, the models follow the code:

* `docs/DISPATCHER_AND_MODEL_ROUTING.md:109-118` gives four permits to every type but Ollama; the
  code gives four to three types, two to `claude_cli` and one to the rest. `vllm` is among the three,
  but such rows are refused by the provider factory (`SlotRegistry.VllmIsNeverRegistered`).
* The same file, lines 95-96 and 179-180, has `queue` logged per provider and `dispatch` once the
  permit is held; the code logs `queue` once per call and `dispatch` before acquiring.
* The branch of the browser reaper that finds no page cannot be reached
  (`Browser.ReaperFindsThePage`).
* The Hermes protocol text asks for a last line containing exactly `TASK_DONE`; the code accepts any
  of the last two non-blank lines that ends with it.

## Model

| member | source | states |
|---|---|---|
| ProviderSlots.BeginAcquireValid | control-plane/app/services/lab_dispatcher.py:119-121 | entering `acquire` keeps permits conserved and the counter equal to queued, granted and active calls, and lists exactly the new call |
| ProviderSlots.FinishAcquireValid | control-plane/app/services/lab_dispatcher.py:119-121 | the end of the wait makes the call active, keeps the slot valid and wakes nobody wrongly |
| ProviderSlots.ReleaseValid | control-plane/app/services/lab_dispatcher.py:123-125 | a release undoes the acquire: exactly the caller leaves, the slot stays valid |
| ProviderSlots.AbandonValid | control-plane/app/services/lab_dispatcher.py:119-121 | cancellation inside `acquire` keeps the permits right and leaves one unit on the counter |
| ProviderSlots.AbandonOrder | control-plane/app/services/lab_dispatcher.py:119-121 | one waiter's cancellation does not let a third overtake a second |
| ProviderSlots.ProviderSlot.Acquire | control-plane/app/services/lab_dispatcher.py:119-121 | statement by statement, `acquire` up to its wait has the effect the slot model gives it |
| ProviderSlots.ProviderSlot.CancelAcquire | control-plane/app/services/lab_dispatcher.py:119-121 | statement by statement, cancellation while waiting cleans up the semaphore and not the counter |
| ProviderSlots.ProviderSlot.ReleasePermit | control-plane/app/services/lab_dispatcher.py:123-125 | statement by statement, `release` has the effect the slot model gives it |
| Affinity.StableSortCorrect | control-plane/app/services/lab_dispatcher.py:210-249 | the sort used for candidates is a sorted permutation that keeps equal keys in order |
| Affinity.StableSortUnique | control-plane/app/services/lab_dispatcher.py:210-249 | that contract leaves only one possible order |
| Affinity.OrderIsPermutation | control-plane/app/services/lab_dispatcher.py:184-249 | ordering by load and affinity drops no candidate and invents none |
| Affinity.TieredEntries | control-plane/app/services/lab_dispatcher.py:213-249 | the result is sorted by tier, then depth, with every candidate under its own tier |
| Affinity.FirstChoice | control-plane/app/services/lab_dispatcher.py:221-247 | the first candidate is the caller's own pin; failing that, the least loaded provider nobody else in the lab has pinned |
| Affinity.AffinitySpreadsCallers | control-plane/app/services/lab_dispatcher.py:187-249 | over any sequence of non-overlapping answered calls, whatever the loads and the order of the rows at each, with no more callers than candidates, the lab's pins stay one-to-one and no pin moves |
| Affinity.SpreadExactlyWhenProvidersSuffice | control-plane/app/services/lab_dispatcher.py:187-249 | from an unpinned lab the pins end one-to-one if and only if there are at least as many providers as callers |
| Affinity.TwoSortsAreOne | control-plane/app/services/lab_dispatcher.py:209-249 | sorting by load and then by tier and load gives the order of one stable sort of the rows |
| Affinity.FirstChoiceExactly | control-plane/app/services/lab_dispatcher.py:209-249 | an unpinned caller tries a provider first if and only if it is the first, in row order, of the least loaded candidates nobody else has pinned |
| Affinity.OrderExactly | control-plane/app/services/lab_dispatcher.py:209-249 | the whole order of any call, with a lab or without: own pin first and what others have pinned last, then by load, then as the query gave the rows |
| Affinity.FirstWithoutLab | control-plane/app/services/lab_dispatcher.py:210-227 | a call without a lab tries a provider first if and only if it is the first of the least loaded rows |
| Affinity.OverlappingFirstCalls | control-plane/app/services/lab_dispatcher.py:305-306 | of two overlapping first calls, each with its own rows and loads, the second meets the first, and the pins stop being one-to-one, if and only if the first one's provider is still that candidate for the second |
| Affinity.OverlappingFirstCallsCollide | control-plane/app/services/lab_dispatcher.py:305-306 | two unpinned callers that sort the same rows at the same loads get the same order |
| Affinity.QueuedFirstCallSpreads | control-plane/app/services/lab_dispatcher.py:305-306 | once the first has lined up, the second goes elsewhere if and only if another free candidate had the same load, or one unit more and an earlier row in the second one's rows |
| Affinity.AffinityTable.Record | control-plane/app/services/lab_dispatcher.py:409-411 | in its lab the caller has the provider and all others what they had; other labs, and calls without a lab, see no change |
| Affinity.AffinityTable.ClearLab | control-plane/app/services/lab_dispatcher.py:96-100 | clearing a lab removes exactly that lab's pins |
| Affinity.AffinityTable.Sort | control-plane/app/services/lab_dispatcher.py:213-249 | the method computes the affinity order without touching the table |
| Failover.ReadShape | control-plane/app/services/lab_dispatcher.py:310-443 | a log accepted by the automaton is `queue (dispatch failed)* (dispatch response)?`, event by event, with strictly increasing attempt numbers within the maximum |
| Failover.FirstOccurrencesDistinct | control-plane/app/services/lab_dispatcher.py:326-329 | skipping tried providers leaves each provider once, and all of them |
| Failover.CallWithLoadbalance | control-plane/app/services/lab_dispatcher.py:305-450 | contacts distinct providers in order, returns the first success, fails only after all failed, and logs an accepted log that names them |
| Dispatcher.RunKeeps | control-plane/app/services/lab_dispatcher.py:305-450 | in every reachable state, slots, calls and logs agree |
| Dispatcher.SlotAccounting | control-plane/app/services/lab_dispatcher.py:103-125 | in every interleaving at most `concurrency` calls are active, permits are conserved, and the counter is queued plus active plus the calls cancelled in the queue |
| Dispatcher.QuiescentSlots | control-plane/app/services/lab_dispatcher.py:366-445 | with no call in flight every slot is as created, but for the units of cancelled waiters |
| Dispatcher.LeakExactlyFromQueuedCancel | control-plane/app/services/lab_dispatcher.py:366-367 | the counter exceeds the queued and active calls by exactly the number of calls cancelled inside `acquire` of that slot, so if and only if there was one |
| DispatcherRuns.CancelledInLineLeaks | control-plane/app/services/lab_dispatcher.py:366-367 | a run that ends with no call in flight and the counter at one |
| Dispatcher.CallTrace | control-plane/app/services/lab_dispatcher.py:323-450 | in every interleaving a call contacts each provider at most once, in its order, answers with the last one contacted, and gives up only after all failed |
| Dispatcher.NoHoldAndWait | control-plane/app/services/lab_dispatcher.py:366-445 | no call waits at one slot while it holds another's permit |
| Dispatcher.Progress | control-plane/app/services/lab_dispatcher.py:326-445 | while a call is in flight some call can take a step, provided provider calls return |
| Dispatcher.CallsTerminate | control-plane/app/services/lab_dispatcher.py:326-450 | a started call ends within six steps of its own per candidate and one more |
| Dispatcher.NoOvertaking | control-plane/app/services/lab_dispatcher.py:119-125 | first come, first served at every slot, over whole runs |
| DispatcherRuns.WaitIsBounded | control-plane/app/services/lab_dispatcher.py:119-125 | a call with n others before it in line has been handed a permit, or was cancelled, by the time more than n permits have been handed out at its provider |
| DispatcherRuns.OverlappingStarts | control-plane/app/services/lab_dispatcher.py:305-306 | in any run a call of an unpinned caller meets an earlier call's first choice, each having read its own rows, if and only if that is, when it starts, the first of the least loaded free candidates |
| DispatcherRuns.CallAlone | control-plane/app/services/lab_dispatcher.py:305-445 | a call that runs alone is answered by its first provider, leaves every slot as it was, and pins as a visit does |
| DispatcherRuns.CallsAloneAreVisits | control-plane/app/services/lab_dispatcher.py:305-445 | whole runs of such calls, each with its own rows, change the pins as the sequence of visits does |
| DispatcherRuns.CallsAloneSpread | control-plane/app/services/lab_dispatcher.py:305-445 | over the dispatcher's steps, calls that do not overlap leave every caller of an unpinned lab its own provider if and only if there are at least as many providers as callers |
| Dispatcher.PinsAreEarned | control-plane/app/services/lab_dispatcher.py:409-411 | every pin comes from the latest answered call of that lab and caller, with no clearing since |
| Dispatcher.PinnedExactly | control-plane/app/services/lab_dispatcher.py:96-100 | over any run a caller is pinned to a provider if and only if some call of it was answered there, and since then neither was its lab cleared nor another call of it answered |
| Dispatcher.OrderIsFixedAtStart | control-plane/app/services/lab_dispatcher.py:305-307 | a call works through the affinity order of the moment it started, however loads and pins change |
| Dispatcher.LoadIsCalls | control-plane/app/services/lab_dispatcher.py:114-117 | the load that candidates are sorted by is the calls in line or holding a permit there, and what calls cancelled in line have left |
| Dispatcher.UnroutableExactly | control-plane/app/services/lab_dispatcher.py:198-207 | a call ends without an attempt if and only if it started with no candidate |
| SlotRegistry.OneSlotPerProvider | control-plane/app/services/lab_dispatcher.py:134-182 | in every interleaving two callers get the same slot object exactly when they ask for the same provider |
| SlotRegistry.RegistrationIsFinal | control-plane/app/services/lab_dispatcher.py:136-142 | a registered slot is never replaced or dropped |
| SlotRegistry.CreationIsExclusive | control-plane/app/services/lab_dispatcher.py:139-142 | at most one task is between the second check and the registration, the query's await included |
| SlotRegistry.SlotsComeFromUsableRows | control-plane/app/services/lab_dispatcher.py:144-180 | a registered slot was built from a row that was active, approved and of a known non-media type when it was read, with that type's permits |
| SlotRegistry.AskedAfterWrite | control-plane/app/services/lab_dispatcher.py:134-182 | a task that asks alone gets a slot if and only if the row last written for the provider is active, approved and of a served type, with that type's number of permits; otherwise it raises for the right reason and registers nothing |
| SlotRegistry.RegisteredIsReturned | control-plane/app/services/lab_dispatcher.py:136-137 | a registered slot is handed out without a look at the database |
| SlotRegistry.VllmIsNeverRegistered | control-plane/app/services/llm_provider.py:939-957 | no slot is ever built for a `vllm` row |
| VideoService.GenerationIsExclusive | gpu-services/ltx-video-api/app.py:313-451 | at most one request is between taking and returning the semaphore |
| VideoService.PipelineStaysLoaded | gpu-services/ltx-video-api/app.py:193-206 | from the return of `_ensure_model` to the decrement the request's pipeline stays loaded, although the watcher's first check may be stale |
| VideoService.RequestSurvivesWatcher | gpu-services/ltx-video-api/app.py:198-206 | no step of the watcher takes the pipeline from a counted request |
| VideoService.IdleModelIsUnloaded | gpu-services/ltx-video-api/app.py:193-206 | an undisturbed round that finds a loaded model, no request counted and the idle limit passed unloads it and changes nothing else |
| VideoService.RecheckedRoundUnloads | gpu-services/ltx-video-api/app.py:203-206 | in every interleaving a round that rechecks with no request counted goes back to sleep with no model loaded |
| VideoService.WaitingUnloads | gpu-services/ltx-video-api/app.py:193-206 | once the rest of the idle limit has passed with nobody counted, the next undisturbed round unloads |
| VideoService.OnlyIdleIsUnloaded | gpu-services/ltx-video-api/app.py:197-206 | in every interleaving, when the watcher takes the pipeline away it has in that round found nobody counted and then the full idle limit gone since the latest load or end of a request, and unless a request was counted since it looked that still holds |
| VideoService.StaleCheckUnloads | gpu-services/ltx-video-api/app.py:202-206 | the exception is real: a request that comes and goes after the check is followed by the unload with no time between |
| VideoService.RequestsEnd | gpu-services/ltx-video-api/app.py:295-451 | no request takes more than 28 steps of its own, however it fails and whatever the others do |
| VideoService.FailuresAreHandled | gpu-services/ltx-video-api/app.py:438-451 | a refused request never enters, a failed load drops the model lock, and every other failure ends in the `finally` block with the progress flag cleared |
| VideoService.CounterIsExact | gpu-services/ltx-video-api/app.py:318-319 | `_active_requests` counts exactly the requests between increment and decrement, and is zero with nobody inside |
| VideoService.GeneratingHoldsSemaphore | gpu-services/wan-video-api/app.py:357-440 | `_generating` is true only while some request holds the semaphore |
| VideoService.ReportedProgress | gpu-services/wan-video-api/app.py:357-365 | the reported step never exceeds the total, and during a run the total is the run's own |
| VideoService.ProgressExactly | gpu-services/wan-video-api/app.py:357-397 | over any run, while a request generates the flag is set, and while its pipeline runs the report shows its own total and the step of its last callback |
| VideoService.BlockedBehindSomeoneWhoCanMove | gpu-services/ltx-video-api/app.py:100-206 | a blocked request waits for a thread that can move: the two locks and the semaphore do not deadlock |
| VideoService.ModelGlobals.UnloadInner | gpu-services/ltx-video-api/app.py:180-187 | the three writes leave the globals unloaded and nothing else changed |
| VideoService.ModelGlobals.EnsureModel | gpu-services/ltx-video-api/app.py:100-172 | loads, reuses or replaces the pipeline by mode, with the exact globals after each way of failing |
| VideoService.FineStepsRefineEnsureModel | gpu-services/ltx-video-api/app.py:106-172 | the fine-grained steps inside the lock add up to the sequential `_ensure_model` |
| SnapshotRepair.FindRepairRanges | control-plane/app/scripts/cleanup_web3_snapshot_history.py:37-94 | the index loops compute the ranges the lemmas below are about |
| SnapshotRepair.FindsExactlyTheTransientDips | control-plane/app/scripts/cleanup_web3_snapshot_history.py:40-75 | an interior range is reported if and only if it is an outermost dip that recovers in time and close to where it started |
| SnapshotRepair.ReportedExactly | control-plane/app/scripts/cleanup_web3_snapshot_history.py:20-75 | the same in the script's numbers: at most eight snapshots, all at least forty and more than a tenth below the value before, and a return to within eighteen per cent |
| SnapshotRepair.TrailingExactly | control-plane/app/scripts/cleanup_web3_snapshot_history.py:77-94 | the range at the end is one or two snapshots of a fall, in the same numbers |
| SnapshotRepair.RangesWellPlaced | control-plane/app/scripts/cleanup_web3_snapshot_history.py:73-94 | ranges are in bounds, ascending, disjoint and at least one index apart, the trailing one included |
| SnapshotRepair.AnchorsAreOriginal | control-plane/app/scripts/cleanup_web3_snapshot_history.py:133-136 | the value a range is repaired from lies in no range |
| SnapshotRepair.InPlaceIsSimultaneous | control-plane/app/scripts/cleanup_web3_snapshot_history.py:133-145 | repairing left to right in place equals repairing everything at once from the original values |
| SnapshotRepair.ReplacementIsPresent | control-plane/app/scripts/cleanup_web3_snapshot_history.py:134-136 | a reported range always has an entry to copy, so none is passed over |
| SnapshotRepair.RepairInPlace | control-plane/app/scripts/cleanup_web3_snapshot_history.py:129-145 | the in-place loop leaves a chain's entries as copied from their sources all at once, and their totals as the repaired totals |
| SnapshotRepair.RepairOnlyRaises | control-plane/app/scripts/cleanup_web3_snapshot_history.py:133-145 | repair raises exactly the values inside the ranges and touches no other |
| SnapshotRepair.RepairIsIdempotent | control-plane/app/scripts/cleanup_web3_snapshot_history.py:37-94 | in a repaired series there is nothing left to repair |
| JsonBlock.ExtractJsonBlock | script-runner/main.py:54-81 | the character loop computes the extraction function |
| JsonBlock.ExtractIsFirstReturn | script-runner/main.py:54-81 | it returns the text up to the first return to depth zero, and None exactly when there is none |
| JsonBlock.ValueNeutral | script-runner/main.py:60-80 | every JSON text, with any nesting, escapes and braces in strings, leaves the scanner where it was |
| JsonBlock.ExtractInvertsPrint | script-runner/main.py:54-81 | for every JSON object text, whatever surrounds it, extraction gives back exactly that text |
| DiscoveryCache.HeaderRoundTrip | script-runner/main.py:91-97 | a JSON header after the first marker is found and lifted out exactly |
| DiscoveryCache.SignatureSpec | script-runner/main.py:123-143 | the signature lists exactly the regular script files seen, with their times, in ascending order of name |
| DiscoveryCache.ScriptsArePublicPython | script-runner/main.py:134-135 | a script is a file whose name ends with `.py` and does not begin with an underscore |
| DiscoveryCache.ListingOrderDoesNotMatter | script-runner/main.py:142-143 | the order in which the directory is listed does not change the signature |
| DiscoveryCache.ScriptCache.DiscoverScripts | script-runner/main.py:146-177 | returns the cached or the rescanned dictionary, or raises, and leaves the cache as the model says, a missing directory included |
| DiscoveryCache.ScanRaisesExactly | script-runner/main.py:164-168 | a scan raises TypeError if and only if some script's header has a list or a dictionary for its name |
| DiscoveryCache.GoesUnder | script-runner/main.py:167-168 | a header goes under the name it gives, and without one under the stem of its file |
| DiscoveryCache.ResultIsOfSomeScan | script-runner/main.py:153-177 | over any run every call does what a scan did at this call or an earlier one with the same signature, and every call since saw that signature or raised |
| DiscoveryCache.FreshExactlyWhenNothingSlipsBy | script-runner/main.py:153-177 | over any run a call returns or raises as a fresh scan would, for every meaning of the headers, if and only if no listed file has changed under its signature since a call whose scan may still be in the cache: every call in between saw that signature, or some script that call had not seen |
| DiscoveryCache.SecondCallFreshExactly | script-runner/main.py:153-177 | of two calls the second is fresh, for every meaning of the headers, if and only if the signatures differ or the listed files have the same contents |
| DiscoveryCache.EveryCallIsFresh | script-runner/main.py:112-118 | if names and times determine contents, every call of every run returns what a fresh scan would |
| DiscoveryCache.EditWithinOneTick | script-runner/main.py:159-160 | a stale call: an edit that keeps the modification time, with a call in between that raises |
| StreamDrain.DrainStream | script-runner/main.py:428-452 | raises if and only if some line is over the reader's limit; otherwise consumes the whole stream and returns its bytes, or its head and one marker, independent of line ends |
| StreamDrain.CutExactlyOverCap | script-runner/main.py:428-452 | the output differs from the stream exactly when the stream is over the cap (and its tail is not the marker itself), and holds at most the cap and one marker |
| TextScan.SkipUnmatched | claude-cli/app/main.py:447-464 | text without matches contributes nothing to the matches and all of itself to the rest |
| ToolBridge.BlockMatches | claude-cli/app/main.py:412-412 | a block matches as a whole, with its payload as the group, whatever braces and spaces the payload holds |
| ToolBridge.RenderRoundTrip | claude-cli/app/main.py:412-464 | of any rendering the payloads come back exactly and in order, and stripping leaves exactly the trimmed prose |
| ToolCalls.ParseBridgeToolCalls | claude-cli/app/main.py:444-459 | the `finditer` loop returns the calls of all payloads in order, passing over what does not decode or has no name |
| ToolCalls.ReadCallsAreNamed | claude-cli/app/main.py:452-458 | every call read out has a name and a dictionary of arguments |
| ToolCalls.ProtocolRoundTrip | claude-cli/app/main.py:412-464 | calls written by the protocol between prose are read back exactly, in order |
| ToolCalls.Deduplicate | claude-cli/app/main.py:526-539 | the output is, with consecutive ids, the named calls before which no call has an equal name and the same canonical arguments, in order; it raises exactly when some named call's name is a list or a dictionary |
| ToolCalls.LeftOutExactly | claude-cli/app/main.py:528-535 | a named call is left out if and only if an earlier one has an equal name, with True equal to 1, and the same canonical arguments, with falsy ones counted as empty; so calls with different arguments both come out |
| ToolCalls.OneRepresentative | claude-cli/app/main.py:528-535 | every named call has exactly one representative, no later than itself |
| ToolCalls.IdsAreDistinct | claude-cli/app/main.py:536-538 | ids are distinct |
| Segmenter.SplitText | gpu-services/bark-api/app.py:284-311 | the loop over sentences computes the packing |
| Segmenter.NothingIsLost | gpu-services/bark-api/app.py:284-311 | for every text and limit the segments hold the text's characters in order, white space aside |
| Segmenter.SegmentsAreBounded | gpu-services/bark-api/app.py:299-306 | a segment is within the limit or one whole sentence |
| Segmenter.SentencesAreClean | gpu-services/bark-api/app.py:296-297 | the sentences of a trimmed text are non-empty and trimmed |
| Segmenter.SentencesRoundTrip | gpu-services/bark-api/app.py:297-297 | a text written as pieces that end with one of the four marks, with white space between, is split into exactly those pieces |
| Segmenter.SentencesAreCut | gpu-services/bark-api/app.py:297-297 | every text is such pieces with white space between, and its split gives them |
| Segmenter.PackingIsOptimal | gpu-services/bark-api/app.py:299-309 | no valid grouping of the sentences in order has fewer groups than the packing has segments |
| Segmenter.SplitIsOptimal | gpu-services/bark-api/app.py:284-311 | the split of a text without white space around it is a valid grouping of its sentences with the fewest groups, each joined |
| Segmenter.LeadCostsExactly | gpu-services/bark-api/app.py:299-306 | white space in front costs a segment if and only if it keeps the second sentence out of the first segment and dropping the first sentence saves none |
| Segmenter.TailCostsExactly | gpu-services/bark-api/app.py:299-309 | white space behind costs a segment if and only if the last sentence has no mark and fits into the open segment without the white space, but not with it |
| Segmenter.SplitCostsExactly | gpu-services/bark-api/app.py:284-311 | for any text that is not blank, of any length, the split has exactly one segment more than the best grouping of its sentences for each of the two that holds |
| Segmenter.SplitIsNearlyOptimal | gpu-services/bark-api/app.py:284-311 | so it has the fewest segments if and only if neither holds, never fewer, and at most one more in front and one behind an unclosed last sentence |
| Segmenter.PaddingCostsTwo | gpu-services/bark-api/app.py:284-311 | at the default limit of 250, and any other from 7 on, a text for which it costs both |
| Browser.BrowserState.EnsurePage | sandbox/main.py:930-977 | reuses a usable page, otherwise launches one and starts a reaper if none is registered; a failed launch stores nothing |
| Browser.BrowserState.ReaperRound | sandbox/main.py:912-927 | sleeps on, or closes the page and retires, by the idle time |
| Browser.BrowserState.Close | sandbox/main.py:1142-1147 | clears page and reaper and hands out the task to cancel |
| Browser.StepsMatchMethods | sandbox/main.py:889-927 | the machine's split steps add up to those methods |
| Browser.StepsMatchEnsurePage | sandbox/main.py:930-977 | an operation gets its page as from that method, at once or after a launch; a failed launch leaves everything as it was |
| Browser.OperationEnds | sandbox/main.py:1093-1114 | an operation gives the lock back and counts as a use exactly if it succeeded; a crashed page is replaced |
| Browser.PageIsWatched | sandbox/main.py:882-977 | in every interleaving, with the lock free a page is there exactly when a live registered reaper is, and at most one reaper is alive |
| Browser.PageClosesOnlyWhenIdle | sandbox/main.py:916-925 | a page goes only by `browser_close` or by the registered reaper after the full idle time, never during an operation |
| Browser.LookAfterOperation | sandbox/main.py:912-927 | over any run, behind an operation and before the next, a look closes the page if and only if the idle time has passed since the end of the operation if it succeeded, since the `last_used` it ran under if it failed |
| Browser.FailedOperationIsFollowedByClose | sandbox/main.py:1104-1114 | for every idle time, a run in which a failed operation that outlasted it is followed by the close with no time between |
| Browser.ReaperFindsThePage | sandbox/main.py:917-919 | the reaper's branch for a missing page is never taken |
| Browser.LookComesAfterSleep | sandbox/main.py:915-916 | a reaper looks only after a sleep of its own that is over |
| Browser.OperationKeepsThePage | sandbox/main.py:1093-1114 | until an operation ends no other operation, closer or reaper gets the lock, and its page, reaper and `last_used` stay |
| Browser.PageClosesInTime | sandbox/main.py:912-925 | while the lock is free, time does not pass an unused page beyond the timeout and one reaper period |
| Browser.OverdueLookCloses | sandbox/main.py:920-925 | a look closes the page exactly when the idle time is reached |
| Hermes.Session.AppendTurnMessages | hermes-adapter/adapter/main.py:87-97 | the history becomes the last sixty of itself and the turn's kept messages |
| Hermes.KeptExactly | hermes-adapter/adapter/main.py:87-95 | the history keeps exactly the messages of the user and the assistant that say something, in order |
| Hermes.HistoryIsWindow | hermes-adapter/adapter/main.py:87-97 | after any rounds the history is the last sixty messages of the whole transcript |
| Hermes.TailIsLastTwo | hermes-adapter/adapter/main.py:270-271 | a line is in the tail if and only if it says something and at most one line behind it does |
| Hermes.CheckMarkers | hermes-adapter/adapter/main.py:261-285 | the loop over lines computes the flags and the cleaned reply |
| Hermes.FlagsMean | hermes-adapter/adapter/main.py:274-284 | a flag is set exactly when some line of the tail carries its marker |
| Hermes.DoneLineExactly | hermes-adapter/adapter/main.py:273-275 | a line in markdown and white space ends the task if and only if what it says ends with `TASK_DONE` |
| Hermes.RemainderIs | hermes-adapter/adapter/main.py:276-279 | what such a line says before the marker is kept without its wrapping |
| Hermes.AskingLineExactly | hermes-adapter/adapter/main.py:281-282 | a wrapped line asks for input if and only if what it says begins with `NEEDS_INPUT:`, in any case |
| Hermes.LinesOfReply | hermes-adapter/adapter/main.py:269-269 | white space at the end of a reply makes no lines |
| Hermes.SplitLinesRoundTrip | hermes-adapter/adapter/main.py:269-269 | a text written as lines with any of the eleven line breaks is split into exactly those lines |
| Hermes.JoinLinesRoundTrip | hermes-adapter/adapter/main.py:285-285 | joining lines and splitting the text again gives the lines |
| Hermes.LinesBeforeMarkerAreKept | hermes-adapter/adapter/main.py:273-285 | every line before the first end marker is kept as it is, in order |
| Hermes.FlagsDependOnTailOnly | hermes-adapter/adapter/main.py:264-271 | replies with the same last two non-blank lines get the same flags |
| Hermes.Turn | hermes-adapter/adapter/main.py:609-668 | sends the task first and then reminders, stops at the first ending round or the limit, with its reply, reports every round with its number and flags, and keeps the history also when the agent raises |
| Slugs.SlugShape | control-plane/app/repositories/blog_post_repo.py:15-19 | however a text is folded, its slug has 1 to 180 lower-case letters, digits and single inner dashes |
| Slugs.SlugSpellsWords | control-plane/app/repositories/blog_post_repo.py:15-19 | a slug is the words of the folded text in lower case, joined by dashes and cut at 180 characters, or "post" if there are none |
| Slugs.HasWords | control-plane/app/repositories/blog_post_repo.py:15-19 | every text is words with gaps around them |
| Slugs.CutSlugChangesAgain | control-plane/app/repositories/blog_post_repo.py:15-19 | some title's slug ends in a dash and changes when it is made a slug again |
| Slugs.SlugifyAgain | control-plane/app/repositories/blog_post_repo.py:15-19 | making a slug of a slug changes nothing, except exactly when it ends in a dash |
| Slugs.CandidatesDiffer | control-plane/app/repositories/blog_post_repo.py:56-58 | candidates for different numbers differ, however they were cut |
| Slugs.LookupsAreBounded | control-plane/app/repositories/blog_post_repo.py:47-60 | with others inserting before every lookup, the loop ends within the final number of rows plus one lookups, or plus two for a base that is its own candidate |
| Slugs.OneMoreLookupExactly | control-plane/app/repositories/blog_post_repo.py:53-60 | the bound of rows plus one fails for some table if and only if the base is its own candidate |
| Slugs.SelfCandidateIs | control-plane/app/repositories/blog_post_repo.py:56-58 | a base is its own candidate exactly when it has 180 characters and ends in that suffix |
| Slugs.SelfCandidateSlugExists | control-plane/app/repositories/blog_post_repo.py:15-19 | some title has such a slug |
| Slugs.BlogPosts.ResolveUniqueSlug | control-plane/app/repositories/blog_post_repo.py:47-60 | returns the first of the base and its numbered forms that is free when looked up, with the counted lookups, on a table that others extend |
| Slugs.ResolveExactly | control-plane/app/repositories/blog_post_repo.py:47-60 | that slug is the base, or the base with a number from 2 on, uncut if that has 180 characters and cut to the longest front that leaves room otherwise; all before it were taken when looked up, and no other slug is such |
| Common.DecimalMeans | control-plane/app/repositories/blog_post_repo.py:57-57 | the numeral of a number stands for it and has no leading zero |
| Slugs.BlogPosts.Create | control-plane/app/repositories/blog_post_repo.py:62-107 | at most five inserts against rivals before every lookup and insert: the first that does not collide is the last row, or all five collided |
| Slugs.RowsOnlyGrow | control-plane/app/repositories/blog_post_repo.py:85-103 | through all attempts and rivals slugs stay unique and no row is lost |
| Slugs.CreatedRowIsNew | control-plane/app/repositories/blog_post_repo.py:85-98 | a created post's slug was in no row, and the table with it has distinct slugs |
| Slugs.ConflictExactlyWhenRaced | control-plane/app/repositories/blog_post_repo.py:99-110 | attempts fail exactly when a rival took the very slug between lookup and insert; the 409 needs that five times |
| Slugs.FailuresAreRivalRows | control-plane/app/repositories/blog_post_repo.py:85-110 | each failed attempt leaves at least one rival row more |
| Slugs.SlugFitsColumn | control-plane/app/models/blog_post.py:20-20 | every slug that is inserted fits the 200-character column |

## Left out

- Dispatcher.CallsTerminate: bounds the steps of one call, given that provider calls return; that the event loop schedules each ready task is not modelled.
- Dispatcher.Progress: a provider call that never returns blocks its slot in the source, which has no timeout of its own here.
- DiscoveryCache.ScriptCache.DiscoverScripts: of exceptions only the TypeError for a name that is no key is modelled; an encoding error while reading makes a header unreadable, as in the source.
- DiscoveryCache.EveryCallIsFresh: a call sees the directory at one moment; a file that changes between its `stat` and its read is not modelled.
- Browser.PageClosesInTime: assumes that a reaper that is due runs before time passes on, and gets a free lock first.
- Slugs.BlogPosts.Create: deleted posts, and failures of the database other than the UNIQUE constraint, are not modelled.
- Slugs.SlugFitsColumn: needs a table of fewer rows than numbers of 179 digits can count; the suffix would outgrow the column later.
- Slugs.SlugifyAgain: the Unicode folding is a parameter of which only "ASCII text stays as it is" is used.
- Hermes.Turn: the marker check is any function of the reply, of which `Hermes.Check` is the adapter's, and the reminder any text; the text of the workspace preamble, and the second attempt to build the agent after a context-window error, are left out.
- ToolCalls.ParseBridgeToolCalls: JSON decoding is a parameter of which only "text that starts with a brace decodes to an object" is assumed; the order of keys in a dictionary is not kept.
- SnapshotRepair.RepairInPlace: repairs one chain of a wallet over exact reals; the loops over wallets and chains, and the rewriting of row totals rounded to two decimals, are left out.
- StreamDrain.DrainStream: what is left of a stream after its reader has raised is not described.
- VideoService.OnlyIdleIsUnloaded: the times are those of one clock that does not go back.
- VideoService.PipelineStaysLoaded: exceptions that are not `Exception` inside a request thread are left out.
- Cancellation of HTTP requests in the sandbox, and browsers that a relaunch over a dead page leaves running.
- SQL, HTTP, WebSocket, Docker, subprocess and Playwright calls; model inference and encoding.
- The Hermes adapter's file capture, cron jobs, configuration and session file names.
- `gpu-services/wan-video-api/app_float32.py`, a second copy of the Wan protocol, and the other GPU services' model caches.
- The executor, authorization, GPU lock repository, other repositories and schemas: plain data handling.
- The hub, trading units, lab runner, loop detection and lab scheduler are not part of this model.
