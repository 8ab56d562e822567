# Verified models of a Go utility library

The library offers small concurrency and data helpers. This project models its five most intricate
parts and proves what each of them keeps, over every input, every schedule or every reachable
state.

- **Balanced pool** (`pool/balanced/pool.go` over `safe/channel.go`). `UnlimitedChannel` is the
  manager goroutine as a machine whose steps are the rendezvous it takes part in.
  `BalancedWorker` puts a worker goroutine and the submitter around it: every lock section, send,
  receive and close is one step, so a run is one interleaving. `BalancedRuns` proves what holds in
  every run: once `run` has returned each accepted task is resolved exactly once, `Run` never lies
  about whether the task ran, and `eta` is always the sum of what is outstanding.
  `BalancedProgress` proves that every schedule of a worker ends, and where: after cancellation
  `run` returns exactly if somebody receives on the channel of every task that was left.
  `BalancedPool` runs n such workers under the pool lock with the tree that orders them,
  `PoolProgress` carries progress over to it, `ListScheduling` holds Graham's bound for the
  dispatch, and `Rejections` says what a rejection means for the workers that were not asked.
  `BalancedObjects` has the classes with their fields updated in place; a worker owns a channel
  object, and each method is an uninterrupted stretch of the machine's steps.
- **JSON documents** (`raw/raw.go`, `raw/diff.go`). `RawMerge` gives the algebra of `Merge`: when
  it panics, absorption, identity, and associativity with its exact condition. `RawLookup` says what
  `ChainGet` finds in a merged document and when it panics. `RawDiff` and `RawEntries` say
  which entries a diff has, and no others; `RawPatch` determines exactly which documents a diff
  cannot tell apart, and gives a patch, with the exact condition under which it inverts the diff.
- **Fan-out** (`fan/fan.go` over `pool/pool.go`). `FanOut` is the machine of the submitter, the
  workers, the unbuffered channel, its close and the cancellation: it refines a map, it ends, and
  it is stuck exactly where said. `FanObject` has the shared fields and slices and every step of the
  code; its `Out` and `In` run one schedule from beginning to end, all others are the machine's.
- **Polygon splitting** (`geo/split.go`). `TileGrid` proves that the rounded grid is a partition of
  the rounded bounding box, `TileShape` how large and how many its tiles are. `SplitPolygon` proves,
  given a contract for the intersection routine, that the pieces of the whole recursion lie inside
  the input, never overlap, and are exactly what the paths down the recursion end at.
- **Kubernetes helpers** (`k8s/k8s.go`). `YamlStream`, `YamlForms`, `YamlLaws`,
  `YamlRoundTrip` and `YamlExactly` cover the framing, splitting and filtering of YAML streams
  (document markers as in section 9.1.2 of YAML 1.2); `PodWatch` covers the callbacks of `WatchPods`.

`Values`, `Text`, `Decimal` and `Options` hold shared definitions. `dafny verify dfyconfig.toml`
checks everything.

## Conventions

- A panic of the source is a value here: `Panicked`, `Crashed`. The methods that model the code have
  no precondition against it, and it is said exactly when it happens. Laws about the result of
  `Merge` speak of calls that do not panic, and some of documents without null map values.
- The loops of a source function are loops of a method, and the method is tied to a function of its
  inputs; the lemmas are then about that function. Where the source iterates over a Go map, the
  method picks keys in an arbitrary order.
- Times are integers in nanoseconds, so the stagger between workers is 1000.
- Coordinates are reals. Rounding to seven decimals, half away from zero, is modelled.

## Where code and documentation disagree

The model follows the code.

- The comment on `Pool.Run` (pool/pool.go:69) says that a nil task is ignored, while lines 79-82 end
  the worker that receives it. `Out` submits no nil task, so this is not part of the model.
- The same comment (line 70) says that a cancelled context ends the workers. It may also leave `Run`
  blocked for good, since the send has no way out (`FanOut.DeadlocksOtherwise`).
- The comment on `RunAsync` (pool/balanced/pool.go:267) says that the returned channel can be used to
  wait. The channel has no buffer (line 124) and line 199 sends on it: a caller who drops it can
  block `run` for good after cancellation, and with it the answers to all tasks behind
  (`PoolProgress.ShutdownCanBlock`, `BalancedProgress.BlockedStays`).
- `getObjectKey` (raw/raw.go:53-56) tests for an index beyond the length and lets the length itself
  through, so that index panics instead of being `NotFound` (`RawLookup.ChainGetCrashes`).
- The comment "added" in `diff` (raw/diff.go:51-53) stands at the keys that were removed.
- `EncodeYAMLAll` says that documents are separated by the marker; a stream also starts with it.

## Model

| member | source | states |
|---|---|---|
| UnlimitedChannel.NextInv | safe/channel.go:39-66 | every step of the manager keeps the storage to be what was accepted and not delivered, `out` closed at most once, and the select that offers the first item non-empty |
| UnlimitedChannel.ConservesOrder | safe/channel.go:31-66 | in every run the items sent are those delivered, then those stored, then those discarded after finalisation, in order; `out` is closed at most once |
| UnlimitedChannel.FinalizeReturnsRest | safe/channel.go:78-86 | once drained, the storage is exactly the undelivered accepted items and no later event changes it; later sends are all discarded |
| UnlimitedChannel.NeverStuck | safe/channel.go:39-66 | while nobody closes `in`: no panic, `storage[0]` exists where it is offered, a send can be taken in every reachable state, a cancelled manager can drain |
| UnlimitedChannel.ClosingInCrashes | safe/channel.go:32-54 | once `in` is closed before finalisation, some continuation of at most two manager steps panics |
| UnlimitedChannel.PanicIsUnavoidableExactly | safe/channel.go:32-59 | no continuation drains the manager if and only if it has closed `out` without being finalised or has panicked; until then finalising in time escapes, from then on each step of its own is a panic |
| UnlimitedChannel.Channel.TakeIn | safe/channel.go:37 | the in-place append is the machine's send step, discarding after finalisation |
| UnlimitedChannel.Channel.GiveOut | safe/channel.go:54-55 | the oldest stored item is handed over and leaves the storage |
| UnlimitedChannel.Channel.Finalize | safe/channel.go:81-86 | returns the accepted items after the delivered prefix, and leaves the manager drained |
| BalancedWorker.NextInv | pool/balanced/pool.go:123-203 | every step of submitter, manager or worker keeps the books: task order, control state, what each `finished` channel has seen, and `eta` as offset plus outstanding ETAs |
| BalancedRuns.ExactlyOnce | pool/balanced/pool.go:145-203 | in every interleaving, once `run` has returned: the accepted tasks are a prefix that ran once each in acceptance order with `finished` only closed, and a suffix that never ran and got `ErrUnprocessed` once before the close; later tasks get nothing |
| BalancedRuns.AnswersAreTrue | pool/balanced/pool.go:293-300 | in every reachable state `Run` returns nil only for a task that ran, `ErrUnprocessed` only for an accepted one that did not, and no task ran twice |
| BalancedRuns.AnswersExactly | pool/balanced/pool.go:149-203 | in every reachable state `Run` has the answer nil if and only if its task has run and is not between running and its close, and `ErrUnprocessed` if and only if the task was left at finalisation and has been told so |
| BalancedRuns.EveryoneIsAnswered | pool/balanced/pool.go:182-203 | once `run` has returned: nil for every task that ran, `ErrUnprocessed` for every other one accepted before finalisation, no answer for later ones |
| BalancedRuns.AnswersAreFinal | pool/balanced/pool.go:149-203 | no later step changes an answer already given or takes back a task that ran |
| BalancedRuns.LoadAccounting | pool/balanced/pool.go:123-133 | in every interleaving `eta` is the offset plus the ETAs charged by the events of the run minus those of the tasks completed |
| BalancedRuns.OngoingBounds | pool/balanced/pool.go:112-120 | what `RunAsync` compares with the maximum delay lies between offset plus backlog and `eta`, whatever time has passed; an overrunning task counts nothing |
| BalancedRuns.LoadIsWaitingAndRest | pool/balanced/pool.go:112-120 | in every reachable state the compared load is the offset, the ETAs of the waiting tasks, and of the task being run what its ETA leaves after the elapsed time |
| BalancedProgress.EveryStepCounts | pool/balanced/pool.go:144-203 | in every state each step of `run` or of its manager lowers a distance over stored tasks and position; an enqueued task adds at most five and nothing else adds |
| BalancedProgress.EveryScheduleEnds | pool/balanced/pool.go:144-203 | no schedule has more own steps than six and five for each task enqueued |
| BalancedProgress.HaltedExactly | pool/balanced/pool.go:182-201 | no own step is left if and only if `run` has returned, or is blocked sending `ErrUnprocessed` to a client who does not receive, or waits for tasks with its context not cancelled |
| BalancedProgress.IdleExactly | pool/balanced/pool.go:182-195 | in the loop and before cancellation: no own step is left if and only if every accepted task has run and its `finished` is closed |
| BalancedProgress.ReturnsExactly | pool/balanced/pool.go:124-201 | after finalisation, unless further clients come: if somebody receives for each task that was left, every schedule that cannot go on has returned; otherwise none returns |
| BalancedProgress.HaltedReturnsExactly | pool/balanced/pool.go:124-201 | along every run, a cancelled worker without a step left has returned if and only if somebody receives for each task that was left |
| BalancedProgress.CanBlock | pool/balanced/pool.go:197-201 | from every reachable state with a task that was accepted, is not taken yet and is unheard, a schedule of own steps with a cancelled context blocks `run` |
| BalancedProgress.BlockedStays | pool/balanced/pool.go:197-201 | a blocked `run` stays there and no task gets an answer, whatever happens, until the client of the first task in line receives |
| BalancedProgress.CanReturn | pool/balanced/pool.go:182-201 | from every reachable state, with a cancelled context, a schedule of own steps and of clients of left, unheard tasks starting to receive brings `run` to its return |
| ListScheduling.Spread | pool/balanced/pool.go:275-287 | under greedy placement two etas differ by at most the longest task or the initial stagger |
| ListScheduling.LoadedBound | pool/balanced/pool.go:275-287 | n times a loaded worker's eta is within the sum of all etas plus n - 1 longest tasks |
| ListScheduling.GrahamBound | pool/balanced/pool.go:236-289 | against every other assignment of the same tasks with makespan M, n times a greedy load is at most (2n - 1) M plus the total stagger |
| BalancedPool.NextPoolInv | pool/balanced/pool.go:268-289 | every step of the pool, completions included, keeps the tree a permutation of the workers, the lock consistent with the leftmost node, and every worker's own invariant |
| BalancedPool.NoWorkerLost | pool/balanced/pool.go:236-287 | after every run the tree holds each of the n workers exactly once, and the worker being charged is the leftmost |
| BalancedPool.WorkerRunsAlone | pool/balanced/pool.go:145-203 | each worker of a pool is in a state that a single worker reaches, for an explicit sequence of its own steps |
| BalancedPool.LocalsRun | pool/balanced/pool.go:145-203 | conversely, what a worker can do alone, charging and sending apart, it can do in the pool, and nothing else changes |
| BalancedPool.EveryWorkerResolves | pool/balanced/pool.go:145-203 | exactly-once resolution and the load bounds hold for every worker inside every run of the pool |
| BalancedPool.DispatchIsGreedy | pool/balanced/pool.go:268-289 | along every run without completions each accepted task went to a worker of least eta, and each eta is offset plus placed load |
| BalancedPool.DispatchIsEven | pool/balanced/pool.go:236-289 | in such runs any two etas differ by at most the longest task or n - 1 microseconds |
| BalancedPool.DispatchIsNearOptimal | pool/balanced/pool.go:236-289 | in such runs, Graham's bound for the etas of the pool, against every other assignment of the accepted tasks |
| BalancedPool.DelayIsHonoured | pool/balanced/pool.go:275-284 | in every reachable state a task is accepted if and only if there is a worker and, when a maximum delay is given, the leftmost worker's offset, backlog and remaining running time fit into it |
| BalancedPool.RejectionSpeaksForAll | pool/balanced/pool.go:275-284 | while no task has completed, a task is rejected as too late only if every worker's eta exceeds the maximum delay |
| Rejections.RejectionSpeaksForLessAdvanced | pool/balanced/pool.go:112-120 | while no task has completed, a rejection is right, in the load that `RunAsync` compares, about every worker no further into its running task than the leftmost; sufficient only |
| Rejections.RejectsAlikeExactly | pool/balanced/pool.go:112-120 | in every reachable state a worker rejects whatever the leftmost rejects if and only if it is further into its running task by no more than its eta is larger, or the leftmost load is at most one nanosecond |
| Rejections.RejectionMissesAnother | pool/balanced/pool.go:275-284 | a run of two workers without completions in which a task is rejected and the other worker, further into its task, would have accepted it |
| PoolProgress.EveryPoolScheduleEnds | pool/balanced/pool.go:144-289 | in every run workers and managers together take at most six steps a worker and five for each task sent |
| PoolProgress.LockIsReleased | pool/balanced/pool.go:269-288 | in every state of the invariant the holder of the pool lock can go on, and the lock is free after at most two steps of its own |
| PoolProgress.QuietExactly | pool/balanced/pool.go:144-203 | in every reachable state a worker has no step left if and only if, before cancellation, all tasks it accepted have run and been closed; after it, if and only if it has returned or is blocked on a client who does not receive |
| PoolProgress.PoolCanBlock | pool/balanced/pool.go:197-201 | in every state of the invariant with a task accepted, not taken and unheard, a cancellation and steps of its worker block that worker |
| PoolProgress.ShutdownCanBlock | pool/balanced/pool.go:124-201 | in every new pool with a worker: one `RunAsync` whose caller drops the channel, a cancellation, and the first worker is blocked on that task |
| BalancedObjects.WorkerObject.EtaWithOnGoing | pool/balanced/pool.go:112-120 | computes the load that the bounds above are about |
| BalancedObjects.WorkerObject.AddTask | pool/balanced/pool.go:123-133 | from every valid state the two steps charge and send are possible and are what the fields then hold |
| BalancedObjects.WorkerObject.HandleTw | pool/balanced/pool.go:149-181 | marks, runs, lowers and closes, in this order; `eta` drops by the task's ETA and nothing is ongoing |
| BalancedObjects.WorkerObject.TakeTask | pool/balanced/pool.go:191 | the oldest stored task is received and taken in hand |
| BalancedObjects.WorkerObject.Finish | pool/balanced/pool.go:197-201 | finalises the channel object and loops over the tasks left: it blocks if and only if one of them is unheard, else every task of the worker is resolved exactly once; nothing more runs |
| BalancedObjects.WorkerObject.Answer | pool/balanced/pool.go:199-200 | with a receiver, one `finished` channel gets `ErrUnprocessed` and is closed, no other changes |
| BalancedObjects.PoolObject.AddWorker | pool/balanced/pool.go:236-240 | a worker with the next offset joins at the right end and replaces nobody |
| BalancedObjects.PoolObject.Charge | pool/balanced/pool.go:285 | only the leftmost worker changes, by charge and send |
| BalancedObjects.PoolObject.Move | pool/balanced/pool.go:286-287 | the leftmost node goes and the same worker comes back at its position |
| BalancedObjects.PoolObject.RunAsync | pool/balanced/pool.go:268-289 | the reply is decided by the leftmost worker; a rejection changes nothing; an acceptance is the submit, send and reinsert steps, and keeps the tree sorted while no task has completed |
| BalancedObjects.PoolObject.Take | pool/balanced/pool.go:191 | a worker in the tree takes its oldest task; the pool stays valid and this is its step of the machine |
| BalancedObjects.PoolObject.Complete | pool/balanced/pool.go:149-181 | a worker in the tree completes a task: its key changes in place, the tree keeps its order, and the pool is valid but no longer known to be sorted |
| BalancedObjects.New | pool/balanced/pool.go:226-242 | a valid pool in the initial state of the machine, for every worker count, none if it is negative |
| BalancedObjects.InsertPosition | pool/balanced/pool.go:287 | behind all keys up to the given one; sorted keys stay sorted |
| BalancedObjects.ReplaceOrInsert | pool/balanced/pool.go:239 | an equal key is replaced, otherwise the item enters between smaller and larger keys |
| RawMerge.MergeSlice | raw/raw.go:98-115 | the left slice followed by the right elements that do not occur on the left, duplicates kept |
| RawMerge.Merge | raw/raw.go:117-156 | for every order of iteration the result is the recursive join of the two documents, or the panic where two nulls meet |
| RawMerge.MergeSelf | raw/raw.go:117-156 | merging a document into itself returns it if it has no null map value, else panics |
| RawMerge.MergeAbsorbs | raw/raw.go:117-156 | merging the same right document again changes nothing if it has no null map value, else panics; kind mismatches do not matter |
| RawMerge.MergeIdentity | raw/raw.go:117-156 | the empty document is a left and right identity for all documents |
| RawMerge.JoinSlicesAssociative | raw/raw.go:98-115 | merging slices is associative, also with duplicates |
| RawMerge.WithinMeansNoChange | raw/raw.go:117-156 | a value leaves another one unchanged when merged under it if and only if the other already covers it |
| RawMerge.JoinAssociative | raw/raw.go:117-156 | two groupings of three values agree if and only if the values associate |
| RawMerge.MergeAssociativeExactly | raw/raw.go:117-156 | on documents without null map values both groupings of `Merge` succeed and agree if and only if the documents associate |
| RawMerge.MergeAssociative | raw/raw.go:117-156 | on documents without null map values `Merge` is associative if the first two hold values of one kind at every key path they share |
| RawMerge.MergeNotAssociative | raw/raw.go:128-153 | three documents for which grouping matters |
| RawLookup.ChainGet | raw/raw.go:71-96 | the loop follows the keys, with every error and both panics of the source |
| RawLookup.ChainGetCrashes | raw/raw.go:53-75 | it panics if and only if there is no key, or a slice is indexed below zero or at its very length |
| RawLookup.ChainGetErrors | raw/raw.go:44-90 | at the value where the last key applies: which error each mismatch of key and holder gives, and which index panics |
| RawLookup.ChainGetFindsElement | raw/raw.go:49-95 | behind any path, an index finds the element that stands between the elements before and behind it, or `WrongValueType` for another type |
| RawLookup.ChainGetFindsField | raw/raw.go:57-95 | behind any path, a key finds its value, `NotFound` if it is lacking, `WrongValueType` for another type |
| RawLookup.MergePanicsOnSharedNull | raw/raw.go:128-132 | `Merge` panics if and only if one key path ends at a null in both documents |
| RawLookup.MergedLookups | raw/raw.go:44-156 | for all documents that merge without a panic: a key path finds the joined value if both parts find one; else what the right part gives, value or error, unless that lacks a key before the left part stops, and then what the left part gives, value or error |
| RawLookup.MergeKeepsRightLeaf | raw/raw.go:71-156 | if the merge does not panic, a leaf of the right document, null included, gives `ChainGet` on the merged one the same outcome, for every type argument |
| RawLookup.MergeKeepsLeftWhereRightIsAbsent | raw/raw.go:71-156 | if the merge does not panic and the right document lacks a key of the path, not merely meets a null, exactly the values that the left document gives are found |
| RawLookup.NotFoundIsAbsent | raw/raw.go:60-85 | in a document without null map values a key path is `NotFound` if and only if a key is lacking |
| RawLookup.MergeKeepsLeftElements | raw/raw.go:71-156 | if the merge does not panic and both hold slices, an index valid on the left gives the same outcome as on the left |
| Decimal.PrintInjective | raw/diff.go:82 | two indices never print alike, so index keys do not collide |
| Decimal.PrintForm | raw/diff.go:82 | index keys are decimal digits without a leading zero |
| RawDiff.DiffMaps | raw/diff.go:39-61 | for every order of iteration the entries are the changed shared keys, the removed keys and the added ones |
| RawDiff.DiffArrays | raw/diff.go:62-85 | the nested map holds exactly the indices whose padded elements differ, and is absent if there is none |
| RawDiff.Diff | raw/diff.go:36-92 | the recursive code computes the diff that the laws are about |
| RawDiff.DiffSelf | raw/diff.go:36-92 | a document does not differ from itself |
| RawEntries.ReplacementIsOneEntry | raw/diff.go:41-43 | unless both are maps or both are arrays, the diff is the right value under the empty key and nothing else, or empty if they are equal |
| RawEntries.MapEntries | raw/diff.go:44-61 | two maps: an entry for exactly the keys of one side only and the shared keys that differ; the added value, null, or the nested diff |
| RawEntries.ArrayEntries | raw/diff.go:67-84 | two arrays: nothing beside the key "array", which is there if and only if some padded index differs |
| RawEntries.ArrayElements | raw/diff.go:71-83 | below it an entry for exactly the differing indices, with the right element |
| RawEntries.DiffAlong | raw/diff.go:36-61 | along every key path that both sides have, the diff has the diff of the two values there, or nothing if they are the same up to what it can show |
| RawEntries.KeyAlong | raw/diff.go:44-61 | below every path to maps on both sides an added key has the right value, a removed one null, and a key of neither side nothing |
| RawEntries.ReplacedAlong | raw/diff.go:41-90 | below every path to two different values, not both maps and not both arrays, the right one under the empty key and nothing else |
| RawPatch.DiffKernel | raw/diff.go:36-92 | two documents have the same diff from a third if and only if they are equal up to trailing nulls of arrays and the clash with the marker key |
| RawPatch.DiffIsEmpty | raw/diff.go:44-51 | the diff is empty if and only if the documents are equal in that sense |
| RawPatch.DiffLosesNothing | raw/diff.go:36-92 | without empty keys and trailing nulls the diff determines the right document |
| RawPatch.DiffEmptyMeansEqual | raw/diff.go:44-51 | without trailing nulls the diff is empty if and only if the documents are equal |
| RawPatch.DiffLosesSomething | raw/diff.go:42-83 | both conditions are needed: pairs of different maps with the same diff |
| RawPatch.PatchIsSameUpTo | raw/diff.go:36-92 | for all documents, the left one patched with the diff and the right one are the same up to what a diff cannot show |
| RawPatch.PatchKeepsDiff | raw/diff.go:36-92 | for all documents, the patched one has the same diff as the right one |
| RawPatch.PatchRestores | raw/diff.go:36-92 | patching gives the right document up to its hidden trailing nulls if and only if nowhere, along keys both have, the empty key alone disappears or appears with a value that is no map |
| RawPatch.PatchInvertsDiff | raw/diff.go:36-92 | patching inverts the diff if and only if, in addition, no array that stands in both documents ends in null on the right |
| FanOut.NextInv | fan/fan.go:50-72 | every step keeps: each index is untouched, in the hands of one worker, or done; the books of each running task; the worker count |
| FanOut.FanRefinesMap | fan/fan.go:50-72 | for every size, schedule and cancellation point, if `In` returns no error then `fn` was called once per item and every result and error is in its place |
| FanOut.FanNeverWrong | fan/fan.go:58-63 | in every reachable state no item was computed twice and every value present is the right one |
| FanOut.ConcurrencyIsBounded | pool/pool.go:71-91 | with a positive size at most that many tasks are inside workers |
| FanOut.CrewExactly | pool/pool.go:71-75 | in every reachable state there are as many workers as tasks begun to be submitted, but no more than a positive size, and none for a negative one |
| FanOut.FullConcurrency | pool/pool.go:71-91 | for every input and size a run in which as many tasks are inside workers at once as there are items or as the size allows |
| FanOut.ErrorMeansCancelled | pool/pool.go:95-108 | in every run `In` returns an error only after a cancellation and nil only when all workers have gone |
| FanOut.CancellationIsSeen | pool/pool.go:79-108 | after a cancellation `In` can return at once with the error and every idle worker can exit |
| FanOut.EveryStepCounts | pool/pool.go:71-108 | every step lowers a measure over unsubmitted tasks, running tasks and live workers |
| FanOut.EveryRunEnds | pool/pool.go:71-108 | no schedule has more than 8n + 4 steps |
| FanOut.StuckExactly | pool/pool.go:71-108 | a state is stuck if and only if all workers are gone and `In` is back or a task is being sent |
| FanOut.NoDeadlock | pool/pool.go:71-108 | without cancellation and with a size of at least zero, stuck means that `In` has returned nil |
| FanOut.DeadlocksOtherwise | pool/pool.go:72-90 | for every non-empty input and every size a run in which `Out` never returns: without cancellation if the size is negative, else by a cancellation while the first task is being sent |
| FanOut.FanObject.StartRun | pool/pool.go:71-75 | counts and spawns exactly when the limit allows |
| FanOut.FanObject.Handoff | pool/pool.go:79-90 | the rendezvous gives the task to an idle worker |
| FanOut.FanObject.RunTask | fan/fan.go:58-62 | call, result write and error write, each one step of the machine: the task's index, and no other, has changed and holds what `fn` returned |
| FanOut.FanObject.Out | fan/fan.go:50-67 | the loop submits every task; each is done before the next in this schedule; the trace is a run of the machine |
| FanOut.FanObject.In | pool/pool.go:95-108 | closes, sees every worker go and is back without an error; the trace is a run of the machine |
| FanOut.MapAll | fan/fan.go:50-72 | a fan from beginning to end gives the results and errors of a plain map, unless tasks meet a negative size |
| TileGrid.RoundMonotone | geo/split.go:66-68 | rounding keeps order |
| TileGrid.Tile | geo/split.go:128-147 | both loops end and keep the rectangles between consecutive rounded marks that have area |
| TileGrid.TilesPartition | geo/split.go:128-147 | each point of the rounded bounding box lies in exactly one kept rectangle, and no other point in any |
| TileGrid.TilesAreFew | geo/split.go:128-147 | at most clusterSize squared rectangles |
| TileGrid.TilesDisjoint | geo/split.go:87-106 | two tiles have no point in common |
| TileShape.RoundError | geo/split.go:66-68 | rounding gives a multiple of the seventh decimal and moves a number by at most half of it |
| TileShape.HalvesGoAway | geo/split.go:66-68 | halves are rounded away from zero on both sides |
| TileShape.TilesAreNarrow | geo/split.go:128-136 | no tile is wider or higher than the longer edge of the box over the cluster size, up to the rounding of its corners |
| TileShape.SquareIsFull | geo/split.go:128-147 | a square box whose tiles are larger than a rounding is cut into exactly clusterSize squared tiles |
| SplitPolygon.Divide | geo/split.go:109-172 | the recursion ends and appends exactly the pieces that the lemmas below are about, keeping what was there |
| SplitPolygon.PiecesSound | geo/split.go:87-172 | over the whole recursion tree the pieces lie inside the input, do not overlap, and have fewer than 200 coordinates or sit at the depth limit |
| SplitPolygon.PiecesExactly | geo/split.go:110-171 | nothing is dropped or added: the pieces are exactly the polygons with fewer than 200 coordinates, or at the depth limit, that the paths of tiles and members down the recursion lead to |
| SplitPolygon.CoveredExactly | geo/split.go:131-171 | if intersections are exact, an interior point lies in a piece if and only if at every level it lies inside a tile, off the grid lines and the rounded border |
| SplitPolygon.SplitOne | geo/split.go:109-172 | the polygons that a top-level call has appended are sound and are exactly the ends of the paths |
| Text.ChunksBreak | k8s/k8s.go:191 | a marker never reaches across a character other than a dash: splitting two texts joined before one is splitting each and welding the last chunk to the first |
| YamlForms.ChunksRejoin | k8s/k8s.go:191 | the chunks with markers between them are the text |
| YamlForms.ChunksHaveNoMark | k8s/k8s.go:191 | no chunk contains a marker |
| YamlStream.EncodeYAMLAll | k8s/k8s.go:152-168 | the framed stream of all encoded documents, or the error of the first that fails |
| YamlForms.StreamForm | k8s/k8s.go:156-166 | a stream is a marker line, then the documents with a marker line between each two |
| YamlForms.AllCodedExactly | k8s/k8s.go:156-220 | a list of encodings or decodings fails if and only if one of them fails |
| YamlStream.DecodeAllYAML | k8s/k8s.go:188-221 | the decoded pieces of the text in order, or the error of the first that fails |
| YamlStream.FilterLines | k8s/k8s.go:198-207 | keeps exactly the lines that are neither comments nor blank, in order |
| YamlForms.CommentForm | k8s/k8s.go:182 | a line is a comment if and only if a number sign stands behind nothing but blanks, tabs, form feeds, carriage returns and newlines |
| YamlForms.KeptConcat | k8s/k8s.go:198-207 | filtering works line by line |
| YamlForms.KeptCount | k8s/k8s.go:198-207 | a line that is neither a comment nor blank comes out as often as it goes in, any other never |
| YamlForms.NoiseIsNeutral | k8s/k8s.go:188-212 | inserting a blank line anywhere between two lines of a manifest changes nothing, nor does a comment line if its document has text both before and behind it |
| YamlForms.LeadingCommentMatters | k8s/k8s.go:195-212 | at the top of a document a comment does make a difference: it keeps the indentation of the next line, which is trimmed otherwise |
| YamlLaws.TrimmingIsHarmless | k8s/k8s.go:190 | trimming the whole manifest first does not change the pieces |
| YamlLaws.ReadingAStream | k8s/k8s.go:152-221 | for all documents whatever they contain, reading a framed stream gives the pieces of each document, one document after the other |
| YamlRoundTrip.SurvivesExactly | k8s/k8s.go:152-221 | a document comes back right-trimmed and as one piece if and only if it is framed: a condition on its first character, marks, carriage returns, comments and blank lines |
| YamlRoundTrip.RoundTrip | k8s/k8s.go:152-221 | a stream of framed documents gives exactly those documents back, right-trimmed and in order |
| YamlExactly.PiecesWeight | k8s/k8s.go:188-221 | the pieces of a document have together no more characters than the document without its trailing space, and as many only if it is empty or framed |
| YamlExactly.RoundTripExactly | k8s/k8s.go:152-221 | a stream gives its documents back, right-trimmed and in order, if and only if every one of them is framed |
| YamlExactly.ResourcesComeBack | k8s/k8s.go:152-221 | if every encoding is framed and, right-trimmed, decodes to its resource, decoding an encoded list gives the list back |
| PodWatch.IsPodReady | k8s/k8s.go:881-894 | running, with at least one container and all containers ready |
| PodWatch.WatchPods | k8s/k8s.go:921-992 | the callbacks made and the final map are those of the reference watch, for every combination of handlers given |
| PodWatch.OnEvent | k8s/k8s.go:957-989 | one turn of the loop, whatever the event carries |
| PodWatch.WatchedOf | k8s/k8s.go:940-989 | about each name: one notice for each ready listing, then one for each edge of what the events report; the map holds the last reading |
| PodWatch.LastEventDecides | k8s/k8s.go:966-988 | after its last Modified or Deleted event a selected pod counts as available if and only if that was a modification and the pod was running with containers, all ready |
| PodWatch.LastListingDecides | k8s/k8s.go:940-948 | without such an event its last listing decides in the same way, whatever else happens |
| PodWatch.UnknownIsDown | k8s/k8s.go:939-988 | a name that is not selected, or neither listed nor told about, is not available and has no callback |
| PodWatch.HeardAll | k8s/k8s.go:944-985 | with both handlers every notice is a callback, in order; without handlers there is none |
| PodWatch.NoticesAreEdges | k8s/k8s.go:938-989 | if no selected pod listed as ready is listed again, the notices for a name are the edges of its history, alternate starting with available, and the last agrees with the latest Modified or Deleted event or the listing |
| PodWatch.CallbacksAreEdges | k8s/k8s.go:938-989 | if no selected pod listed as ready is listed again, the callbacks made for a name are the edges of its history that have a handler; with both handlers they alternate and the last agrees with the latest reading |
| PodWatch.DistinctNamesAlternate | k8s/k8s.go:938-989 | with distinct names, as within one namespace, the callbacks of every name alternate and the last agrees with the latest reading |
| PodWatch.AlternatesExactly | k8s/k8s.go:938-989 | the notices alternate for all event streams and names if and only if no selected pod listed as ready is listed again under its name |
| PodWatch.OnlySelectedPods | k8s/k8s.go:643-657 | every notice is about a selected pod, and available only about a ready one |
| PodWatch.AvailableMeansRunning | k8s/k8s.go:881-894 | the same in terms of the phase and the containers |

## Left out

- Balanced pool, `ETA()`: constant per task, non-negative and never panicking, as its callers need it for the accounting to make sense; `time.Duration` overflow is not modelled.
- Balanced pool, tree internals: the LLRB tree is its in-order sequence. While its keys are sorted an insertion keeps them sorted; once a completion has changed a key the machine lets the insertion go anywhere, whereas the objects show one such place.
- Balanced pool, least load after completions: completions lower `eta` without moving the worker, so the leftmost worker need not be the least loaded any more; nothing is claimed there.
- Balanced pool, closing `In()`: the machine of the channel has this event and shows the panic; the worker and pool assume that nobody does it.
- Balanced pool, interleavings of the objects: a method of a class is one uninterrupted stretch; the interleavings are on the machines, whose states are values.
- Balanced pool, clients: whoever starts to receive on a `finished` channel keeps receiving until it is answered, and may start once its task is sent; a client who gives up is not modelled.
- BalancedRuns.ExactlyOnce: it speaks of a `run` that has returned, which takes receiving clients; tasks sent after finalisation are discarded by design, so it states that they are never answered.
- Fan-out, nil tasks: `Out` never submits one. A second `Out` on the same fan, or one from several goroutines, is not modelled.
- Fan-out, panics in `fn` and termination of `fn`: `fn` is a function.
- Diff on arguments that are not maps: JSON marshalling is not modelled, only the recursive `diff`.
- Values: NaN, nil against empty slices, maps and slices of other static types than `Map` and `Slice`, and sharing of nested values between documents are not modelled.
- `Get`: a single lookup.
- Polygons: `geom.Intersection` is a parameter with a contract, the coordinate count is a field, and an envelope has its corners in order. Intersections of other types are dropped, as in the code.
- Polygons, area: that the pieces cover the input is claimed for exact intersections and points off the grid lines only, since errors and other geometry types are dropped and rounding moves the outer box.
- Polygons, arithmetic: floating-point error, and a cluster size below 1, for which the stepping need not end. `Split` itself only reads and writes GeoJSON around the recursion.
- YAML: `EncodeYAML` and `DecodeYAML` are parameters; text is a sequence of characters, so malformed UTF-8 is not modelled.
- Watch: the calls to the cluster are replaced by the listing and the events received before the context ends or the channel closes; handlers are a log of calls.
- Everything else in `k8s`, and `firestore`, `serde`, `cache` and `safe/map.go`: thin layers over libraries, the network or a clock.
