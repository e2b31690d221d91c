# Verified cores of the Cfx.re client

This project models the parts of the Cfx.re client whose correctness depends on more than one
function: the re-entrant task scheduler of the scripting runtime, the lock-free token bucket,
component loading, signals and slots, type-erased functions, the MessagePack, Base64, component-id
and relocation codecs, and the launcher's download queue. Each model follows the code, branch by
branch. Code that updates objects or buffers in place is modelled by classes and by methods with
loops; each of these is proved against a specification function, and the theorems are about those
functions.

| module | models |
|---|---|
| `TaskScheduling`, `TaskSchedulerThreads`, `TaskSchedulerWork` | `CitizenTaskScheduler` with re-entrant ticks on one thread; its locked sections interleaving with other threads; how many steps a tick then takes |
| `TokenBuckets`, `TokenBucketLaws`, `TokenBucketThreads` | the bucket that stores a single `zeroTime_`, used by one thread; its laws; its atomic steps interleaving |
| `Graph`, `DependencySort`, `DependencyOrder`, `DependencyWalks`, `DependencyInit`, `DependencyAgreement` | the dependency graph, `SortDependencyList`, the order it leaves where no dependency decides, the `loadDeps` and `initDeps` recursions, when they return, and that all three agree |
| `ComponentIds`, `ComponentIdTexts`, `ComponentLoading` | component identifiers and what any text parses to; resolving, ordering and loading components |
| `SignalSlots`, `SignalEmissions`, `SignalObjects` | the links between signals and slot objects, as a state machine and as the loops that edit them; what signals emit after each operation |
| `Erasure`, `ErasurePlacement`, `ErasureObjects` | function2's boxes, command tables and wrappers, as a state machine and as commands in place; where boxes lie |
| `MachineWords`, `MsgPackFormat`, `MsgPackDecoder`, `MsgPackRoundTrip`, `MsgPackMaps`, `MsgPackMalformed`, `MsgPackStreams`, `MsgPackShortest` | byte strings and numbers, legal MessagePack encodings, the deserializer, its inverse, maps with repeated and other keys, input that is no encoding, both ends as they work on streams, and that what is written is shortest |
| `Relocations`, `RelocationTables`, `RelocationEdges`, `RelocationOverlap` | applying and un-applying base relocations to any image, which holds its own table; the tables of the PE format; words outside the image, empty blocks and tables that relocate themselves; words that overlap |
| `DownloadQueue`, `DownloadRetries` | admission, retry and completion of downloads; what makes the queue give up |
| `Base64`, `Base64Texts` | Base64 encoding and decoding; test vectors and any text |
| `Options`, `Sequences` | shared vocabulary |

Some properties one might expect do not hold of the code. For each of these there is a lemma with
the exact condition under which it does; inputs and runs on which it does not are given where the
condition alone does not show them:

- `loadDeps` and `initDeps` need not return. `loadDeps` returns exactly if no cycle is reached
  through entries not loaded yet: `DependencyWalks.LoadReturnsExactly`,
  `DependencyWalks.SelfDependencyNeverLoads`. `initDeps` also returns if a component that does not
  start is met first: `DependencyInit.InitReturnsExactly`, `DependencyInit.FailsBeforeCycle`,
  `DependencyInit.SelfDependencyNeverInits`.
- `slot_duplicate` visits what it appends. It ends exactly if the targets differ or nothing is
  connected to them: `SignalObjects.DuplicationEndsExactly`.
- `disconnect` removes one connection but always the back link:
  `SignalSlots.DisconnectLinksExactly`, `SignalSlots.LinkedExactly`, `SignalSlots.DanglingRun`.
- Matching of component ids does not chain through an id with a trailing empty category:
  `ComponentIds.ChainsExactlyWithoutTrailingEmpty`.
- Not every component id can be printed and parsed back: `ComponentIds.RoundTripExactly`.
- A drain that races with another may hand tokens back, so only the signed total is bounded:
  `TokenBucketThreads.GrantSign`, `TokenBucketThreads.TwoBurstsAtOneInstant`.
- `consume` of a non-positive amount differs from the textbook bucket:
  `TokenBucketLaws.ConsumeAgreesExactly`.
- Self-assignment of a function wrapper uses a destroyed box: `Erasure.SelfMoveExactly`,
  `Erasure.SelfCopyExactly`.
- Un-applying relocations need not restore the image if words overlap. For a table that names each
  word once it always does exactly if any two words end together or are disjoint, not counting the
  low bytes that the offset leaves alone; module bases are multiples of 64 KiB, so these are two
  bytes: `RelocationOverlap.TableRestoredExactly`, `RelocationOverlap.LoaderRestoresExactly`,
  `RelocationOverlap.TableSpoils`. A word named twice can make up for it:
  `RelocationOverlap.NamedTwice`.
- A block shorter than its own header ends every relocation walk early, by an unknown type or by
  leaving the image: `Relocations.BadBlockEndsWalk`.
- Encoding does not undo decoding of every Base64 text: `Base64.CanonicalExactly`.
- The launcher's comment says a mega-huge file is downloaded alone; the code only asks that nothing
  is in flight when it is admitted. It stays alone exactly if every call that could admit a head
  finds another mega-huge one: `DownloadQueue.StaysAloneExactly`, `DownloadQueue.MegaHugeGetsCompany`.

## Model

| member | source | states |
|---|---|---|
| `TaskScheduling.Scheduler.QueueTask` | code/client/clrcore/CitizenTaskScheduler.cs:78-92 | the task is listed as running and, if a tick is active, in the in-tick set, which is not created otherwise |
| `TaskScheduling.Scheduler.Start` | code/client/clrcore/CitizenTaskScheduler.cs:78-92 | a task started from outside is listed as queueing promises, the invariant is kept and no other task is touched |
| `TaskScheduling.Scheduler.RunSpawn` | code/client/clrcore/CitizenTaskScheduler.cs:78-92 | a body that starts a task leaves one new task with the body it names, queued, listed and noted for the tick under way, and nothing has run |
| `TaskScheduling.Scheduler.RunTick` | code/client/clrcore/CitizenTaskScheduler.cs:132-140 | a tick inside a body drains everything but the enclosing bodies, and the body that called it goes on as it was |
| `TaskScheduling.Scheduler.RunInline` | code/client/clrcore/CitizenTaskScheduler.cs:95-107 | a task that was never queued has run to its end when the call returns: it is done and started, and in neither dictionary; seen from outside that is one action of the body that created it |
| `TaskScheduling.Scheduler.RunAction` | code/client/clrcore/CitizenTaskScheduler.cs:78-107 | one action of a body: a started task is queued, an inline task done, a tick has drained, an exception changes nothing else |
| `TaskScheduling.Scheduler.RunBody` | code/client/clrcore/CitizenTaskScheduler.cs:192-199 | a body with nested ticks runs to its end or its exception; each inline task it created is done, and each task it started is done or listed where the frame that runs it looks; tasks of enclosing frames are untouched |
| `TaskScheduling.Scheduler.TryExecuteTask` | code/client/clrcore/CitizenTaskScheduler.cs:192-199 | a task runs exactly if it was waiting, and is done afterwards, with all its inline tasks; one that is executing or done is left alone |
| `TaskScheduling.Scheduler.RunOne` | code/client/clrcore/CitizenTaskScheduler.cs:146-162 | after one element of the loop every waiting or listed task is executing, still to be visited, or in the in-tick set, although the body may have ticked |
| `TaskScheduling.Scheduler.RunPass` | code/client/clrcore/CitizenTaskScheduler.cs:142-170 | after a pass, in any order of its tasks, only the in-tick set holds tasks that wait |
| `TaskScheduling.Scheduler.Tick` | code/client/clrcore/CitizenTaskScheduler.cs:121-178 | re-entrant draining: for every finite program of tasks a tick returns (unexecuted actions decrease), no task waits, only tasks of enclosing frames are listed as running, and the enclosing frame's in-tick set is back |
| `TaskScheduling.Scheduler.OutermostTick` | code/client/clrcore/CitizenTaskScheduler.cs:121-178 | the outermost tick leaves nothing listed; every task has run to its end exactly once, and every creating action that ran has exactly one task with the body it names |
| `TaskScheduling.WorkOfAction` | code/client/clrcore/CitizenTaskScheduler.cs:142-171 | the termination measure: each action uses up work, although the task it creates brings its own |
| `TaskScheduling.ReplayIsFamily` | code/client/clrcore/CitizenTaskScheduler.cs:78-107 | in every history of task changes each creating action that ran has exactly one child, and every child comes from such an action |
| `TaskScheduling.BodyEffectTrans` | code/client/clrcore/CitizenTaskScheduler.cs:142-171 | what a body may do to the scheduler composes, so it holds for bodies of any length and nesting |
| `TaskScheduling.CaredStep` | code/client/clrcore/CitizenTaskScheduler.cs:78-107 | what the actions of a body have left stays so over any further action: inline tasks done, started tasks done or listed |
| `TaskSchedulerThreads.StepKeepsInv` | code/client/clrcore/CitizenTaskScheduler.cs:80-178 | each locked section of queueing and ticking keeps the invariant: no lost task, one frame per executing body, each frame accounts for the tasks due when it began |
| `TaskSchedulerThreads.RunKeepsInv` | code/client/clrcore/CitizenTaskScheduler.cs:80-178 | no lost task: under every interleaving, a task whose queueing returned and which is not done is listed as running, also if queued between the last emptiness test and the restore |
| `TaskSchedulerThreads.BodyRunsAtMostOnce` | code/client/clrcore/CitizenTaskScheduler.cs:146-162 | no task body begins twice in any run, given that the runtime's `TryExecuteTask` refuses a task that is executing or done |
| `TaskSchedulerThreads.TickCompletesDueTasks` | code/client/clrcore/CitizenTaskScheduler.cs:121-178 | when a tick returns, nested or not, every task queued before it began is done or is executing in an enclosing frame; all are done for an outermost tick |
| `TaskSchedulerThreads.TickCompletesInTickTasks` | code/client/clrcore/CitizenTaskScheduler.cs:80-87 | a task put into a frame's in-tick dictionary before the frame last takes from it is done when the frame returns, or executing in an enclosing frame, whatever other threads and nested frames do |
| `TaskSchedulerThreads.TickUnlistsDueTasks` | code/client/clrcore/CitizenTaskScheduler.cs:156-162 | when a tick returns, no task queued before it began is listed as running any more, unless an enclosing frame is executing it |
| `TaskSchedulerThreads.QueueAlone` | code/client/clrcore/CitizenTaskScheduler.cs:78-92 | the locked sections of one undisturbed queueing add the task to the in-tick dictionary, if there is one, and to the running one |
| `TaskSchedulerThreads.TickNeverStuck` | code/client/clrcore/CitizenTaskScheduler.cs:121-178 | inside a tick the ticking thread always has a step to take other than calling `Tick` again |
| `TaskSchedulerWork.StepPays` | code/client/clrcore/CitizenTaskScheduler.cs:80-178 | one step: each step of the ticking thread lowers the work left, and only queueing a task and calling `Tick` raise it |
| `TaskSchedulerWork.StepsBounded` | code/client/clrcore/CitizenTaskScheduler.cs:80-178 | over any stretch of any interleaving, the steps the ticking thread takes at some depth of ticks or deeper are bounded by the work there was, four for each task queued and 3·(tasks + 1) for each tick opened |
| `TaskSchedulerWork.TickStepsBounded` | code/client/clrcore/CitizenTaskScheduler.cs:121-178 | a tick returns under every interleaving: before it does, the thread takes fewer steps in it than 4·tasks + 3·(ticks nested in it + 1)·(tasks + 1) |
| `TaskSchedulerWork.AllStepsBounded` | code/client/clrcore/CitizenTaskScheduler.cs:80-178 | over a whole run the thread takes at most 4·tasks + 3·ticks·(tasks + 1) steps of its own |
| `TokenBuckets.TokenBucket.ConsumeImpl` | code/shared/TokenBucket.h:289-307 | whatever number of spurious failures, the loop stores and grants what one undisturbed round does |
| `TokenBuckets.TokenBucket.TryConsume` | code/shared/TokenBucket.h:128-147 | refuses on an empty bucket before the loop, else takes all or nothing |
| `TokenBuckets.TokenBucket.ConsumeOrDrain` | code/shared/TokenBucket.h:165-190 | grants the request or what there is, and nothing on an empty bucket |
| `TokenBuckets.TokenBucket.ReturnTokensImpl` | code/shared/TokenBucket.h:314-322 | moves `zeroTime_` back by what the tokens are worth, and returns it |
| `TokenBuckets.TokenBucket.ConsumeWithBorrow` | code/shared/TokenBucket.h:225-249 | ends within two rounds, sets `zeroTime_` to max(old, now − burst/rate) + k/rate, and returns the wait until then; refuses exactly above the burst size |
| `TokenBuckets.LevelPositive` | code/shared/TokenBucket.h:274-286 | the level is positive exactly after `zeroTime_`, and refilling is the same as capping `zeroTime_` from below |
| `TokenBucketLaws.StepRefines` | code/shared/TokenBucket.h:128-322 | one call on the single-number bucket answers as the textbook bucket (level, last time) does and keeps representing it |
| `TokenBucketLaws.BucketRefinesTextbook` | code/shared/TokenBucket.h:128-322 | over any run with a steady clock of consume, drain, borrow, return and available the two buckets give the same answers |
| `TokenBucketLaws.ConsumeAgreesExactly` | code/shared/TokenBucket.h:128-147 | for any amount, positive or not, consume agrees with the textbook bucket unless nothing is available and the amount would still fit |
| `TokenBucketLaws.AnyAmount` | code/shared/TokenBucket.h:128-190 | for any amount, positive or not: consume succeeds exactly if the bucket is not empty and holds the amount; consume and drain take exactly what they grant from the capped balance, and change nothing if they refuse |
| `TokenBucketLaws.BorrowAtTheEdges` | code/shared/TokenBucket.h:225-249 | borrowing nothing or less waits for nothing and changes nothing; more than a burst is refused and changes nothing |
| `TokenBucketLaws.StartIsNowPlusNap` | code/shared/TokenBucket.h:225-249 | a reservation starts at the request's time plus the returned wait |
| `TokenBucketLaws.BorrowIsFifo` | code/shared/TokenBucket.h:225-249 | in any run of borrows with a steady clock later requests start no earlier |
| `TokenBucketLaws.BorrowIsBounded` | code/shared/TokenBucket.h:225-249 | the total reserved with start time at most T is at most burst + rate × (T − first request's time) |
| `TokenBucketLaws.BorrowedTimeIsClosed` | code/shared/TokenBucket.h:205-224 | over any run of consume, drain, available and further borrow calls up to the start of a reservation, ordinary calls get nothing |
| `TokenBucketLaws.FixedTokenBucket.SetCapacity` | code/shared/TokenBucket.h:415-417 | afterwards the bucket holds the given balance |
| `TokenBucketLaws.FixedTokenBucket.Reset` | code/shared/TokenBucket.h:393-403 | what was available stays available under the new limits, up to the new burst size, and a debt is forgiven |
| `TokenBucketThreads.RunKeepsLog` | code/shared/TokenBucket.h:128-322 | in every interleaving successful exchanges form a chain, each moving `zeroTime_` by at least what it granted |
| `TokenBucketThreads.ConcurrentRateBound` | code/shared/TokenBucket.h:128-190 | the signed total granted by any consecutive stretch of successful exchanges is at most burst + rate × (last now − first now), with clocks in any order and returns in between |
| `TokenBucketThreads.GrantSign` | code/shared/TokenBucket.h:165-190 | a drain grants a negative amount exactly when its clock reading lies before the `zeroTime_` it replaces; a consume never succeeds then |
| `TokenBucketThreads.TakeAlone` | code/shared/TokenBucket.h:128-190 | the atomic steps of one undisturbed consume or drain, with or without a spurious failure, do what the call does on one thread: an empty bucket ends it at the test |
| `TokenBucketThreads.GiveAlone` | code/shared/TokenBucket.h:314-322 | so do those of a return |
| `TokenBucketThreads.ExchangeExactly` | code/shared/TokenBucket.h:289-307 | an exchange succeeds only on the value that was loaded; one that fails changes nothing but what the thread has seen |
| `TokenBucketThreads.TwoBurstsAtOneInstant` | code/shared/TokenBucket.h:173-190 | for all limits there is a run in which a racing drain hands a burst back and two full bursts are granted for one instant |
| `DependencySort.VisitAllCorrect` | code/client/citicore/ComponentLoader.h:231-253 | from any point of the traversal of any graph, visiting emits whole reachable parts once and leaves the active entries as they were |
| `DependencySort.SortCorrect` | code/client/citicore/ComponentLoader.h:224-255 | for every finite graph, cyclic or not, exactly the reachable entries are emitted, each once; an entry precedes its dependency only if that dependency can reach it; without cycles dependencies come first |
| `DependencyOrder.SortInTurn` | code/client/citicore/ComponentLoader.h:246-252 | listed entries come in turn: the later ones as they would be sorted by themselves, without what is listed already |
| `DependencyOrder.SortOne` | code/client/citicore/ComponentLoader.h:231-244 | an entry on no cycle comes right after its dependencies, sorted in the order in which it names them |
| `DependencyOrder.TwoDependencies` | code/client/citicore/ComponentLoader.h:224-255 | for example a, which depends on b and c, sorts to b, c, a |
| `DependencySort.Sorter.Visit` | code/client/citicore/ComponentLoader.h:231-244 | the recursive lambda on the shared map and queue does what the specification of the traversal says |
| `DependencySort.Sorter.VisitUnvisited` | code/client/citicore/ComponentLoader.h:235-252 | the loop visits the entries not visited yet, in order |
| `DependencySort.Sorter.Run` | code/client/citicore/ComponentLoader.h:224-255 | the whole sort, from an empty map and queue |
| `DependencyWalks.LoadReturnsExactly` | code/client/citicore/GameMode.Win32.cpp:87-107 | for every graph and any set of loaded entries, `loadDeps` returns exactly if no cycle is reached through entries not loaded yet, and then its calls nest no deeper than there are entries |
| `DependencyWalks.LoadFromNothing` | code/client/citicore/GameMode.Win32.cpp:87-107 | from nothing loaded, it returns exactly if no cycle is reachable from the entries |
| `DependencyWalks.SelfDependencyNeverLoads` | code/client/citicore/GameMode.Win32.cpp:87-107 | a component that depends on itself is not loaded within any depth of calls |
| `DependencyWalks.LoadOrders` | code/client/citicore/GameMode.Win32.cpp:87-107 | what a returning `loadDeps` leaves has every dependency before its dependents |
| `DependencyInit.InitReturnsExactly` | code/client/citicore/ToolMode.Win32.cpp:109-130 | for every graph, `initDeps` returns exactly if following the first unsound dependency of each unsound component does not lead into a cycle, and reports success exactly if everything reachable starts and is on no cycle |
| `DependencyInit.InitOutcome` | code/client/citicore/ToolMode.Win32.cpp:109-130 | a returning `initDeps` has only added components that start, keeps what was there, and succeeds exactly if its entries are sound |
| `DependencyInit.FailsBeforeCycle` | code/client/citicore/ToolMode.Win32.cpp:109-130 | a component on a cycle is given up at once if a dependency before the cycle does not start |
| `DependencyInit.SelfDependencyNeverInits` | code/client/citicore/ToolMode.Win32.cpp:109-130 | a component that depends on itself is not done within any depth of calls, whether it starts or not |
| `DependencyInit.AcyclicNotStuck` | code/client/citicore/ToolMode.Win32.cpp:109-130 | without cycles the condition for `initDeps` to return holds, whatever starts |
| `DependencyAgreement.LoadFollowsVisit` | code/client/citicore/GameMode.Win32.cpp:87-107 | testing for loaded instead of visited makes no difference where no cycle is reached, at any point of the traversal |
| `DependencyAgreement.InitFollowsVisit` | code/client/citicore/ToolMode.Win32.cpp:109-130 | walking shared dependencies again makes no difference, on any graph and at any point of the traversal |
| `DependencyAgreement.TraversalsAgree` | code/client/citicore/ToolMode.Win32.cpp:109-130 | on every graph, cyclic or not, and whenever they return: `loadDeps` marks in exactly the sorted order, and `initDeps` follows it up to the first component that does not start, which is exactly when it fails |
| `DependencyAgreement.AcyclicTraversalsAgree` | code/client/citicore/ToolMode.Win32.cpp:109-130 | on every acyclic graph both walks return: `loadDeps` with exactly the sorted order, `initDeps` with that order up to the first component that does not start |
| `DependencyAgreement.Initializer.LoadDepsWithin` | code/client/citicore/GameMode.Win32.cpp:87-107 | the recursion on the shared set computes the specified result within the given depth |
| `DependencyAgreement.Initializer.LoadDeps` | code/client/citicore/GameMode.Win32.cpp:87-107 | returns and marks as specified whenever the exact condition for returning holds |
| `DependencyAgreement.Initializer.InitDepsWithin` | code/client/citicore/ToolMode.Win32.cpp:109-130 | the recursion on the shared set computes the specified result within the given depth |
| `DependencyAgreement.Initializer.InitDeps` | code/client/citicore/ToolMode.Win32.cpp:109-130 | returns, marks and reports as specified whenever the exact condition for returning holds |
| `ComponentIds.CompareVersion` | code/client/citicore/ComponentId.cpp:29-44 | the loop computes the comparison that `CompareIsLexicographic` characterizes |
| `ComponentIds.CompareIsLexicographic` | code/client/citicore/ComponentId.cpp:29-44 | lower, higher or equal exactly as at the first place where the versions differ, if there is one |
| `ComponentIds.IsMatchedBy` | code/client/citicore/ComponentId.cpp:46-59 | true exactly if every category of the dependency is the provider's and the provider's version is equal or higher |
| `ComponentIds.MatchedExactly` | code/client/citicore/ComponentId.cpp:46-59 | the provider has the categories of the dependency in the same places, and its version is the same or higher at the first difference |
| `ComponentIds.MatchingIsPartialOrder` | code/client/citicore/ComponentId.cpp:46-59 | matching is reflexive, transitive and antisymmetric on ids without a trailing empty category |
| `ComponentIds.ChainsExactlyWithoutTrailingEmpty` | code/client/citicore/ComponentId.cpp:17-27 | matches chain from an id exactly when it has no trailing empty category |
| `ComponentIds.GetString` | code/client/citicore/ComponentId.cpp:61-82 | prints the text that parsing undoes |
| `ComponentIds.Parse` | code/client/citicore/ComponentId.cpp:84-156 | the character loop does what feeding the text to the parser state machine does, for every input, including overlong segments (the laws of `ComponentIdTexts` say what that is) |
| `ComponentIdTexts.TextWithoutVersions` | code/client/citicore/ComponentId.cpp:12-15 | a text of categories without a bracket parses to these categories and version 0.0.0.0 |
| `ComponentIdTexts.TextWithVersions` | code/client/citicore/ComponentId.cpp:123-149 | behind the bracket each `.` or `]` ends a number, read as `atoi` does; the first four count and missing ones are zero, as is what nothing ends |
| `ComponentIdTexts.TextWithNumbers` | code/client/citicore/ComponentId.cpp:123-149 | any amount of printed numbers in brackets: the first four are the version, filled up with zeros |
| `ComponentIdTexts.NothingBehindNul` | code/client/citicore/ComponentId.cpp:144-147 | the text ends at the first NUL |
| `ComponentIdTexts.LongCategoryOverflows` | code/client/citicore/ComponentId.cpp:93-118 | after any printable categories, 256 characters without a separator write past the buffer |
| `ComponentIdTexts.LongVersionOverflows` | code/client/citicore/ComponentId.cpp:93-143 | so do 256 characters without a separator behind the bracket |
| `ComponentIdTexts.KnownTexts` | code/client/citicore/ComponentId.cpp:84-156 | "fx", "fx[2]", "net:tcp-server" and others parse as written out |
| `ComponentIds.AtoiDecimal` | code/client/citicore/ComponentId.cpp:130-135 | reading back a printed version number gives the number |
| `ComponentIdTexts.AtoiOfText` | code/client/citicore/ComponentId.cpp:130-135 | `atoi` of any text: blanks, one sign or none, digits up to the first other character, zero without any |
| `ComponentIds.RoundTrip` | code/client/citicore/ComponentId.cpp:61-156 | parsing the printed form gives the id back |
| `ComponentIds.RoundTripExactly` | code/client/citicore/ComponentId.cpp:61-156 | it does so exactly for ids with a category whose categories are under 256 characters and free of ':', '[' and NUL |
| `ComponentLoading.ComponentLoader.AddComponent` | code/client/citicore/ComponentLoader.cpp:299-306 | an existing entry of that name is kept, also an empty one |
| `ComponentLoading.ComponentLoader.LoadComponent` | code/client/citicore/ComponentLoader.cpp:316-342 | finds the component, or `sticky` for an absent `adhesive`, marks only that one as loaded, and leaves an empty entry for each name it looked up in vain |
| `ComponentLoading.ComponentLoader.Look` | code/client/citicore/ComponentLoader.cpp:318-325 | a lookup leaves an empty entry exactly if there is no component of that name |
| `ComponentLoading.ComponentLoader.ProvidedBy` | code/client/citicore/ComponentLoader.cpp:256-268 | true exactly if some provide of the component matches the dependency |
| `ComponentLoading.ComponentLoader.FirstProvider` | code/client/citicore/ComponentLoader.cpp:249-275 | the first component of the iteration that provides the dependency |
| `ComponentLoading.ProviderIsFirst` | code/client/citicore/ComponentLoader.cpp:249-275 | the provider is the component of least position in the iteration that provides the dependency; there is none exactly if no known component does |
| `ComponentLoading.ComponentLoader.ResolveDepends` | code/client/citicore/ComponentLoader.cpp:244-282 | succeeds exactly if every dependency is provided by a known component or is a vendor one; the list is then the first provider of each provided dependency, in their order |
| `ComponentLoading.ResolvedExactly` | code/client/citicore/ComponentLoader.cpp:244-282 | the same for the specification of resolving |
| `ComponentLoading.OneList` | code/client/citicore/ComponentLoader.cpp:244-282 | there is only one such list |
| `ComponentLoading.ComponentLoader.LoadDependencies` | code/client/citicore/ComponentLoader.cpp:244-282 | appends the resolved list to this component's dependencies and changes no other |
| `ComponentLoading.ComponentLoader.LoadAllDependencies` | code/client/citicore/ComponentLoader.cpp:201-206 | succeeds exactly if every component resolves, and then the lists are the dependency graph |
| `ComponentLoading.ComponentLoader.LoadSorted` | code/client/citicore/ComponentLoader.cpp:220-241 | the loaded list becomes the sorted one and exactly its components are newly loaded |
| `ComponentLoading.ComponentLoader.Initialize` | code/client/citicore/ComponentLoader.cpp:201-241 | succeeds exactly if every dependency of every known component is provided or a vendor one; then each list holds the first providers in order, and every known component is loaded once, in an order that respects the dependencies |
| `ComponentLoading.SortListsAll` | code/client/citicore/ComponentLoader.cpp:208-218 | sorting all known components lists each of them once |
| `ComponentLoading.DependencySatisfied` | code/client/citicore/ComponentLoader.cpp:244-282 | each dependency of a loaded component is provided by one loaded earlier, or by one on a cycle with it, or is a vendor dependency nobody provides |
| `ComponentLoading.LoadOrder` | code/client/citicore/ComponentLoader.cpp:201-282 | load order end to end, for every set of components and every iteration order of the map |
| `SignalSlots.NoDanglingLink` | code/shared/sigslot.h:474-518 | with links in both directions, no live object refers to a destroyed one |
| `SignalSlots.DisconnectLinksExactly` | code/shared/sigslot.h:599-617 | disconnect keeps links consistent exactly when the destination has at most one connection |
| `SignalSlots.DoubleConnectionDangles` | code/shared/sigslot.h:599-617 | otherwise destroying the destination leaves a signal connected to it |
| `SignalSlots.DanglingRun` | code/shared/sigslot.h:599-617 | from no objects at all, making, connecting twice, disconnecting once and destroying leaves a connection to a destroyed object |
| `SignalSlots.OpKeepsLinked` | code/shared/sigslot.h:474-655 | every operation keeps links in both directions |
| `SignalSlots.RunKeepsLinked` | code/shared/sigslot.h:474-655 | no dangling links over any run of connecting, disconnecting, copying and destroying signals and slot objects in which `disconnect` is used on destinations with at most one connection |
| `SignalSlots.LinkedExactly` | code/shared/sigslot.h:474-655 | over any operations on live objects, links are consistent in all states exactly if every `disconnect` met a destination with at most one connection |
| `SignalSlots.CopyIsCalledAlike` | code/shared/sigslot.h:474-486 | a copied slot object is called by the same signals with the same functions in the same order, and calls on other objects do not change |
| `SignalEmissions.EmissionsAfter` | code/shared/sigslot.h:474-655 | after every operation: which objects are alive, and what each signal emits, connection by connection and in order: what is appended, the first one taken out, all of one object gone, or all of one object again for its copy at the end; a copied signal emits the same |
| `SignalObjects.EraseConnections` | code/shared/sigslot.h:619-638 | erasing while iterating removes exactly the connections to the object and keeps the order of the others |
| `SignalObjects.DuplicationEndsExactly` | code/shared/sigslot.h:640-655 | the loop that also visits what it appends reaches the end exactly if the targets differ or nothing is connected to them |
| `SignalObjects.DuplicateConnections` | code/shared/sigslot.h:640-655 | it then leaves the list followed by one duplicate per old-target connection, in order |
| `SignalObjects.Objects.ConnectSlot` | code/shared/sigslot.h:2244-2252 | connects at the end of the list and links back |
| `SignalObjects.Objects.DisconnectOne` | code/shared/sigslot.h:599-617 | removes the first connection to the object, and the back link if there was one |
| `SignalObjects.Objects.SlotDisconnect` | code/shared/sigslot.h:619-638 | the signal loses all connections to the object; other signals are untouched |
| `SignalObjects.Objects.SlotDuplicate` | code/shared/sigslot.h:640-655 | the signal gains the duplicates; other signals are untouched |
| `SignalObjects.Objects.DisconnectAllSlots` | code/shared/sigslot.h:564-579 | no slot object lists the signal any more and its list is empty |
| `SignalObjects.Objects.DeleteSignal` | code/shared/sigslot.h:551-554 | destruction leaves what the state machine says |
| `SignalObjects.Objects.DisconnectAllSenders` | code/shared/sigslot.h:505-518 | no signal is connected to the slot object any more, in any order of its senders |
| `SignalObjects.Objects.DeleteSlots` | code/shared/sigslot.h:500-503 | destruction leaves what the state machine says |
| `SignalObjects.Objects.CloneSignal` | code/shared/sigslot.h:535-549 | the copy has the same connections and is a sender of all their destinations |
| `SignalObjects.Objects.CloneSlots` | code/shared/sigslot.h:474-486 | the copy has the same senders, and each of them has duplicated connections |
| `Erasure.OneOwner` | code/shared/function2.hpp:817-940 | a box is not destroyed exactly if a wrapper owns it, and no two wrappers own one box |
| `Erasure.SwapDoes` | code/shared/function2.hpp:1593-1601 | the three moves through a temporary exchange the two callables and keep ownership, with in-place and heap boxes mixed in any way |
| `Erasure.OpDoes` | code/shared/function2.hpp:1092-1199 | every operation on distinct wrappers keeps ownership and does to the callables what its name says; a moved-from wrapper is empty |
| `Erasure.RunOwned` | code/shared/function2.hpp:1092-1199 | over any run from nothing, ownership holds and the callables are those of a plain map from wrappers to callables |
| `Erasure.StorageIsInvisible` | code/shared/function2.hpp:890-906 | two runs of the same operations with any two sets of capacities have the same callables throughout |
| `ErasurePlacement.RunPlaced` | code/shared/function2.hpp:890-906 | over every run, a box in a buffer fits there, and nothing that fits everywhere is on the heap |
| `ErasurePlacement.OpSound` | code/shared/function2.hpp:1092-1199 | every operation keeps that, on any state, also onto itself |
| `ErasurePlacement.OpPlaces` | code/shared/function2.hpp:817-940 | a new callable, a copy and a move out of a buffer make exactly one box, in the buffer if and only if it fits; a move from the heap makes none and hands the same box over |
| `Erasure.AllBoxesDestroyed` | code/shared/function2.hpp:1143-1145 | once all wrappers are gone, each box ever created has been destroyed exactly once |
| `Erasure.SelfMoveExactly` | code/shared/function2.hpp:1153-1159 | moving a wrapper onto itself is sound exactly if its box is not in its buffer, and then empties it |
| `Erasure.SelfCopyExactly` | code/shared/function2.hpp:1161-1166 | copying a wrapper onto itself is sound exactly if it is empty |
| `ErasureObjects.Wrappers.ConstructBox` | code/shared/function2.hpp:890-906 | one new box, whose table is the inplace one and which is not on the heap if and only if it fits the buffer |
| `ErasureObjects.Wrappers.MoveCommand` | code/shared/function2.hpp:822-849 | a heap pointer changes hands; a buffered box is moved into a new one and destroyed; the source's table is emptied |
| `ErasureObjects.Wrappers.CopyCommand` | code/shared/function2.hpp:850-862 | a new box of the same callable, and the source as it was |
| `ErasureObjects.Wrappers.WeakDestroyCommand` | code/shared/function2.hpp:863-880 | destroys the owned box once, if there is one |
| `ErasureObjects.Wrappers.NewWrapper` | code/shared/function2.hpp:1092-1141 | a wrapper of a callable or an empty one |
| `ErasureObjects.Wrappers.NewFromMove` | code/shared/function2.hpp:1100-1104 | takes the callable over and leaves the source empty |
| `ErasureObjects.Wrappers.NewFromCopy` | code/shared/function2.hpp:1106-1109 | has the same callable as the source |
| `ErasureObjects.Wrappers.MoveAssignFrom` | code/shared/function2.hpp:1153-1159 | takes the callable over, destroys the one it had and leaves the source empty; onto itself, sound exactly if the box is not in the buffer |
| `ErasureObjects.Wrappers.CopyAssignFrom` | code/shared/function2.hpp:1161-1166 | has the same callable as the source and has destroyed the one it had; onto itself, sound exactly if empty |
| `ErasureObjects.Wrappers.AssignCallable` | code/shared/function2.hpp:1178-1199 | holds the new callable, or nothing for an empty one |
| `ErasureObjects.Wrappers.DeleteWrapper` | code/shared/function2.hpp:1143-1145 | the wrapper and its box are gone |
| `ErasureObjects.Wrappers.SwapWith` | code/shared/function2.hpp:1593-1601 | exchanges the callables, also of a wrapper with itself |
| `ErasureObjects.Wrappers.Invoke` | code/shared/function2.hpp:991-1002 | runs the callable the wrapper stands for, wherever its box is; an empty wrapper runs none |
| `MsgPackRoundTrip.DecoderUndoesEncoding` | code/client/clrcore/MsgPackDeserializer.cs:27-257 | any legal encoding of any nested value, followed by any suffix, decodes to that value and leaves the reader at the suffix |
| `MsgPackRoundTrip.ItemsBack` | code/client/clrcore/MsgPackDeserializer.cs:50-62 | the array loop gives the items back in order |
| `MsgPackRoundTrip.EntriesBack` | code/client/clrcore/MsgPackDeserializer.cs:35-48 | the map loop gives entries with distinct string keys back in order |
| `MsgPackMaps.RepeatedKeys` | code/client/clrcore/MsgPackDeserializer.cs:35-48 | a map whose keys repeat holds each key once, with the value it was given last, in the order in which the keys turned up first |
| `MsgPackMaps.KeyOfAnyKind` | code/client/clrcore/MsgPackDeserializer.cs:35-48 | a string key is itself, a nil key throws, and any other key is its `ToString` |
| `MsgPackRoundTrip.ExtBack` | code/client/clrcore/MsgPackDeserializer.cs:351-384 | vector extensions of matching length and function references of any length come back, with the reader at the suffix |
| `MsgPackMalformed.ExtensionRead` | code/client/clrcore/MsgPackDeserializer.cs:341-384 | for any bytes and length: unknown extension types throw, vectors take the floats of their type whatever the length says, function references take what there is up to the length |
| `MsgPackMalformed.NothingToRead` | code/client/clrcore/MsgPackDeserializer.cs:27-33 | the empty stream throws |
| `MsgPackMalformed.OnlyC1IsInvalid` | code/client/clrcore/MsgPackDeserializer.cs:386-449 | of all type bytes only 0xC1 has no unpacker, and it throws |
| `MsgPackMalformed.ShortNumber` | code/client/clrcore/MsgPackDeserializer.cs:79-148 | a number cut short throws: at the end of the stream for one byte, by its index for more |
| `MsgPackMalformed.ShortBlob` | code/client/clrcore/MsgPackDeserializer.cs:156-211 | a string or binary cut short is what is left of the stream |
| `MsgPackMalformed.NegativeBlob` | code/client/clrcore/MsgPackDeserializer.cs:181-211 | 32-bit lengths are signed: from 0x80000000 on a string or binary throws |
| `MsgPackMalformed.NegativeCount` | code/client/clrcore/MsgPackDeserializer.cs:217-257 | and an array or map is empty |
| `MsgPackMalformed.ShortArray` | code/client/clrcore/MsgPackDeserializer.cs:50-62 | an array with fewer items than announced throws at the end of the stream |
| `MsgPackMalformed.OneByteKnown` | code/client/clrcore/MsgPackDeserializer.cs:386-449 | known answers for the formats of one byte |
| `MsgPackMalformed.DoubleWordsKnown` | code/client/clrcore/MsgPackDeserializer.cs:79-148 | known answers for 32-bit numbers, signed, unsigned and floating, byte by byte |
| `MsgPackMalformed.BlobsKnown` | code/client/clrcore/MsgPackDeserializer.cs:156-188 | known answers for short strings, binaries and function references |
| `MsgPackStreams.PackedIsLegal` | code/client/clrcore/MsgPackSerializer.cs:62-176 | what the serializer writes is a legal encoding of the value |
| `MsgPackStreams.SerializeRoundTrip` | code/client/clrcore/MsgPackSerializer.cs:62-176 | deserializing undoes serializing and consumes every byte |
| `MsgPackShortest.PackedIsShortest` | code/client/clrcore/MsgPackSerializer.cs:62-176 | no legal encoding of a value, with whatever formats for it and its parts, is shorter than the one that is written |
| `MsgPackStreams.Packer.Pack` | code/client/clrcore/MsgPackSerializer.cs:64-87 | appends the encoding of a value without parts, the shortest one by `PackedIsShortest` |
| `MsgPackStreams.Packer.Serialize` | code/client/clrcore/MsgPackSerializer.cs:62-176 | the recursion appends exactly the encoding of the value |
| `MsgPackStreams.Packer.SerializeItems` | code/client/clrcore/MsgPackSerializer.cs:112-122 | the loop appends the encodings of the items in order |
| `MsgPackStreams.Packer.SerializeEntries` | code/client/clrcore/MsgPackSerializer.cs:88-111 | the loop appends keys and values in order |
| `MsgPackStreams.Reader.UnpackAny` | code/client/clrcore/MsgPackDeserializer.cs:27-33 | for any bytes, legal or not, the reader returns and ends as the decoding function says, or throws what it says |
| `MsgPackStreams.Reader.UnpackFormat` | code/client/clrcore/MsgPackDeserializer.cs:64-257 | the same for each format after its type byte |
| `MsgPackStreams.Reader.UnpackArray` | code/client/clrcore/MsgPackDeserializer.cs:50-62 | the loop reads as many values as announced, none for a negative length |
| `MsgPackStreams.Reader.UnpackMap` | code/client/clrcore/MsgPackDeserializer.cs:35-48 | the loop sets entries one by one; a repeated key keeps its place and takes the later value, a nil key throws |
| `Relocations.AddAllInverse` | code/client/launcher/ExecutableLoader.cpp:449-472 | adding an offset to words that end together or are disjoint above the bytes it leaves alone, and subtracting it in the same order, restores every byte, with 32- and 64-bit wrap-around |
| `Relocations.RelocatedKeepsPlan` | code/client/launcher/ExecutableLoader.cpp:430-476 | relocating does not change which words a walk of the table relocates |
| `Relocations.WalkedAsPlanned` | code/client/launcher/ExecutableLoader.cpp:430-476 | on an image whose words avoid the table, a walk adds the offset exactly to the words planned from the image as it was, although it reads the table from the image it changes; it is refused exactly at an unknown type and never leaves the image |
| `Relocations.BadBlockEndsWalk` | code/client/launcher/ExecutableLoader.cpp:444-447 | no walk gets past a block that is shorter than its own header (the entry count wraps around) or that reaches out of the image |
| `Relocations.RelocationInverse` | code/client/launcher/ExecutableLoader.Snapshot.cpp:227-314 | a walk with an offset and one with its opposite restore every byte and end alike, if the words end together or are disjoint above the bytes the offset leaves alone, also if they stop early at an unknown type |
| `Relocations.AddWord` | code/client/launcher/ExecutableLoader.cpp:458-465 | adds to one little-endian word of the image, wrapping around, and changes no other byte |
| `Relocations.WalkBlock` | code/client/launcher/ExecutableLoader.cpp:445-472 | for any image, the entries of a block are read from the image being changed, up to an unknown type or a word outside the image |
| `Relocations.WalkTable` | code/client/launcher/ExecutableLoader.cpp:430-476 | for any image the walk ends, with the image and the outcome the specification gives; a block's size is read again after its entries |
| `Relocations.ApplyRelocations` | code/client/launcher/ExecutableLoader.cpp:404-479 | with offset zero the image is left as it is; else any image is walked with the offset, and it is refused exactly at an unknown type (`WalkedAsPlanned` says what that does) |
| `Relocations.UnapplyRelocations` | code/client/launcher/ExecutableLoader.Snapshot.cpp:227-314 | with offset zero the image is left as it is; else any image is walked with the offset or its opposite |
| `Relocations.UnapplyUndoesApply` | code/client/launcher/ExecutableLoader.Snapshot.cpp:227-314 | applying and then un-applying leaves every byte as it was, if the words end together or are disjoint above the bytes the offset leaves alone |
| `Relocations.ReapplyUndoesUnapply` | code/client/launcher/ExecutableLoader.Snapshot.cpp:227-314 | un-applying and then re-applying leaves every byte as it was, under the same condition |
| `RelocationTables.TableUnderstood` | code/client/launcher/ExecutableLoader.cpp:430-476 | for every table written as the PE format lays it out, wherever it lies in the image, the walk relocates exactly the words it names, up to the first entry of unknown type |
| `RelocationTables.TableApplied` | code/client/launcher/ExecutableLoader.cpp:404-479 | walking an image that holds such a table adds the offset to the named words and to nothing else, and is refused exactly if an entry has an unknown type |
| `RelocationEdges.WordOutsideFaults` | code/client/launcher/ExecutableLoader.cpp:449-472 | a walk relocates the words up to the first one outside the image, and faults there |
| `RelocationEdges.EmptyBlockEndsTable` | code/client/launcher/ExecutableLoader.cpp:439-443 | a block of size zero ends the table, whatever stands behind it and however large the table is said to be |
| `RelocationEdges.SizeIsReadAgain` | code/client/launcher/ExecutableLoader.cpp:475-476 | a table that relocates the size of its own block: the loader goes on by the new size |
| `RelocationOverlap.RestoredExactly` | code/client/launcher/ExecutableLoader.Snapshot.cpp:272-309 | for every list of different words and every number of low bytes below four: un-applying in the same order restores every image, for all offsets that leave these bytes alone, exactly if any two words end together or are disjoint above them |
| `RelocationOverlap.CrossingSpoils` | code/client/launcher/ExecutableLoader.Snapshot.cpp:272-309 | as soon as two of them overlap otherwise, there is an image and such an offset that is not restored, whatever the other words are |
| `RelocationOverlap.TableSpoils` | code/client/launcher/ExecutableLoader.Snapshot.cpp:272-309 | for every table that names two such words there is an image holding the table that walking it back and forth does not restore |
| `RelocationOverlap.TableRestoredExactly` | code/client/launcher/ExecutableLoader.Snapshot.cpp:227-314 | for every table that names each word once, un-applying restores every image that holds it exactly under that condition |
| `RelocationOverlap.LoaderRestoresExactly` | code/client/launcher/ExecutableLoader.Snapshot.cpp:227-314 | for the multiples of 64 KiB a module base can give, exactly if the words without their two low bytes are pairwise disjoint or end together |
| `RelocationOverlap.ReverseRestores` | code/client/launcher/ExecutableLoader.Snapshot.cpp:272-309 | in the reverse order un-applying would always restore the image |
| `RelocationOverlap.NamedTwice` | code/client/launcher/ExecutableLoader.Snapshot.cpp:272-309 | a table that names a word, another and the first again is restored even if they overlap |
| `DownloadQueue.RunIsSafe` | code/client/launcher/Download.cpp:184-1108 | in every reachable state at most 6 downloads are in flight, at most 2 huge and 1 mega-huge, none retried more than 10 times; queued = completed + in flight + waiting; admission is FIFO |
| `DownloadQueue.AdmissionWithinLimits` | code/client/launcher/Download.cpp:245-276 | tests on the number in flight alone keep the limits on the number of huge and mega-huge files |
| `DownloadQueue.AdmittedExactly` | code/client/launcher/Download.cpp:245-276 | the same for the specification of admission, which otherwise changes nothing |
| `DownloadQueue.IdleQueueAdmits` | code/client/launcher/Download.cpp:1086-1100 | with nothing left in flight a call admits exactly the head of the queue, whatever its size |
| `DownloadQueue.RunIsMegaFirst` | code/client/launcher/Download.cpp:245-276 | in every reachable state a mega-huge download in flight is the first of those in flight |
| `DownloadQueue.LoneMegaHuge` | code/client/launcher/Download.cpp:264-271 | a mega-huge download that is alone stays so in an admission exactly if the head of the queue is mega-huge too |
| `DownloadQueue.StaysAloneExactly` | code/client/launcher/Download.cpp:1086-1100 | over any stretch of a run in which a mega-huge download is in flight, it is alone exactly if every call that could admit a head finds a mega-huge one, or none |
| `DownloadQueue.MegaHugeGetsCompany` | code/client/launcher/Download.cpp:264-271 | for all sizes, a run from the start in which the next file joins a mega-huge one unless it is mega-huge too |
| `DownloadRetries.GivesUpExactly` | code/client/launcher/Download.cpp:930-1055 | a list of reports makes processing give up exactly if one of them is on a download still in flight and is a refusal, a failed move, or a break after ten restarts, those earlier in the list included |
| `DownloadRetries.LeftAfterReports` | code/client/launcher/Download.cpp:930-1055 | otherwise the downloads reported as done are gone and counted, and each other one is there with one more restart for each break |
| `DownloadRetries.TenRetries` | code/client/launcher/Download.cpp:1022-1048 | a transfer that breaks n times and is then done completes exactly if n is at most ten, and the queue goes on |
| `DownloadRetries.RunGivesUpExactly` | code/client/launcher/Download.cpp:1057-1108 | over every run, a call sets the error and stops exactly if one of its reports is fatal |
| `DownloadRetries.DownloadGoesOn` | code/client/launcher/Download.cpp:1057-1108 | a call that does not give up ends a download exactly if it is reported as done, and otherwise leaves it with its restarts |
| `DownloadRetries.RestartsAreBreaks` | code/client/launcher/Download.cpp:1022-1048 | over every run without an error, the restarts of a download in flight are exactly the breaks it has had |
| `DownloadQueue.Downloader.QueueDownload` | code/client/launcher/Download.cpp:196-219 | appends to the queue and keeps the invariant |
| `DownloadQueue.Downloader.QueueMirror` | code/client/launcher/Download.cpp:186-194 | the patch file becomes ten downloads at the end of the queue, nine of 104857600 bytes and one of 87584200 |
| `DownloadQueue.Downloader.DequeueDownload` | code/client/launcher/Download.cpp:245-276 | admits the head exactly if fewer than six are in flight, it is at most 10 MiB or fewer than two are, and at most 40 MiB or none is; keeps the invariant |
| `DownloadQueue.Downloader.HandleReport` | code/client/launcher/Download.cpp:930-1049 | a broken transfer of a download restarted fewer than ten times adds one restart to it and changes nothing else; the eleventh break, a refusal or a failed move gives up; a finished one is removed and counted; reports on others are passed over |
| `DownloadQueue.Downloader.ProcessDownload` | code/client/launcher/Download.cpp:930-1055 | handles reports in order up to the first that gives up |
| `DownloadQueue.Downloader.Process` | code/client/launcher/Download.cpp:1057-1108 | one round; true exactly if downloading stopped or nothing is waiting or in flight |
| `Base64.BuildDecodingTable` | code/shared/base64.cpp:92-100 | the table has exactly the alphabet's 64 characters and inverts the encoding table |
| `Base64.Alphabet` | code/shared/base64.cpp:5-12 | the encoding table is the alphabet of section 4 of RFC 4648 |
| `Base64Texts.TestVectors` | code/shared/base64.cpp:18-47 | the test vectors of section 10 of RFC 4648 |
| `Base64Texts.DecodedTexts` | code/shared/base64.cpp:50-85 | a text is not decoded exactly if its length is no multiple of four or zero; else its octets are 3/4 of it less the `=` among the last two characters, and each is the eight bits of its characters in their order |
| `Base64.DecodeUndoesEncode` | code/shared/base64.cpp:18-85 | for every non-empty byte string decoding the encoding gives it back, from a text of length 4·⌈n/3⌉, whatever the table holds outside the alphabet |
| `Base64.EncodeUndoesDecode` | code/shared/base64.cpp:18-85 | every canonical text is the encoding of what it decodes to |
| `Base64.CanonicalExactly` | code/shared/base64.cpp:50-85 | encoding undoes decoding exactly on the canonical texts (section 3.5 of RFC 4648) |
| `Base64.OverwrittenIsEncoded` | code/shared/base64.cpp:43-44 | padding written over the end of whole groups gives the encoding of section 4 of RFC 4648 |
| `Base64.Encode` | code/shared/base64.cpp:18-47 | the loops compute the encoding |
| `Base64.FourSymbols` | code/shared/base64.cpp:35-40 | shifting and masking the 24-bit number gives the symbols of the bits taken six at a time |
| `Base64.Decoder.Decode` | code/shared/base64.cpp:50-85 | builds the table on first use and, looking characters up in it, computes the decoding; tells a bad length and an empty text apart |

## Left out

- Hash maps and dictionaries: their iteration order is arbitrary in the model; dictionaries from a task's id to the task are sets of ids.
- Two threads in `Tick` at once: the scheduler allows one; tasks run inline are only in the single-threaded model.
- `ComponentLoading.ComponentLoader.LoadComponent`: where the original ends the process there is no result; creating component instances is left out.
- `ComponentLoading.ComponentLoader.Initialize`: the map holds no empty entries, which the loops of the original would take for components.
- `ComponentIds.Parse`: numbers beyond 32 bits are read as unbounded integers, and a write past the scratch buffer becomes an `Overflow` result.
- The token bucket's floating-point rounding (exact reals instead), `consumeWithBorrowAndWait`, and claims about borrowing under interleaving beyond the signed total.
- sigslot: signals with arguments, which repeat the same code; threading policies; emission while connections change; compiler-generated assignment.
- function2: views, exceptions, temporaries made while boxing, conversion between differently sized wrappers by value. The fields `owner` and `destroyed` of a box only serve the specification.
- The MessagePack packer library: replaced by the choice of the shortest format. Text is bytes without UTF-8 checks; the .NET type an integer is boxed as is not kept; turning a key that is not a string into one is a parameter.
- Serializing delegates and objects by reflection; calling function references.
- `MsgPackStreams.Reader.UnpackFormat`: formats without nested values are read in one step by the decoding function, because they have no loop.
- `Relocations.ApplyRelocations`: the place of the table and the load offset, read from the image headers and the load address, are parameters; page protection is left out. An access outside the image is a `Fault` outcome, after which there is no result. Entry counts wrap around at 64 bits.
- `Relocations.UnapplyRelocations`: the same holds.
- `RelocationOverlap.LoaderRestoresExactly`: offsets range over all multiples of 64 KiB, without the bound of an address space.
- `DownloadQueue.Downloader.HandleReport`: starting transfers, decompression, file system errors other than a failed move, IPFS, segments, byte counts and the user interface are left out.
- `Base64.Decoder.Decode`: what the decoding table holds outside the alphabet is a parameter; for an empty text the original reads before its start, which is an `OutOfBounds` result here.
- Win32 hooks, file redirection, exception plumbing, imports, snapshots, gRPC, COM and Mono interop, hashing, logging and locale code.
