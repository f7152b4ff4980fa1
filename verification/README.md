# Verified model of cli-toolkit

Dafny models of the parts of the toolkit whose behaviour is hardest to see from the code, with proofs of
what they promise. `dafny verify dfyconfig.toml` checks the whole project.

1. **The test clock** (`clock/`). `ScheduleSpec` is a scheduler over a sorted queue of values;
   `ScheduleLaws` and `ScheduleTies` prove what one `Advance` does with it; `ClockMachine`, `ClockInvariant`,
   `ClockRuns`, `ClockOrder`, `ClockStops`, `ClockAfters` and `ClockCallbacks` make a state machine of every
   operation, with `Advance` split into the step that holds the lock and the deliveries that do not, and prove
   what every interleaved run keeps. `SchedHeap` and `TestClock` are the program's own objects (a binary heap of
   shared entries that know their index, tickers, channels, timers that swap their entry) and are proved to
   simulate the value scheduler call by call.
2. **The jailed filesystem** (`toolkit/filesystem/os_fs.go`, `toolkit/jail`). `Os` is pathname resolution on
   a tree of directories, files and links as section 4.13 (Pathname Resolution) of the Base Definitions of
   IEEE Std 1003.1-2017 describes it, with a limit on followed links; `Syscalls` the calls on top of it;
   `Paths` the path algebra; `Resolvers` the four resolvers. `Confinement`, `RootOps`, `ReadAfterWrite`,
   `AtomicWrite`, `AtomicEffects`, `PlainReads`, `AtomicInJail` and `JailRuns` prove containment, read after
   write with and without a jail, atomic replacement and closure over runs. `Calls` has the calls with and
   without a jail; `CallEffects`, `MakingDirs` and `AtomicSpots` say, by pathname resolution alone, which place
   a call works on, when it succeeds and what the tree is afterwards. `OsFs` is the object with its loops and
   system calls, proved to have those effects; `OsFsRuns` says what its clients see.
3. **The pipeline** (`sandbox/`). `PipelineSpec` is a chain of deterministic runners joined by synchronous
   pipes, as an interleaved transition system, beside the composition of what each runner does alone;
   `PipelineMoves` and `PipelineRuns` prove that the two agree whatever the interleaving, `PipelineConfluence`
   that moves commute, `PipelineLiveness` that disciplined pipelines are never stuck, even if their stages run
   for ever, and `PipelineProgress` exactly when a pipeline finishes. `Processes` is the program's wiring of processes.
4. **Smaller parts**: the jail and working directory kept in the runtime, its environment and its
   filesystem (`RuntimeState`), and the configuration cascade (`CfgCascade`, `CascadeOrders`).

## Findings

Where code and comments differ, the model does what the code does.

- `clock/scheduling.go:17-25` says that `Stop` and `Reset` answer true when they stopped a call that had not
  run yet. They answer true for every entry without a tombstone, and a fired entry gets none.
  `ClockRuns.StopAfterFiringAnswersTrue` is a run; `ClockStops.AnswersArePromisedIff` is the exact condition
  on the operations since the timer was last armed, by `AfterFunc` or by a reset.
- `clock/scheduling.go:11-12` says that no tick is delivered after a ticker's `Stop`. An `Advance` that has
  collected one already still delivers it: `ClockStops.StopIsFinalIff`.
- `clock/clock.go:49-50` promises that events with equal deadlines fire in order of registration. A ticker
  gets a new id with every tick, so order is by heap insertion. `ScheduleLaws.RegistrationOrderIsBroken` and
  `ScheduleTies.TickersOutOfOrder` are runs; the exact conditions, for the three kinds of pair, are
  `ClockOrder.OneShotsKeepOrder` (always), `ClockOrder.OneShotKeepsOrderIff` and
  `ClockOrder.TickersKeepOrderIff`.
- `toolkit/jail/path.go:62` tests for the text `..` at the front of the relative path, so a name such as
  `..foo` directly under the jail counts as an escape (`Paths.InJailMeansUnder`). A write through a link
  can therefore succeed and not be readable at the same path: `ReadAfterWrite.WrittenButNotReadable`; the
  exact condition is in `ReadAfterWrite.ReadAfterWrite`.
- `toolkit/filesystem/os_fs.go:392-405` without a jail: an atomic write can replace a link that its own path goes
  through, and then nothing can be read at that path. `PlainReads.WrittenButCutOff` is an input, `l/l` where `l`
  is a link to the root; `PlainReads.ReadAfterPlainAtomicWriteIff` the exact condition.
- `toolkit/filesystem/os_fs.go:392-399` says that an atomic write replaces a link in the final place. In a jail
  the open resolver has already resolved that link, so what it leads to is replaced and every link survives
  (`AtomicInJail.LinksSurvive`); without a jail the link itself is replaced (`AtomicEffects.LinkIsReplacedIff`,
  `AtomicEffects.LinkInPlaceIsReplaced`). When it leads to the jail's root, the temporary file is made beside
  the jail: `AtomicInJail.TempBesideJail` is an input, `AtomicInJail.StepsAreConfinedUnlessRoot` the exact
  condition.
- `toolkit/filesystem/os_fs.go:472-475` returns the jail as it stands for the virtual root, so operations on `/`
  act on the jail itself: `RootOps.RemoveTakesTheJail` is an input. The exact conditions, in terms of what the
  jail's path leads to before the call, are `RootOps.RemoveIsConfinedIff` and the lemmas of that name for the
  other mutators.
- `sandbox/process.go:234-244` closes only the writers' ends. A stage that returns with input left makes the
  one before it wait for ever: `PipelineProgress.EarlyReturnHangs`; the exact condition is
  `PipelineProgress.BlocksIff`, and `PipelineLiveness.CalmIsNeverStuck` is the discipline that avoids it. A stage
  without a runner closes nothing (`sandbox/process.go:163-167`), so who reads on behind it waits for ever too.
- `sandbox/pipeline.go:133` passes on a stage's error only. A stage that returns an exit code other than 0
  without an error leaves the pipeline's exit code 0 (`PipelineProgress.CodeWithoutErrorIsLost`);
  it tells whether some stage's code is other than 0 exactly when such codes and errors go together
  (`PipelineProgress.ExitCodeIff`). A second `Run` shows the first one's output again in front of its own,
  because the buffer at `sandbox/pipeline.go:92-94` is kept (`Processes.Pipeline.Run`).
- `toolkit/runtime.go:240-264` shares the filesystem between a runtime and its clone. Setwd and Set on the clone
  do not show in what the original resolves (`RuntimeState.RunOnClone`); SetJail on the clone takes the
  original's jails apart (`RuntimeState.JailOnClone`).
- `cfgcascade/cascade.go:82-84` sorts with a sort that is not stable: layers of equal rank may be merged in
  either order. `CascadeOrders.ManyOrdersIff` and `CascadeOrders.ReportVariesIff` say exactly when there is
  more than one order and when it shows in the reported sources and errors;
  `CfgCascade.EqualRanksAreAmbiguous` is the case of two values.

## Model

| member | source | states |
|---|---|---|
| `ScheduleSpec.PopCostsOne` | clock/scheduler.go:268-292 | one iteration of the drain loop lowers by exactly one the sum, over due entries, of 1 plus the ticks a live ticker still has until the limit; re-inserting does not raise it |
| `ScheduleLaws.IterationsAreExact` | clock/scheduler.go:268-292 | the drain loop makes exactly that many iterations |
| `ScheduleLaws.DrainFrame` | clock/scheduler.go:268-294 | after draining, no entry left is due, and clock, tombstones and tickers are untouched |
| `ScheduleLaws.DrainSplits` | clock/scheduler.go:268-292 | draining to a and then to b drains like draining to b at once |
| `ScheduleLaws.AdvanceComposes` | clock/scheduler.go:257-295 | Advance(a) and then Advance(b), b not negative, give the queue, ids, clock and list of fires of Advance(a + b) |
| `ScheduleLaws.FiresAreOrdered` | clock/scheduler.go:63-68 | one Advance fires in strictly increasing order of deadline and id, nothing after the limit, nothing before the head of the queue |
| `ScheduleLaws.OneShotsFireWhenDue` | clock/scheduler.go:268-294 | a one-shot fires in an Advance if and only if it is queued, due and without tombstone; it stays queued if and only if it is not due |
| `ScheduleLaws.FiresUseEachIdOnce` | clock/scheduler.go:268-292 | no entry fires twice, none with a tombstone fires, and what fired is no longer queued |
| `ScheduleLaws.ScheduleIsArithmetic` | clock/scheduler.go:277-291 | from next deadline d up to N there are (N - d) / p + 1 ticks, the k-th at d + k p |
| `ScheduleLaws.TickersKeepTime` | clock/scheduler.go:277-291 | in one Advance a live ticker fires at exactly those times and is queued again for the first one after the limit |
| `ScheduleLaws.StoppedTickersStaySilent` | clock/scheduler.go:268-281 | a stopped ticker does not fire, even when its entry is still queued |
| `ScheduleLaws.TiesFollowInsertion` | clock/clock.go:47-50 | a one-shot fires ahead of a ticker's tick for the same instant if and only if that tick is a later insertion: not the queued one, or queued under a larger id |
| `ScheduleLaws.RegistrationOrderIsBroken` | clock/clock.go:47-50 | NewTicker(p), AfterFunc(2p), Advance(2p): the callback fires ahead of the tick of the ticker that was registered first |
| `ScheduleTies.TickersTie` | clock/scheduler.go:277-291 | of two live tickers due at the same instant, the one whose tick is queued already fires first; of two that are not, that with the longer period, and with equal periods the one due later or inserted earlier; both directions |
| `ScheduleTies.TickersOutOfOrder` | clock/clock.go:47-50 | NewTicker(p), NewTicker(2p), Advance(2p): the second ticker fires ahead of the first one's tick at 2p |
| `ScheduleTies.OneShotsInOrder` | clock/scheduler.go:63-68 | two live one-shots that are due fire in order of deadline and id, and no other |
| `ScheduleLaws.DeliverConcat` | clock/scheduler.go:298-318 | delivering two lists of fires fills the channels like delivering their concatenation |
| `ScheduleLaws.FirstOneStays` | clock/scheduler.go:298-318 | an empty one-slot channel ends up with the first time fired for it; later ones are dropped |
| `ScheduleLaws.SlotsStay` | clock/scheduler.go:298-318 | a full channel, or one for which nothing fires, keeps what it has |
| `ClockInvariant.StepKeeps` | clock/scheduler.go:148-319 | every operation, and each of the two halves of Advance, keeps the invariant: distinct ids, one live generation a timer, tickers on time, fires neither lost nor doubled |
| `ClockRuns.TickersNeverDrift` | clock/scheduler.go:277-291 | in every run a ticker has fired at created + p, created + 2p, ... without gap or repeat; while live it is queued for the next one, and it never has two entries |
| `ClockRuns.OneLiveGeneration` | clock/scheduler.go:230-248 | in every run a timer has at most one entry without tombstone, and no entry is collected twice, however Advances overlap |
| `ClockRuns.FiresAreConserved` | clock/scheduler.go:298-318 | in every run, what was collected is what was delivered and what overlapping Advances still hold |
| `ClockRuns.TombstonedNeverFires` | clock/scheduler.go:214-222 | a generation with a tombstone that has not been collected never will be, whatever happens next |
| `ClockOrder.OneShotsKeepOrder` | clock/clock.go:47-50 | in every reachable state two one-shots with equal deadlines fire in order of registration |
| `ClockOrder.OneShotKeepsOrderIff` | clock/clock.go:47-50 | in every reachable state a one-shot and a ticker due at the same instant fire in order of registration if and only if the one-shot was registered first, or that tick is queued already under an older id |
| `ClockOrder.TickersKeepOrderIff` | clock/clock.go:47-50 | in every reachable state two tickers due at the same instant fire in order of registration if and only if the first one is ahead by queued deadline, id and period; the queued deadlines are created + (ticks + 1) periods |
| `ClockStops.StoppedRun` | clock/scheduler.go:198-202 | after a ticker's Stop no tick of it is collected in any run, and none delivered if none was in flight |
| `ClockStops.StopIsFinalIff` | clock/scheduling.go:11-12 | no tick is delivered after Stop in any run if and only if no running Advance holds one when it is called |
| `ClockStops.FiresIff` | clock/scheduler.go:214-294 | an armed timer fires in a run if and only if the run advances to its deadline before it stops or resets the timer |
| `ClockStops.AnswersArePromisedIff` | clock/scheduling.go:17-25 | for a timer made by AfterFunc and after any operations, resets included: Stop and Reset answer true if and only if it has not been stopped since it was last armed; it is pending if and only if also no Advance has reached its deadline since; so the answer is the documented one if and only if it has been stopped since or its deadline not reached |
| `ClockRuns.AnswersArePromisedUnlessFired` | clock/scheduling.go:17-25 | Stop and Reset answer as documented if and only if the generation has a tombstone or has not been collected |
| `ClockRuns.StopAfterFiringAnswersTrue` | clock/scheduling.go:17-25 | after AfterFunc(d) and Advance(d) the callback has been launched and Stop answers true |
| `ClockAfters.AfterSendsOnTime` | clock/scheduler.go:185-194 | for an After(d) made at time b in any reachable state, and after any operations: its entry is collected if and only if some Advance since has reached b + d, and then once; nothing else is sent on the channel; the channel holds b + d from the delivery until that is received and is empty before and after |
| `ClockCallbacks.TimersKeepTheirCallback` | clock/scheduler.go:230-248 | whatever is done with a timer, resets included, all that fires for it is the callback it was made with |
| `ClockRuns.DeliverAll` | clock/scheduler.go:298-318 | handing over a thread's fires one by one has the effect of delivering them all |
| `ClockRuns.AdvanceIsARun` | clock/scheduler.go:257-319 | an undisturbed Advance is the run of its collecting step and its deliveries |
| `ClockRuns.AdvancesCompose` | clock/scheduler.go:257-319 | two Advances with nothing between are one: same queue, ids, clock, fires, delivered list and channel contents |
| `SchedHeap.RootIsLeast` | clock/scheduler.go:63-68 | in a heap ordered parent by parent the root is least of all by deadline and id |
| `SchedHeap.RiseStep` | clock/scheduler.go:76-80 | a swap on the way up leaves only the order above the risen entry open |
| `SchedHeap.SinkStep` | clock/scheduler.go:82-90 | a swap with the lesser child leaves only the order below the sunk entry open |
| `SchedHeap.Heap.Push` | clock/scheduler.go:76-80 | the heap stays ordered with every entry at its index, and holds one more entry |
| `SchedHeap.Heap.Pop` | clock/scheduler.go:82-90 | gives the root, which no other entry is before, with index -1; the rest stays a heap of exactly the other entries |
| `TestClock.Clock.AddTicker` | clock/scheduler.go:155-168 | the object graph simulates the value scheduler's AddTicker; ticker and channel are new |
| `TestClock.Clock.NewTicker` | clock/clock.go:69-77 | panics exactly for a period that is not positive, and then nothing has changed |
| `TestClock.Clock.AddAfterFunc` | clock/scheduler.go:172-181 | simulates AddAfterFunc and gives the new entry, due at the clock's time plus d |
| `TestClock.Clock.AddAfter` | clock/scheduler.go:185-194 | simulates AddAfter with a new empty channel; the entry is due at the clock's time plus d |
| `TestClock.Clock.StopTicker` | clock/scheduler.go:198-202 | the shared flag stops every future entry of the ticker |
| `TestClock.Clock.Cancel` | clock/scheduler.go:214-222 | sets the tombstone and answers whether there was none |
| `TestClock.Clock.ResetTimer` | clock/scheduler.go:230-248 | old entry tombstoned, new one queued under a new id; answers whether the old one had no tombstone |
| `TestClock.Clock.PopStep` | clock/scheduler.go:268-292 | one iteration of the loop is one pop of the least entry, with a live ticker put back |
| `TestClock.Clock.Drain` | clock/scheduler.go:268-292 | the loop ends and collects what the value scheduler's drain does |
| `TestClock.Clock.CollectDue` | clock/scheduler.go:257-295 | the part under the lock is the collecting step, with the clock set after draining |
| `TestClock.Clock.Fire` | clock/scheduler.go:298-318 | the part without the lock delivers to the channels and launches the callbacks in order |
| `TestClock.LaunchesInOrder` | clock/scheduler.go:298-318 | the callback of a fire is launched just after those of the fires ahead of it, and what is no callback launches nothing |
| `TestClock.LaunchesCount` | clock/scheduler.go:298-318 | every callback is launched as often as it is among the fires |
| `TestClock.Clock.Advance` | clock/clock.go:54-56 | queue, channels and launches after an Advance are those of the value scheduler |
| `TestClock.TestTimer.Stop` | clock/scheduler.go:118-122 | the answer is about the tombstone of the current entry only |
| `TestClock.TestTimer.Reset` | clock/scheduler.go:124-130 | the timer refers to the new generation afterwards and keeps its callback |
| `Paths.RemoveUndoesJoin` | toolkit/jail/path.go:20-36 | taking the jail off a virtual path that was joined to it gives the virtual path, for every clean one |
| `Paths.InJailMeansUnder` | toolkit/jail/path.go:43-63 | IsInJail holds if and only if the jail is a prefix by components and the next component does not begin with two dots |
| `Paths.CleanOne` | toolkit/filesystem/os_fs.go:594-601 | one more component: "." changes nothing, ".." takes away the last name, a name is added |
| `Paths.CleanConcat` | toolkit/filesystem/os_fs.go:594-601 | cleaning a path is cleaning its front and going on from there |
| `Resolvers.AncestorIsLongest` | toolkit/filesystem/os_fs.go:480-504 | the walk up stops at an ancestor that exists and below which the next component does not; nothing of the path is lost |
| `Resolvers.CreateIsContained` | toolkit/filesystem/os_fs.go:447-525 | for every tree, jail and virtual path but the root: if the create resolver gives a host path, resolving it without following the last component fails or ends strictly below the canonical jail |
| `Resolvers.OpenIsContained` | toolkit/filesystem/os_fs.go:541-579 | the same for the open resolver with the last component followed, in or at the canonical jail; missing tails and dangling ancestors included |
| `RootOps.MkdirIsConfinedIff` | toolkit/filesystem/os_fs.go:152-163 | for every tree and virtual path: Mkdir and MkdirAll change nothing outside the canonical jail, error or not, if and only if the path is off the root, or there is nothing to make at the root: for Mkdir, the jail's path does not lead to a free place; for MkdirAll, no prefix of it does |
| `RootOps.MkdirAllChangesIff` | toolkit/filesystem/os_fs.go:152-163 | MkdirAll changes the tree if and only if some prefix of the path leads to a free place in a directory |
| `RootOps.RemoveIsConfinedIff` | toolkit/filesystem/os_fs.go:165-179 | for every tree and virtual path: Remove and RemoveAll are confined if and only if the path is off the root, or the jail's path leads to nothing that can be taken (nothing, the tree's root or, for Remove, a directory that is not empty), or to a link below the directory it leads to |
| `RootOps.RemoveTakesTheJail` | toolkit/filesystem/os_fs.go:472-475 | RemoveAll of the root takes the jail with everything in it, and succeeds |
| `RootOps.SymlinkIsConfinedIff` | toolkit/filesystem/os_fs.go:230-251 | for every tree and virtual path: Symlink is confined if and only if the path is off the root, its target is refused, or the root's place is not free |
| `RootOps.WriteIsConfinedIff` | toolkit/filesystem/os_fs.go:140-150 | for every tree and virtual path: WriteFile, which follows a link in the last place, is confined if and only if the path is off the root, or the jail's path leads neither to a free place nor, followed, to a file with other data |
| `RootOps.RenameIsConfinedIff` | toolkit/filesystem/os_fs.go:181-193 | for every tree and pair of virtual paths, the root among them: Rename is confined if and only if there is nothing to move, or it moves a node from below the canonical jail to below it or onto a copy of that node; off the root it always is, and of the root to itself nothing changes |
| `RootOps.RenameChangesIff` | toolkit/filesystem/os_fs.go:181-193 | a rename changes the tree if and only if both places are known and one node can be moved to the other, and then it is that move |
| `CallEffects.SpotIsPlace` | toolkit/filesystem/os_fs.go:447-525 | what the create resolver gives leads to the last name of the path in the directory that the rest of it leads to, if there is such a directory and the jail lets it through, and otherwise nowhere; both directions, without a jail too |
| `CallEffects.RemoveEffect` | toolkit/filesystem/os_fs.go:165-179 | Remove succeeds if and only if a node is at that place and nothing below it, unless all is to go; RemoveAll also if there is none; then it is gone with all below it and every other node is unchanged; an error changes nothing |
| `CallEffects.MkdirEffect` | toolkit/filesystem/os_fs.go:152-163 | Mkdir succeeds if and only if the place is free, and then a directory is there and nothing else has changed |
| `CallEffects.RenameEffect` | toolkit/filesystem/os_fs.go:181-193 | Rename succeeds if and only if the node can be moved to the other place, or is there and no directory; then the node and all below it are there and no longer here, and every other node is unchanged |
| `CallEffects.SymlinkEffect` | toolkit/filesystem/os_fs.go:230-251 | Symlink succeeds if and only if the place is free and the jail lets the target through; then a link with the target's host path is there and nothing else has changed |
| `CallEffects.LinkLeadsToTarget` | toolkit/filesystem/os_fs.go:230-251 | following the name of a link that was made comes to what following its target does, with one link less to spare and those on the way |
| `CallEffects.ReadThroughLink` | toolkit/filesystem/os_fs.go:230-251 | reading a link that was made is reading its target, unless the links on the way are too many |
| `CallEffects.WriteEffect` | toolkit/filesystem/os_fs.go:140-150 | WriteFile succeeds if and only if the place is free or a file, or a link to a file (in a jail, one in the jail; without one, a free place will do), and then the data is there and nothing else has changed |
| `MakingDirs.MkdirAllSucceedsIff` | toolkit/filesystem/os_fs.go:152-163 | MkdirAll succeeds if and only if a directory is there, or some prefix of the path leads to a free place in a directory; then the path leads to a directory, and all that is new are directories |
| `MakingDirs.MkdirAllEffect` | toolkit/filesystem/os_fs.go:152-163 | the same with and without a jail; the path as written then leads to a directory, unless its links are too many |
| `MakingDirs.CreateBelowDirectory` | toolkit/filesystem/os_fs.go:480-525 | if the front of a path leads to a directory of the jail and the rest is not there, the create resolver gives that directory with the rest below it, however long it is |
| `MakingDirs.MkdirAllBelowDirectory` | toolkit/filesystem/os_fs.go:152-163 | there MkdirAll succeeds |
| `MakingDirs.RemoveAllOfNothing` | toolkit/filesystem/os_fs.go:165-179 | and RemoveAll succeeds and changes nothing |
| `AtomicSpots.AtomicEffect` | toolkit/filesystem/os_fs.go:392-405 | a completed AtomicWriteFile has put the data where a plain write would, in a jail, and without one at the very place the path names; nothing else has changed |
| `Confinement.OpenedFileIsBelow` | toolkit/filesystem/os_fs.go:541-579 | a file the open resolver leads to lies strictly below the canonical jail |
| `ReadAfterWrite.FollowAgrees` | toolkit/filesystem/os_fs.go:581-644 | when following resolution gives v, the host path of v denotes the node the argument does, that node is under the canonical jail, and resolving v again gives v; also when the jail's own path has links |
| `ReadAfterWrite.OpenShapes` | toolkit/filesystem/os_fs.go:541-579 | the open resolver's answer is the canonical ancestor with the missing rest, or the end of a chain of links |
| `ReadAfterWrite.ReadAfterWrite` | toolkit/filesystem/os_fs.go:128-150 | after a successful WriteFile, ReadFile of the same path gives the data, through any links, if and only if the jail's path and the virtual path together stay within the limit on links and the written file's first component under the jail does not begin with two dots; otherwise the link-limit error or an escape error |
| `ReadAfterWrite.WrittenButNotReadable` | toolkit/jail/path.go:62-62 | a link to the jail's root and a name that begins with two dots: the write succeeds and the read is refused |
| `AtomicWrite.RenameOutcome` | toolkit/filesystem/filesystem.go:116-118 | for every clean path, links in it or at its end included: renaming the full temporary file puts exactly the data where the path leads, or fails and changes nothing when a directory is there |
| `AtomicWrite.RemoveOutcome` | toolkit/filesystem/filesystem.go:100-100 | for every clean path: the deferred removal takes away the temporary file and nothing else, also after the rename |
| `AtomicWrite.MadeDirResolves` | toolkit/filesystem/filesystem.go:91-94 | whatever links are in a path, once MkdirAll has succeeded on it, it resolves to a directory |
| `AtomicWrite.WalkPastFile` | toolkit/filesystem/filesystem.go:116-118 | after a link has given way to a file, a resolution that does not look that link up on its way is as before; one that does fails or ends at the file |
| `AtomicWrite.Disk.Fill` | toolkit/filesystem/filesystem.go:96-121 | every tree from the creation of the temporary file on shows the target old or complete; after an error it is old, also when the removal of the temporary file fails; no error exactly without a fault and without a directory in the way |
| `AtomicWrite.Disk.AtomicWriteFile` | toolkit/filesystem/filesystem.go:90-121 | for every clean path, with a failure at any step and of the clean-up too: every tree in between shows the target, where the path leads, old or complete; an error leaves it old and, if the removal works, no temporary file; it succeeds exactly without a fault and when the target can be written |
| `AtomicEffects.StepTouchesTargetOnly` | toolkit/filesystem/filesystem.go:90-121 | in every state of an atomic write the target is old or complete, every other node is unchanged, and what is new is the target, the temporary file or a directory |
| `AtomicEffects.ErrorTouchesNothing` | toolkit/filesystem/filesystem.go:90-121 | after an error every node is what it was, and what is new is a directory or the temporary file |
| `AtomicEffects.LinkIsReplacedIff` | toolkit/filesystem/os_fs.go:392-405 | a completed atomic write replaces a link if and only if it is where the path leads, last component not followed |
| `PlainReads.ReadAfterPlainWrite` | toolkit/filesystem/os_fs.go:128-150 | without a jail a successful WriteFile always reads back, through any links |
| `PlainReads.ReadAfterPlainAtomicWriteIff` | toolkit/filesystem/os_fs.go:392-405 | without a jail a successful AtomicWriteFile reads back if and only if the way to the target's directory does not look up the very place that is replaced; otherwise the read fails |
| `PlainReads.WrittenButCutOff` | toolkit/filesystem/os_fs.go:392-405 | l is a link to the root: writing l/l replaces l, and reading l/l fails |
| `AtomicEffects.LinkInPlaceIsReplaced` | toolkit/filesystem/os_fs.go:392-405 | without a jail, a link named by the path gives way to the data and nothing else changes |
| `AtomicInJail.OpenIsTarget` | toolkit/filesystem/os_fs.go:541-579 | what the open resolver gives is where an atomic write puts the data: no link is on the way or in the last place |
| `AtomicInJail.TargetIsOldOrNew` | toolkit/filesystem/filesystem.go:90-121 | in every state of an atomic write in a jail the target is as before or holds all of the data |
| `AtomicInJail.LinksSurvive` | toolkit/filesystem/os_fs.go:392-405 | in a jail no state of an atomic write has lost or changed a link |
| `AtomicInJail.StepsAreConfinedUnlessRoot` | toolkit/filesystem/os_fs.go:392-405 | every state of an atomic write changes nothing outside the canonical jail if and only if the resolved target is not the jail's root, or the name of the temporary file is taken |
| `AtomicInJail.TempBesideJail` | toolkit/filesystem/os_fs.go:392-405 | a jail with a link to its own root: an atomic write through it makes its temporary file beside the jail |
| `AtomicInJail.ReadAfterAtomicWrite` | toolkit/filesystem/os_fs.go:392-405 | read after a successful AtomicWriteFile, as for WriteFile |
| `JailRuns.StepKeeps` | toolkit/filesystem/os_fs.go:140-251 | every mutator, off the root, keeps: links under the jail point under the jail, the canonical jail and everything outside it stay |
| `JailRuns.StaysInside` | toolkit/filesystem/os_fs.go:581-644 | then no resolution that starts inside ends outside |
| `JailRuns.DirectoryIsCleanStart` | toolkit/filesystem/os_fs.go:83-92 | a jail that is a plain directory without links below it is a state such runs start from |
| `JailRuns.JailIsClosed` | toolkit/filesystem/os_fs.go:140-251 | in every state of every run from such a start, with atomic writes interrupted anywhere: link targets under the jail are under the jail; every node outside is still there, unchanged; a new one outside is the temporary file of an atomic write through a link to the jail's root; following resolution never ends outside |
| `JailRuns.NothingOutsideChanges` | toolkit/filesystem/os_fs.go:140-251 | in a run without such a write nothing outside the canonical jail changes |
| `OsFs.OsFS.SetJail` | toolkit/filesystem/os_fs.go:83-92 | a blank jail is none, any other is kept clean |
| `OsFs.OsFS.Setwd` | toolkit/filesystem/os_fs.go:103-122 | succeeds exactly when the path is a directory or not there, and otherwise leaves the directory; the new one is the path cleaned, starting from the old one if it is relative |
| `OsFs.OsFS.Getwd` | toolkit/filesystem/os_fs.go:61-101 | the directory set, or else the jail's root, or else the directory of the process |
| `OsFs.OsFS.ResolveVirtual` | toolkit/filesystem/os_fs.go:581-644 | the method with its early returns is the lexical or the following resolver, with and without a jail, of the working directory for a blank argument, of the argument cleaned from there if it is relative, and from the root if it is absolute |
| `OsFs.OsFS.WalkUp` | toolkit/filesystem/os_fs.go:480-504 | the loop finds the longest existing ancestor |
| `OsFs.OsFS.ResolveHostForCreate` | toolkit/filesystem/os_fs.go:447-525 | the method with its two loops is the create resolver |
| `OsFs.OsFS.ResolveHostForOpen` | toolkit/filesystem/os_fs.go:541-579 | the method is the open resolver |
| `OsFs.OsFS.ReadFile` | toolkit/filesystem/os_fs.go:128-138 | reads what the following resolver leads to, with and without a jail, and fixes the working directory |
| `OsFs.OsFS.WriteFile` | toolkit/filesystem/os_fs.go:140-150 | has the effect of `CallEffects.WriteEffect`, off the root of a jail changes nothing outside it, and on the root does what the plain write does; the object stays valid, its working directory fixed |
| `OsFs.OsFS.Mkdir` | toolkit/filesystem/os_fs.go:152-163 | the same for directories: makes just the one that was missing, or with all of them leads to a directory afterwards |
| `OsFs.OsFS.Remove` | toolkit/filesystem/os_fs.go:165-179 | the same for removal: succeeds exactly when there is something it may take, and then that is gone with all below it and nothing else |
| `OsFs.OsFS.Rename` | toolkit/filesystem/os_fs.go:181-193 | the same for renaming: succeeds exactly when the node can be moved, and moves it with all below it; the source is refused before the destination |
| `OsFs.OsFS.Symlink` | toolkit/filesystem/os_fs.go:230-251 | the same for links: succeeds exactly when the place is free and the target let through, and stores the target's path under the jail |
| `OsFs.OsFS.AtomicWriteFile` | toolkit/filesystem/os_fs.go:392-405 | with or without a jail, on the root or off it: every tree on the way is old or complete at the target; an error, of the clean-up too, leaves it old and, if the removal works, no temporary file; success exactly without a fault on a writable target, and then the data is where the path leads and nothing else has changed, if the target's directory was there; the object stays valid, its working directory fixed |
| `OsFsRuns.ReadAfterRootWrite` | toolkit/filesystem/os_fs.go:128-150 | a successful WriteFile at a jail's own root reads back |
| `OsFsRuns.WriteThenRead` | toolkit/filesystem/os_fs.go:128-150 | WriteFile and then ReadFile on one object: without a jail and at a jail's root the data; below the root exactly what `ReadAfterWrite.ReadAfterWrite` says |
| `OsFsRuns.SetwdThenWrite` | toolkit/filesystem/os_fs.go:103-150 | after a successful Setwd to d, what is written as the relative f is read back as the absolute d + f |
| `OsFsRuns.SymlinkThenRead` | toolkit/filesystem/os_fs.go:230-251 | after a successful Symlink, ReadFile of the link answers as ReadFile of the target does, unless the links on the way are too many |
| `OsFsRuns.AtomicWriteThenRead` | toolkit/filesystem/os_fs.go:392-405 | the same for AtomicWriteFile: without a jail and at a jail's root the data if and only if the write has not cut off its own path |
| `OsFsRuns.Perform` | toolkit/filesystem/os_fs.go:140-251 | every tree the disk passes through in a call on a jailed object is one that the operation on virtual paths allows |
| `OsFsRuns.PerformAll` | toolkit/filesystem/os_fs.go:140-251 | over any calls off the root on a jailed object, failing or interrupted: in every tree the disk passes through, links in the jail point into it and nodes outside are as they were; at the end every virtual path, followed, fails or ends in the jail |
| `RuntimeState.TestEnv.SetJail` | toolkit/env/test_env.go:102-131 | whatever the home directory was, GetHome gives the same before and after |
| `RuntimeState.TestEnv.SetHome` | toolkit/env/test_env.go:147-159 | the home directory set is the one GetHome shows, inside any jail |
| `RuntimeState.TestEnv.ResolvesFrom` | toolkit/env/test_env.go:386-408 | an absolute path is cleaned from the root, "~" and what follows from the home directory, anything else from PWD |
| `RuntimeState.Runtime.NormalizeState` | toolkit/runtime.go:158-194 | makes the three jails one, the runtime's before the environment's before the filesystem's; fills a blank directory from the environment or else the filesystem; on success, and exactly when the filesystem accepts the directory, the three directories are one too |
| `RuntimeState.Runtime.ApplyWorkingDir` | toolkit/runtime.go:196-210 | moves all three directories or none, and exactly when the filesystem accepts the target |
| `RuntimeState.Runtime.SetJail` | toolkit/runtime.go:429-452 | on success and on every error the jails and the directories stay replicated; the directory falls back to the root exactly when it is refused and the root is not; GetHome does not notice |
| `RuntimeState.Runtime.Setwd` | toolkit/runtime.go:495-506 | keeps the state replicated, succeeds exactly when the filesystem accepts the resolved path, and moves nothing otherwise |
| `RuntimeState.Runtime.Set` | toolkit/runtime.go:354-362 | keeps the state replicated; PWD moves the directories, HOME the home, any other key one variable |
| `RuntimeState.Runtime.ResolvePath` | toolkit/runtime.go:537-566 | a blank argument is the runtime's own directory, an expanded one is cleaned starting from there if it is relative; the result depends on that, on the environment, and of the filesystem on its jail and disk only |
| `RuntimeState.Runtime.Clone` | toolkit/runtime.go:240-264 | own environment with the same values, same filesystem |
| `RuntimeState.RunOnClone` | toolkit/runtime.go:240-264 | no sequence of Setwd and Set on a clone changes what the original resolves any path to, although they share the filesystem |
| `RuntimeState.RunOps` | toolkit/runtime.go:354-506 | over any run of Setwd, Set and SetJail on an unshared runtime, whatever fails in it, the three jails are equal and so are the three directories |
| `RuntimeState.JailOnClone` | toolkit/runtime.go:429-452 | SetJail on a clone leaves the original's jails in agreement if and only if the new jail is the one they had |
| `PipelineMoves.MoveForward` | sandbox/pipeline.go:109-137 | a move of any stage keeps the composition of the stages defined, with one action less to come and the same bytes in all over every pipe |
| `PipelineMoves.MoveBackward` | sandbox/pipeline.go:109-137 | if the composition is defined after a move of a stage it was before |
| `PipelineMoves.ChainIsExecAll` | sandbox/pipeline.go:100-137 | the composition is the flows of the stages in order, each alone on the output of the one before |
| `PipelineRuns.LedgerHolds` | sandbox/pipeline.go:126-137 | at every step of every run: what a stage has read is a prefix of what the one before has written, and the error channel has room for every stage still running |
| `PipelineRuns.CompletedRunIsComposition` | sandbox/pipeline.go:100-137 | a completed run, under any interleaving, has as output and over every pipe the composition of the stages' stream functions, each run alone on the output of the one before; nothing is left unread |
| `PipelineConfluence.StepsCommute` | sandbox/pipeline.go:126-137 | two stages that can both move do not get in each other's way: each can still move after the other, and the order makes no difference |
| `PipelineConfluence.HaltingRunsAgree` | sandbox/pipeline.go:126-137 | for every pipeline, stages that run for ever or leave input unread included: if one run halts, no run is longer, and every run that halts has as many moves and ends in the same configuration, so that all of them complete or none |
| `PipelineLiveness.RunStaysCalm` | sandbox/process.go:232-244 | every run keeps: the first stage reads nothing or has closed its pipe; every later one has not seen the end of its input unless the stage before it has closed its pipe, and is done only then |
| `PipelineLiveness.CalmIsNeverStuck` | sandbox/process.go:232-244 | deadlock freedom without any bound: if the first stage reads nothing and every later one returns only after the end of its input, then in every run, however long stages work or write, no state is stuck before all stages are done |
| `PipelineProgress.NeverStuck` | sandbox/process.go:232-244 | when the composition is defined and leaves nothing unread, every run is at most as long as the stages have actions, is stuck only when all are done, and is done exactly at that length |
| `PipelineProgress.FinishesIff` | sandbox/process.go:232-244 | a pipeline can finish if and only if its composition is defined and in it every stage reads all of its input and returns |
| `PipelineProgress.BlocksIff` | sandbox/process.go:232-244 | of any pipeline, a run that has halted has finished if and only if the composition is defined and leaves nothing unread; when each stage ends alone, a run does halt, and that is so unless some stage leaves input unread or reads on where nothing more comes |
| `PipelineProgress.DrainingPipelineFinishes` | sandbox/pipeline.go:109-150 | if the first stage returns alone without input, and every other one alone reads all of any input that ends and returns, every run that halts has finished, within the stages' number of actions |
| `PipelineProgress.PatientReadsAll` | sandbox/process.go:232-244 | a runner that returns only after the end of its input leaves nothing unread |
| `PipelineProgress.CopierCopies` | sandbox/process.go:232-244 | a stage that writes what it reads passes on just the bytes it is given, whatever chunks they come in |
| `PipelineProgress.FiniteReturns` | sandbox/process.go:232-244 | a runner whose rank falls with writes and at the end of input, and rises with a read by at most a gain for it and for each byte got, returns within a bound linear in its input |
| `PipelineProgress.DisciplinedPipelineFinishes` | sandbox/pipeline.go:109-150 | if moreover all of the stages are finite in that sense, every run is at most as long as the stages have actions, and stuck only when all are done |
| `PipelineProgress.EarlyReturnHangs` | sandbox/process.go:232-244 | behind a stage that starts by writing, one that returns at once leaves every run hanging |
| `PipelineProgress.ExitCodeIff` | sandbox/pipeline.go:140-150 | the exit code of a completed run is 1 if and only if some stage, run alone on its input, returns an error; it tells whether some stage's code is other than 0 if and only if the two go together |
| `PipelineProgress.CodeWithoutErrorIsLost` | sandbox/pipeline.go:126-150 | a stage that returns any code without an error: the pipeline finishes with exit code 0 |
| `Processes.Process.StdoutPipe` | sandbox/process.go:70-77 | the pipe is made once and stays the same |
| `Processes.Process.Begin` | sandbox/process.go:160-222 | a stream that was set comes before a buffer, a buffer before a pipe; without runner or runtime nothing changes |
| `Processes.Process.CloseWriters` | sandbox/process.go:234-244 | the writers' ends the process holds are closed, no other |
| `Processes.Pipeline.Wire` | sandbox/pipeline.go:100-124 | each new process reads the pipe that the one before writes and no other reads; the last one writes the pipeline's buffer |
| `Processes.Pipeline.BeginAll` | sandbox/process.go:181-222 | the streams the wired processes choose make that chain; the first one reads a pipe of its own |
| `Processes.Pipeline.RunStages` | sandbox/pipeline.go:126-137 | if some run halts, any scheduler that moves the stages until none can ends; at every step stage i runs the runner of process i; they have all returned exactly when the commands, run in order, each alone on the output of the one before, all return with nothing unread; then the output and errors are theirs, and a pipe of the chain is closed exactly when its writer had a runner that returned |
| `Processes.Pipeline.Run` | sandbox/pipeline.go:77-160 | if some run halts: it returns exactly when the commands, run in the order given from their own runners and start states, each alone on the output of the one before and the first on nothing, all return with nothing unread; then standard output is what the buffer held before and the last one's output, and the exit code 1 exactly if one of them fails, as one without a runner does; without runtime or stages exit code 1 and no change |
| `Processes.Pipeline.CloseIfDone` | sandbox/process.go:234-244 | with every move, a pipe of the chain stays closed exactly when the runner that writes it has returned, which is when its reader sees the end of input |
| `Processes.CountErrors` | sandbox/pipeline.go:140-145 | counts the errors in the channel in whatever order they come |
| `CfgCascade.OutcomeAppend` | cfgcascade/cascade.go:89-110 | one more layer is merged over the value so far, or skipped, or recorded as an error, and its name comes first among the sources |
| `CfgCascade.OutcomeOfNone` | cfgcascade/cascade.go:86-118 | without layers the result is the zero value, with no sources and no errors |
| `CfgCascade.Cascade.Resolve` | cfgcascade/cascade.go:79-118 | the result is the left fold of the merge over the values found in some ranked order, with sources reversed and errors in order; with distinct ranks it is that of every ranked order |
| `CfgCascade.ReverseSources` | cfgcascade/cascade.go:112-115 | the two-index loop reverses |
| `CfgCascade.RankedIsUnique` | cfgcascade/cascade.go:82-84 | with distinct ranks there is one ranked order |
| `CfgCascade.ListingDoesNotMatter` | cfgcascade/cascade.go:64-67 | with distinct ranks every listing of the layers has the same outcome |
| `CfgCascade.EqualRanksAreAmbiguous` | cfgcascade/cascade.go:82-84 | for two found layers of equal rank, the two orders have different outcomes whenever the merge is not symmetric on their values |
| `CascadeOrders.ManyOrdersIff` | cfgcascade/cascade.go:82-84 | there is more than one ranked order of a list of layers if and only if two different layers share a rank |
| `CascadeOrders.ReportVariesIff` | cfgcascade/cascade.go:79-118 | the reported sources depend on how ties fall if and only if two found layers of equal rank differ in name; the reported errors, if and only if two failing ones differ in name or error |
| `CascadeOrders.ValueIsFixed` | cfgcascade/cascade.go:79-118 | for every merge function, the merged value does not depend on how ties fall when found layers of equal rank have equal values |
| `CfgCascade.HighestRankWins` | cfgcascade/cascade.go:67-71 | when the overlay wins, the value is that of the highest layer that has one, and its name is the first source |

## Left out

- TestClock.Clock: times are integers without overflow and ids do not wrap at 64 bits; the test clock and its scheduler are one object; the mutex is modelled by making each locked section one step.
- TestClock.Clock.Fire: the goroutine of a callback is recorded as launched, its body is not modelled.
- `OsClock` and its tickers and timers: thin wrappers over the standard library.
- OsFs.OsFS.SetJail: a relative jail is not modelled.
- RuntimeState.Runtime.SetJail: a relative jail is not modelled.
- Os.Walk: one limit on followed links stands for the kernel's and for that of link evaluation, which are different numbers in practice.
- Paths.IsInJail: paths are lists of components; path text, a component of spaces only, Windows rules and volume names are not modelled.
- Resolvers.CreateIsContained: the virtual root is not covered, because the code returns the jail for it as it stands; `RootOps` says what each mutator does there.
- JailRuns.JailIsClosed: no other process changes the tree between a check and its use, and no call stops half-way for a reason outside the tree, atomic writes excepted.
- AtomicWrite.Disk.AtomicWriteFile: one random name is tried for the temporary file, where the library tries others when it is taken; the mode of the file is not modelled.
- RuntimeState.TestEnv.SetJail: `TMPDIR` is not rebased, the copies of `HOME` and `USER` among the variables are not kept, and unsetting `PWD` is not modelled.
- RuntimeState.Runtime.Absolute: expansion of variables and of a tilde is some function of the text and the environment.
- Permissions, owners, modes and times of files, `Stat` results, `ReadDir`, `Glob`, `AppendFile`, `OpenFile`, `OsEnv` and process-global state.
- PipelineSpec.Step: a runner reads and writes standard input and output only and is deterministic; standard error, cancellation of the context and `RunWithTimeout` are not modelled, and neither are stages given as a ready process.
- Processes.Pipeline.Run: a pipeline of which no run halts is excluded, because the program does not return from it under any scheduler; where the program waits for ever on its pipes, the model says so and returns.
- Processes.Pipeline.RunStages: the same pipelines are excluded.
- CascadeOrders.ValueIsFixed: equal values are enough but not always needed, because whether the order of different ones shows depends on the merge function.
- CfgCascade.Cascade.Resolve: a provider is a function of the variables; wrapping of "does not exist" in other errors is decided before.
- Logging, the git and user-directory helpers, hashing, terminals, editors and the sandbox's fixtures: input and output, or one branch.
