# PRacer and the Piper runtime, modelled in Dafny

This project models the determinacy-race detector PRacer for pipeline programs, the
Piper pipeline runtime under it, and four parts of the same runtime: reducer maps, the
frame allocator, the fiber pools, and the records of pending exceptions and replay logs.

**Race detector.** A pipeline is a series of iterations, each a series of numbered stages;
a stage may wait for the stage of the same number in the iteration to its left. Every stage
is put into two order lists, right-first (`hebrew`) and down-first (`english`), with the help
of placeholders that its parents left behind. `OrderList`, `PipelineDag`, `RightFirstOrder`,
`SerialOrder` and `StageOrders` show that the two lists decide reachability in the dag;
`LeftDependency` shows when the left edges that a scan drops do not matter; `AccessHistory`
shows that two readers and a writer per word are enough; `PipelineRun` and `RaceDetection`
put these together over every run of every program. `PiperRd` (`PiperRDControl`),
`IterationRing` (`Iterations`), `GrowingList` (`List`), `OrderList.OmList` and
`AccessHistory.MemAccessList` are the objects that the program updates in place, proved
against the functions of the other modules.

**Piper runtime.** `PiperState` and `PiperSteps` are a step machine over K >= 2 iteration
blocks, any number of workers and one control frame; a region under one block lock is one
step, and the steps of different workers interleave freely. `PiperFrames`, `PiperSafety`,
`PiperFinish`, `PiperControl` and `PiperThrottle` show that each step keeps the invariant,
`PiperRuns` states what follows for every run, `PiperProgress` that every run can be
finished, `PiperCost` what each step costs; `PiperBlocks` has the functions that write to the
ring in memory.

**Both together.** `PiperProgram` lets the workers execute the text of a program: the steps
of the runtime where the stage macros make them, and the calls of the detector. `PiperText`
shows what every such event keeps, `ProgramText` why calls from the text are a run of the
detector's pipeline, and `PiperDetection` that this holds for every run under the runtime, so
that detection is exact there as well. `PiperTermination` bounds how much can happen in a run
of a program, and `PiperOverlap` says how many iterations run at once.

**Reducers.** `ReducerTable` is the hash table on arrays of buckets, refined to a finite map;
`ReducerMerge` merges the maps of neighbouring strands.

**Allocators and small algebras.** `FrameSizes`, `FrameAmortised`, `FrameMalloc` and
`FrameAllocator` are the frame allocator; `FiberPool` and `FiberPools` the fiber pools;
`PendingExceptions` the merge of pending exceptions; `PedigreeLog` and `ReplayLog` the text
of replay records.

`dafny verify dfyconfig.toml` checks the whole project.

## Results about the code

Some promises hold only under a condition. The code is kept as it is, and the exact
condition is proved.

- Stage numbers of one iteration may repeat (the check at `rdtool/piper.h:194` allows equal
  numbers). The scan for a left dependency stops at the first equal number, so it misses a
  later one, and two stages that the program orders look parallel. Over all runs the detector
  still misses no race, and it raises no false alarm if and only if no stage waits on a
  number that the iteration to its left uses twice.
- The ring of stage lists finds list n where it put it, for every n, if and only if it has two
  slots or more, that is, a throttle limit of at least 1.
- Accesses of fewer than four bytes count as no words and are never checked; the words checked are
  the words accessed if and only if the access is aligned to 4 bytes and a multiple of 4 long.
- The resumption of a right neighbour on suspension takes over a parent frame whatever its
  kind, and would leave the flags of a throttled control frame in the suspended state; this
  never happens, because a worker that is to resume a throttled control frame never stalls.
- The merged exception is the left one unless that is nil, as the comment on the merge says,
  if and only if the left one is no rethrow beside an active right one.
- A pedigree is read back as it was written if and only if all its ranks are below 2^63
  (`strtol` saturates). A record without a pedigree reads like the single rank 0.
- A fiber pool that is destroyed keeps what is left of its total, which may be negative; with
  the limits that the runtime sets, the total of the root is then an upper bound.

The reports of races are commented out in the source; the model returns the set of words for
which a race was found. Two accesses race if the two order lists disagree; an access never
races with one of its own strand (`rdtool/src/mem_access.h:58-97`).

## Model

| member | source | states |
|---|---|---|
| OrderList.InsertAfterOrder | rdtool/src/omrd.h:41 | inserting behind a node keeps the order of all old pairs and puts the new node adjacent behind its base, before all that followed it |
| PipelineDag.ReachesIffByIndex | rdtool/include/piper_rd.h:386-398 | reachability along down and left edges equals comparing with the last stage that the left dependencies lead back to |
| PipelineDag.ReachabilityIsSettled | rdtool/include/piper_rd.h:480-541 | stages that appear later change no reachability between stages that are there |
| LeftDependency.ScanFindsGreatestIff | rdtool/include/piper_rd.h:419-443 | the scan returns the greatest unconsumed left index numbered at most s if and only if s does not occur twice among the unconsumed |
| LeftDependency.ScanIgnoresLaterStages | rdtool/include/piper_rd.h:419-443 | left stages numbered above s make no difference, so an incomplete list is as good as the complete one |
| LeftDependency.ScansAreLinear | rdtool/include/piper_rd.h:419-443 | all scans of one iteration look at no more stages than the left list has, plus one per wait |
| LeftDependency.DroppingEdgesPreservesMeaningIff | rdtool/include/piper_rd.h:491-504 | reachability with the recorded left edges equals reachability with every wait edge if and only if no stage waits on a number the left iteration uses twice |
| LeftDependency.RecordedReachIsFollowed | rdtool/include/piper_rd.h:491-504 | the recorded dag never orders two stages that the program leaves unordered |
| RightFirstOrder.PlacesAreRightFirst | rdtool/include/piper_rd.h:278-284 | two places in the right-first list are ordered as the dag demands, in both directions, and differ |
| StageOrders.AddFirstKeepsInv | rdtool/include/piper_rd.h:371-398 | starting an iteration keeps both lists in line with the dag and moves no earlier node |
| StageOrders.AddStageKeepsInv | rdtool/include/piper_rd.h:480-541 | a further stage, waiting or not, keeps both lists in line with the dag and moves no earlier node |
| StageOrders.ListOrders | rdtool/include/piper_rd.h:278-284 | the down-first list has the stages in serial order, the right-first list in right-first order, and all places differ |
| StageOrders.TwoOrdersDecideReachability | rdtool/include/piper_rd.h:602-630 | a stage is before another in both lists if and only if it reaches it; the lists disagree if and only if neither reaches the other |
| StageOrders.PlaceholdersAreUsedOnce | rdtool/include/piper_rd.h:386-398 | no placeholder becomes the place of two stages, in either list |
| StageOrders.OrdersFollowFromDag | rdtool/include/piper_rd.h:480-541 | two sets of lists that record the same dag order the stages alike, however they came about |
| PiperRd.PiperRDControl.CreateOrder | rdtool/include/piper_rd.h:278-284 | the object inserts the two continuations of a stage in opposite orders into the two lists |
| PiperRd.PiperRDControl.CilkStageFirst | rdtool/include/piper_rd.h:371-417 | entering the first stage of an iteration is the abstract start of an iteration |
| PiperRd.PiperRDControl.GetLeftDependency | rdtool/include/piper_rd.h:419-443 | the loop over the left list yields what the abstract scan yields and moves the cursor likewise |
| PiperRd.PiperRDControl.CilkStageWait | rdtool/include/piper_rd.h:480-513 | entering a waiting stage is the abstract waiting stage |
| PiperRd.PiperRDControl.CilkStage | rdtool/include/piper_rd.h:515-541 | entering a stage that does not wait is the abstract one, placed behind its parent |
| PiperRd.PiperRDControl.IsSerial | rdtool/include/piper_rd.h:602-640 | two stages are called serial if and only if one reaches the other; a number that is not there is an error |
| IterationRing.PlacementIsRightIff | rdtool/include/piper_rd.h:159-224 | list n is put into the slot where iteration n is looked up, for all n, if and only if there are two slots or more |
| IterationRing.InsertionsFitIff | rdtool/include/piper_rd.h:208-224 | the first n insertions stay inside the ring if and only if there are two slots or more or n is at most 2 |
| IterationRing.CursorsAfter | rdtool/include/piper_rd.h:208-224 | head and tail after n insertions, for every n |
| IterationRing.SlotsDiffer | rdtool/include/piper_rd.h:159-224 | lists less than a full turn apart are in different slots |
| IterationRing.Iterations.GetStageFrameList | rdtool/include/piper_rd.h:177-206 | while iteration n is in the window, the slot it is looked up in holds the list that was inserted for n |
| IterationRing.Iterations.InsertStageFrameList | rdtool/include/piper_rd.h:208-224 | a new empty list goes into the next slot, the other slots stay |
| GrowingList.List.Append | rdtool/src/list.cpp:50-56 | the contents grow by the element, whether the array had to grow or not |
| GrowingList.List.Get | rdtool/src/list.cpp:58-70 | the element at the index, or the error if there is none |
| AccessHistory.HistoryHolds | rdtool/src/mem_access.cpp:10-205 | after any trace the left reader is right-first maximal and the right reader down-first maximal among the readers |
| AccessHistory.LastWriterFollowsAll | rdtool/src/mem_access.cpp:128-205 | while nothing is flagged, the last writer follows every earlier writer |
| AccessHistory.FlaggedIsRace | rdtool/src/mem_access.cpp:10-205 | what is flagged is parallel to an earlier conflicting access |
| AccessHistory.DetectionIsExact | rdtool/src/mem_access.cpp:10-205 | for every trace in an order the dag allows, some access is flagged if and only if two parallel strands accessed the word and one wrote |
| AccessHistory.HistoryIsStable | rdtool/src/mem_access.cpp:10-205 | nodes inserted later change neither the history nor a verdict |
| AccessHistory.WordsAreExactIff | rdtool/src/mem_access.h:27-49 | the words checked are the words accessed if and only if the access is aligned and a multiple of a word |
| AccessHistory.SmallAccessIsUnchecked | rdtool/src/mem_access.h:27-49 | an access of fewer than 4 bytes is checked against nothing, though it touches a word |
| AccessHistory.MemAccessList.constructor | rdtool/src/mem_access.cpp:207-242 | the history made for a first access is that of checking it against an empty one |
| AccessHistory.MemAccessList.CheckRacesAndUpdateWithRead | rdtool/src/mem_access.cpp:10-126 | a read updates the readers of every word it covers and returns the words where it races with the writer |
| AccessHistory.MemAccessList.CheckRacesAndUpdateWithWrite | rdtool/src/mem_access.cpp:128-205 | a write replaces the writer of every word it covers and returns the words where it races with the writer or a reader |
| PipelineRun.ScanIsComplete | rdtool/piper.h:314-319 | when a satisfied wait scans the left list, it finds what a scan of the complete list would find |
| PipelineRun.ReachedMeansOver | rdtool/piper.h:201-239 | whatever reaches a stage that has been entered is over, so accesses come in an order the dag allows |
| PipelineRun.DagFollowsProgram | rdtool/include/piper_rd.h:480-541 | at any time the recorded dag is a beginning of the dag of the program |
| PipelineRun.NeverStuck | rdtool/piper.h:201-239 | until all is done some iteration can go on, whatever the waits |
| RaceDetection.RunsListAlike | rdtool/include/piper_rd.h:278-284 | any two interleavings of a program list the stages that both have entered in the same orders |
| RaceDetection.DetectorIsExact | rdtool/src/mem_access.cpp:10-205 | over every run, something is flagged if and only if two of its steps accessed the word, one of them to write, in stages neither of which reaches the other in the recorded dag; the stages follow from the steps alone |
| RaceDetection.TouchesAreUses | rdtool/src/mem_access.h:180-192 | the detector checks each access of the run once, in order, as the read or write it is and in the stage its iteration has entered last |
| RaceDetection.NoRaceIsMissed | rdtool/src/mem_access.cpp:10-205 | over every run of every program, two steps that access the word, not both to read, in stages that the program leaves unordered are flagged |
| RaceDetection.FalseAlarm | rdtool/include/piper_rd.h:430-437 | for every wait on a number used twice there is a run that flags accesses the program orders |
| RaceDetection.DetectorIsExactIff | rdtool/include/piper_rd.h:419-443 | in all runs of a program exactly the pairs of steps that race are flagged if and only if no stage waits on a number that the left iteration uses twice |
| ProgramText.TextIsFollowed | rdtool/piper.h:268-340 | calls made from the text of a program, iterations beginning in order and waits satisfied, are a run of the detector's pipeline, which knows where each iteration is |
| PiperText.EventKeepsTracedInv | rdtool/piper.h:193-262 | every event keeps the stage counters those of the text, an ended wait satisfied, and control below an iteration that has not detached |
| PiperText.ProgramGoesOn | rdtool/piper.h:343-410 | until the loop has ended and every iteration is done, some event changes something |
| PiperDetection.CallsAreARun | rdtool/piper.h:268-340 | for every run of the runtime the calls of the detector are one of the detector's runs: when the runtime lets a wait pass, it is over for the detector |
| PiperDetection.DetectionIsExactAtRuntime | rdtool/piper.h:453-530 | over every run under the runtime, something is flagged if, and without waits on repeated numbers only if, two of its events are accesses, one of them a write, by workers in stages that the program leaves unordered |
| PiperDetection.ListsAreThere | rdtool/piper.h:453-530 | whenever a stage is entered, the stage lists of its iteration and of the one to its left are still in the ring of K + 1 lists |
| PiperDetection.EverythingIsSeen | rdtool/piper.h:453-530 | when a run is finished the detector has seen every stage of the program |
| PiperDetection.RunGoesOn | rdtool/piper.h:343-410 | no run of a program under the runtime gets stuck before it is finished: some event changes something |
| PiperTermination.OnlySoMuchHappens | rdtool/piper.h:343-410 | whatever the workers do, no more than 12 events for each stage, 28 for each iteration, the one where the loop test fails included, and one at the end change anything, so a run in which every event changes something ends |
| PiperTermination.EventPays | rdtool/piper.h:193-262 | every event that changes anything lowers what is left to pay of text, waits, promotions, phases and turns of control |
| PiperTermination.RunCanFinish | rdtool/piper.h:343-410 | from every state of every run some continuation, within the same bound, ends the loop with every iteration done |
| PiperOverlap.AtMostTheWindow | batched-piper/runtime/piper_sched.cpp:1449-1503 | in every run the iterations under way at once are fewer than the blocks of the ring |
| PiperOverlap.WindowCanBeFilled | batched-piper/runtime/piper_sched.cpp:1449-1503 | with a worker for each, all but one block can be used at once: the throttle, the steals and the starts let that many iterations of any program run side by side |
| PiperRuns.StepKeepsInv | batched-piper/runtime/piper_sched.cpp:212-288 | every step of every worker keeps the invariant of the runtime |
| PiperRuns.RunHasInv | batched-piper/runtime/piper_sched.cpp:1205-1293 | the freshly initialised ring has the invariant, and every state of every run keeps it |
| PiperRuns.ControlIsInOnePlace | batched-piper/runtime/piper_sched.cpp:777-911 | the control frame is with one worker in one way, or suspended at the throttle, or done; at most one worker holds a frame to resume |
| PiperRuns.ReleaseIsPendingIffFree | batched-piper/runtime/piper_sched.cpp:1056-1099 | a throttled control frame is about to be resumed by exactly one worker if its block is free, and by none otherwise |
| PiperRuns.CrossingIsReleasedOnce | batched-piper/runtime/piper_sched.cpp:662-701 | every throttle crossing has one of three causes: the fast path, the second look, or the one finishing step that brought the counter to 0 |
| PiperRuns.BlocksAreAccountedFor | batched-piper/runtime/piper_sched.cpp:89-181 | the counter of a block is 16 if its iteration has not finished, plus 16 if the next has not released it, plus 1 if control has not arrived |
| PiperRuns.LeftStaysInPlace | batched-piper/runtime/piper_sched.cpp:1205-1293 | while an iteration may look to its left, the block there is the one of the iteration before it, and no later iteration has come round to its stage list |
| PiperRuns.FreeingIsSafe | batched-piper/runtime/piper_sched.cpp:212-288 | the assertions of the function that gives up a block hold at all its calls |
| PiperRuns.SuspendedWillBeWoken | batched-piper/runtime/piper_sched.cpp:847-946 | a suspended iteration has a left neighbour whose finishing step is still to come; only the newest iteration can be unpromoted |
| PiperRuns.OldestGoesOn | batched-piper/runtime/piper_sched.cpp:915-946 | the oldest unfinished iteration is not suspended, some worker runs it and can take its next step, and its wait is over |
| PiperRuns.WaitEnds | rdtool/piper.h:201-217 | a wait that is satisfied ends once the left stage has been read |
| PiperRuns.WaitsAreSafe | rdtool/piper.h:193-239 | in every run a wait ends only when the left iteration is past the stage, by cached value, direct read or the runtime |
| PiperRuns.ControlGoesOn | batched-piper/runtime/piper_sched.cpp:1449-1503 | when all started iterations are done, control is not suspended and can take a step |
| PiperRuns.NeverStuck | batched-piper/runtime/piper_sched.cpp:998-1054 | until control has left its loop and every iteration is done, some step is possible that changes something |
| PiperRuns.ThiefGetsWork | batched-piper/runtime/piper_sched.cpp:1056-1099 | an implicit steal takes over the parent if that is ready, or else resumes the next iteration if that is suspended and can go on, or does nothing but drop the parent |
| PiperRuns.SuspensionLetsGo | batched-piper/runtime/piper_sched.cpp:849-911 | a worker that stalls leaves its iteration suspended and goes on with the next one if that can go on, or with the control frame it stole from itself, or is idle |
| PiperRuns.FinishPassesOn | batched-piper/runtime/piper_sched.cpp:1024-1054 | a worker that finishes an iteration goes on with the next one if that is suspended, or with the control frame it is to resume, or is idle |
| PiperProgress.FinishingGoesFurther | batched-piper/runtime/piper_sched.cpp:998-1054 | each step of an iteration behind its last wait takes it strictly further on its way out |
| PiperProgress.OthersStay | batched-piper/runtime/piper_sched.cpp:998-1054 | no step takes another iteration anywhere, or any iteration back |
| PiperProgress.FinishStageStays | batched-piper/runtime/piper_sched.cpp:720-727 | from the step that sets the finish stage on, the counter stays there for as long as the iteration has its block |
| PiperProgress.EveryRunCanFinish | batched-piper/runtime/piper_sched.cpp:998-1054 | from every state of every run some continuation, with at most 12 steps for each iteration started and 4 for control, ends the loop with every iteration done |
| PiperCost.OthersCostNoMore | batched-piper/runtime/piper_sched.cpp:746-774 | no step makes another iteration need more steps, but for one look at a counter that has moved |
| PiperCost.OwnCostChanges | batched-piper/runtime/piper_sched.cpp:713-727 | a step that an iteration makes for itself and that changes anything is paid for by that iteration |
| PiperFinish.RightIsNext | batched-piper/runtime/piper_sched.cpp:746-774 | looking to the right finds the next iteration or nothing to resume; an older iteration that came round the ring is never taken for it |
| PiperFinish.SuspendedRightIsReady | batched-piper/runtime/piper_sched.cpp:998-1054 | if the next iteration is suspended when this one finishes, it can go on and is resumed |
| PiperSafety.WaitIsSafe | batched-piper/runtime/piper_sched.cpp:1516-1651 | the cached left stage never exceeds the left stage, so a wait that ends is satisfied |
| PiperControl.StallingFacts | batched-piper/runtime/piper_sched.cpp:849-911 | a worker that is to resume a throttled control frame never stalls; one that stalls and takes a self-steal along runs the newest iteration |
| PiperThrottle.ReuseIsSafe | batched-piper/runtime/piper_sched.cpp:1490-1503 | when a block is reset for a new iteration its counter is 0, its old iteration has finished and the one after has released it |
| PiperBlocks.IterationBlocks.constructor | batched-piper/runtime/piper_sched.cpp:1205-1293 | the loops over the array set up the starting ring |
| PiperBlocks.IterationBlocks.TryFreeIterDataBlock | batched-piper/runtime/piper_sched.cpp:212-288 | giving up a block in memory is the abstract step on that block, and changes no other |
| PiperBlocks.IterationBlocks.TryPassThrottle | batched-piper/runtime/piper_sched.cpp:1449-1464 | the fast path in memory is the throttle step; if it passes, the counter is 0 |
| PiperBlocks.IterationBlocks.ResetForNewIteration | batched-piper/runtime/piper_sched.cpp:1490-1503 | taking the block for the next iteration is the reserving step, and its counter was 0 |
| PiperBlocks.IterationBlocks.InitIterFrame | batched-piper/runtime/piper_sched.cpp:1339-1359 | setting up the block is the starting step, and the block was reserved and reset |
| ReducerTable.ReducerMap.Grow | batched-piper/runtime/reducer_impl.cpp:377-415 | a free element that is not the terminator, with all others in place, in a larger copy if need be |
| ReducerTable.ReducerMap.InsertNoRehash | batched-piper/runtime/reducer_impl.cpp:417-446 | the finite map gains the entry and the table still represents it |
| ReducerTable.ReducerMap.Rehash | batched-piper/runtime/reducer_impl.cpp:448-477 | twice as many buckets, the same finite map |
| ReducerTable.ReducerMap.RehashAndInsert | batched-piper/runtime/reducer_impl.cpp:479-496 | the map gains the entry and elements never outnumber buckets; the buckets double only when the table is about eight ninths full |
| ReducerTable.ReducerMap.Lookup | batched-piper/runtime/reducer_impl.cpp:498-513 | finds the view if and only if the map has the key |
| ReducerTable.ReducerMap.HyperDestroy | batched-piper/runtime/reducer_impl.cpp:544-602 | removes the key if and only if it has its leftmost view here; the bucket stays packed and terminated |
| ReducerTable.InsertKeepsTable | batched-piper/runtime/reducer_impl.cpp:417-446 | an element appended to its bucket keeps keys unique, packed and in their hash buckets |
| ReducerTable.RemoveKeepsTable | batched-piper/runtime/reducer_impl.cpp:587-595 | shifting a bucket down over an element keeps the table, without the key |
| ReducerMerge.MergeKeepsFold | batched-piper/runtime/reducer_impl.cpp:802-921 | merging two neighbours leaves the serial fold of every reducer as it is, leftmost views included |
| ReducerMerge.ReducersAreDeterministic | batched-piper/runtime/reducer_impl.cpp:946-1005 | for every associative operation with an identity, any order of merges of neighbours ends with the value of the serial run |
| ReducerMerge.ViewsAreDestroyedOnce | batched-piper/runtime/reducer_impl.cpp:760-792 | a merge destroys views that were live and not leftmost; all others stay; only leftmost views come to life |
| ReducerMerge.NoViewDiesTwice | batched-piper/runtime/reducer_impl.cpp:760-792 | over a whole run no view is destroyed twice |
| ReducerMerge.LiveOrDestroyed | batched-piper/runtime/reducer_impl.cpp:760-792 | over a whole run every view is in the result or some merge has destroyed it |
| ReducerMerge.NeighboursAreSeparate | batched-piper/runtime/reducer_impl.cpp:849-862 | in a consistent world the maps of two neighbours share no view, even if an initial view was registered elsewhere |
| ReducerMerge.StrandMap.Merge | batched-piper/runtime/reducer_impl.cpp:802-921 | the loop, in either direction and in any order of elements, yields the one merged map, reduces each common key once and destroys exactly the views that lose, none of them leftmost |
| ReducerMerge.MergeReducerMaps | batched-piper/runtime/reducer_impl.cpp:946-980 | whichever map is kept, values, views and destroyed views are those of the one merge; a missing map merges like an empty one |
| FrameSizes.BucketOfSize | batched-piper/runtime/frame_malloc.c:344-354 | the loop finds the smallest bucket that fits |
| FrameMalloc.EveryBlockHasOneHome | batched-piper/runtime/frame_malloc.c:124-173 | a block is on one list once, or in use once, if and only if it was carved |
| FrameMalloc.CarvedForKeepsInv | batched-piper/runtime/frame_malloc.c:139-162 | carving yields a block disjoint from all others and keeps the byte counts |
| FrameMalloc.ExtendedKeepsInv | batched-piper/runtime/frame_malloc.c:124-137 | a new chunk keeps the law: bytes from the system are carved, wasted, or left in the pool |
| FrameMalloc.ReturnedKeepsInv | batched-piper/runtime/frame_malloc.c:164-173 | a block that goes back to the global list keeps all laws |
| FrameMalloc.LeakCheckIsExact | batched-piper/runtime/frame_malloc.c:215-253 | after all workers are cleaned up, the leak check fires if and only if some block was not freed |
| FrameMalloc.NeverCorrupted | batched-piper/runtime/frame_malloc.c:215-253 | the check for more free than allocated memory never fires |
| FrameMalloc.BlocksAreUsedAgain | batched-piper/runtime/frame_malloc.c:139-162 | an allocation carves as many blocks as a batch has, less those that the global list held, and none if the worker has one; while returned blocks suffice nothing comes from the system |
| FrameMalloc.OneMoreSupplied | batched-piper/runtime/frame_malloc.c:258-284 | a batch takes the returned blocks of the bucket first, in their order, and then new ones |
| FrameAmortised.CollectionIsAmortised | batched-piper/runtime/frame_malloc.c:286-315 | over any operations on a bucket, list walking takes at most one step per fetched block plus three per free |
| FrameAmortised.CollectionIsPaid | batched-piper/runtime/frame_malloc.c:286-315 | one collection is paid for by the drop of the potential |
| FrameAmortised.CollectionKeepsHalf | batched-piper/runtime/frame_malloc.c:286-315 | a collection keeps one block more than half the potential is worth, returns the rest, and walks over each block at most once |
| FrameAllocator.Allocator.GcBucket | batched-piper/runtime/frame_malloc.c:286-315 | the loops keep a beginning of the list as the abstract collection does and return the rest; no other list of a worker changes and nothing is carved |
| FrameAllocator.Allocator.GlobalAllocFor | batched-piper/runtime/frame_malloc.c:139-162 | the first block of the global list goes to the worker, and nothing else changes; only without one a new block is carved, and a chunk is added only if the rest of the pool is too small |
| FrameAllocator.Allocator.AllocateBatch | batched-piper/runtime/frame_malloc.c:258-284 | the loop brings a batch to the worker, returned blocks first; the blocks carved are the batch less what the global list held |
| FrameAllocator.Allocator.FrameMalloc | batched-piper/runtime/frame_malloc.c:373-397 | the block handed out is the first of the worker's list, with nothing carved and all else as before, or the last of a batch if that list was empty |
| FrameAllocator.Allocator.FrameFree | batched-piper/runtime/frame_malloc.c:399-427 | the block goes in front of the worker's list; the potential grows, and past the limit a collection keeps a beginning of the list; no other list of a worker changes and nothing is carved |
| FrameAllocator.Allocator.CleanupWorker | batched-piper/runtime/frame_malloc.c:440-449 | a worker that leaves keeps nothing, other workers' lists stay and nothing is carved |
| FrameAllocator.Allocator.GlobalCleanup | batched-piper/runtime/frame_malloc.c:215-253 | a leak is reported if and only if a block is still in use |
| FiberPool.StepKeepsInv | batched-piper/runtime/cilk_fiber.cpp:98-216 | every locked region keeps totals, limits, capacities and places |
| FiberPool.FibersAreCounted | batched-piper/runtime/cilk_fiber.cpp:205-212 | in every run the totals add up to the fibers alive and the allocations under way, negative totals moved up included, and each total is within its limit |
| FiberPool.EveryFiberIsInOnePlace | batched-piper/runtime/cilk_fiber.cpp:963-1014 | a fiber is alive if and only if it is out, about to be freed, or in a slot, and it is in one place only |
| FiberPool.RootBoundsTheFibers | batched-piper/runtime/scheduler.c:4124-4130 | with the whole limit at the root, the root's total bounds the fibers alive, and is itself within the limit |
| FiberPool.NoFiberLeaks | batched-piper/runtime/cilk_fiber.cpp:268-296 | once the pools are empty and no fiber is in use, none is left |
| FiberPool.AllocationFailsIff | batched-piper/runtime/cilk_fiber.cpp:696-785 | an allocation fails if and only if every pool up to the root is empty, and at its limit or refused by the heap |
| FiberPool.AllocationCountsOnce | batched-piper/runtime/cilk_fiber.cpp:696-785 | an allocation takes one idle fiber or counts one from the heap, in one pool only, and a failed one counts nothing |
| FiberPool.AskingIsSteps | batched-piper/runtime/cilk_fiber.cpp:696-785 | asking one pool is a taken idle fiber, or a reservation followed by the heap's answer, which undoes it if it is no |
| FiberPool.RoundsFreeDown | batched-piper/runtime/cilk_fiber.cpp:98-158 | batches of ten free the pool down to the number to keep, and the extra fiber is stored once, in the last round |
| FiberPool.ReturnedIsStored | batched-piper/runtime/cilk_fiber.cpp:963-1014 | a returned fiber is on top of its pool, and no pool is over its capacity |
| FiberPool.MovedHandsUp | batched-piper/runtime/cilk_fiber.cpp:178-216 | after a move the parent is full or the child has no more than the number to keep; the fibers on top went up behind those of the parent, last stored first |
| FiberPool.FreedDownFreesDown | batched-piper/runtime/cilk_fiber.cpp:98-158 | exactly the fibers above the number to keep go back to the heap, last stored first, and are counted off |
| FiberPool.RelievedStores | batched-piper/runtime/cilk_fiber.cpp:963-1014 | a fiber returned to a full pool is stored on top; at most one other goes back to the heap, and only if the parent is full afterwards |
| FiberPools.CilkFiberPool.Allocate | batched-piper/runtime/cilk_fiber.cpp:696-785 | the search from a pool up to the root is the abstract allocation on the whole chain |
| FiberPools.CilkFiberPool.MoveFibersToParentPool | batched-piper/runtime/cilk_fiber.cpp:178-216 | the loop moves fibers in stack order until the parent is full or the child has no more than the number to keep, and hands up a negative total |
| FiberPools.CilkFiberPool.FreeFibersFromPool | batched-piper/runtime/cilk_fiber.cpp:98-158 | the loop ends, frees exactly the fibers above the number to keep, and stores the extra one |
| FiberPools.CilkFiberPool.DeallocateSelf | batched-piper/runtime/cilk_fiber.cpp:963-1014 | the fiber is stored on top; a full pool makes room by handing fibers up, and frees one only if the parent is full afterwards |
| FiberPools.CilkFiberPool.Destroy | batched-piper/runtime/cilk_fiber.cpp:268-296 | every idle fiber goes up or back to the heap, last stored first, and none is freed unless the parent is full afterwards |
| PendingExceptions.MergeIsDeterministic | batched-piper/runtime/except-gcc.cpp:336-458 | merging in any order passes the assertions on caught chains and rethrows and yields the first active exception, the one caught chain, a rethrow if there is one, and the uncaught count net of the losing active ones |
| PendingExceptions.ChecksPassThroughout | batched-piper/runtime/except-gcc.cpp:390-393 | before and after every merge the debug check holds, that a signed count is positive beside an active exception, if it holds at first and the counts together stay below 2^31 |
| PendingExceptions.SummaryJoins | batched-piper/runtime/except-gcc.cpp:336-458 | the summary of two runs of strands is the merge of their summaries, counts modulo 2^32 |
| PendingExceptions.EmptyIsNeutral | batched-piper/runtime/except-gcc.cpp:362-390 | a missing or empty record is neutral on both sides |
| PendingExceptions.MissingIffNothingPending | batched-piper/runtime/except-gcc.cpp:442-450 | two records leave none if and only if neither has an active or caught exception or a rethrow and their counts add up to 0 modulo 2^32 |
| PendingExceptions.KeptIffPending | batched-piper/runtime/except-gcc.cpp:442-450 | after all merges no record is left if nothing is pending, and only then, unless a strand left an empty record that met no other |
| PendingExceptions.LosersAreDeletedOnce | batched-piper/runtime/except-gcc.cpp:312-334 | over any order of merges the active exceptions but the first are deleted, each once |
| PendingExceptions.FirstThrowWinsIff | batched-piper/runtime/except-gcc.cpp:336-355 | the merged exception is the left one unless it is nil, if and only if the left is no rethrow beside an active right one |
| PendingExceptions.PendingExceptionInfo.Destruct | batched-piper/runtime/except-gcc.cpp:312-334 | the active exception and the whole caught chain are deleted, in order |
| PendingExceptions.MergePendingExceptions | batched-piper/runtime/except-gcc.cpp:360-458 | the in-place merge yields the abstract one, deletes what loses and frees the records that go |
| PedigreeLog.RecordMatchesIff | batched-piper/runtime/record-replay.cpp:98-185 | a record written and read back matches if and only if the type is the one written and the victim and the saturated ranks from leaf to root agree |
| PedigreeLog.RoundTripIff | batched-piper/runtime/record-replay.cpp:128-185 | a recorded pedigree matches itself if and only if its ranks are below 2^63, and then its record matches no other type, chain or victim |
| PedigreeLog.MissingPedigreeReadsAsZero | batched-piper/runtime/record-replay.cpp:274-278 | a record without a pedigree matches its own type with the chain of the single rank 0 and nothing else |
| PedigreeLog.TermsFitTheirBuffer | batched-piper/runtime/record-replay.cpp:134-146 | a text that fits its buffer has no more terms than the buffer for terms holds |
| ReplayLog.WalkPedigreeNodes | batched-piper/runtime/record-replay.cpp:243-253 | the recursion writes the ranks from root to leaf into the buffer and ends it |
| ReplayLog.PedigreeText | batched-piper/runtime/record-replay.cpp:266-279 | the text that goes into the log is that of the chain, or "0" without one |
| ReplayLog.ReplayEntry.Load | batched-piper/runtime/record-replay.cpp:105-155 | the loops store the terms in reverse, and an unknown type is refused |
| ReplayLog.ReplayEntry.Match | batched-piper/runtime/record-replay.cpp:159-185 | the walk accepts a chain if and only if type and victim agree and the ranks are those stored |

## Left out

- The label and relabel structure of the order lists and its batched relabelling; a list is a sequence with insertion behind a node.
- Interleavings inside one memory access, memory order and fences: an access to a word is one step.
- The deque protocol of work stealing; a steal is one step, and any idle worker may steal. The runtime's own machine does not ask whether an iteration has detached, which allows more steals than the code; the machine with the text does.
- Nested lock regions of two blocks are one step where the code holds both locks; the finishing of a promoted iteration is three steps.
- The evaluation of the loop test: the iteration in which it fails has no stage list and only the closing wait.
- Stage numbers within four of the final one, for which the code leaves out the closing wait.
- The final sync of the control frame and the suspension of a control frame that waits for its children there.
- The simulated-steal path, forced reductions, notifications to tools, and parallelism inside a user's reduce function, which is why the repeated merge is one merge.
- Restoring the worker state from a suspended iteration; the users of the returned frame are not part of this model.
- Fairness: that workers do take the events that change something, instead of looking again at a counter that has not moved.
- Watermarks of the stage lists, printing and statistics.
- The printed and thrown errors: a missing list element, a missing stage and an unsynced reducer are error values.
- IterationRing.Iterations.InsertStageFrameList: in a ring of one slot only the first two insertions, because the third writes behind the array.
- PiperRd.PiperRDControl.CilkStageFirst: needs a throttle limit of at least 1 for the same reason; the runtime asserts a limit of at least 2.
- ReducerTable: a bucket is a sequence in an array of buckets, so the address of an element inside a bucket is not modelled; addresses are 64 bits wide.
- ReducerMerge.StrandMap.Merge: a map is its set of entries, listed in any order; how they lie in the hash table is the matter of ReducerTable. An element whose view was set to null counts as removed.
- FrameAllocator: a free list is a sequence, not nodes linked through the free memory. Memory from the system never runs out.
- FiberPool: pools are destroyed by their steps and then stay with their final totals. The preallocation of fibers on one platform, which no total counts, and the switch of stacks are left out.
- PendingExceptions: a caught chain is a sequence. Saving and restoring the state of the C++ runtime is left out.
- PedigreeLog: records are compared by their fields; the file, its lines and the list of orphaned records are left out.
- `cilk_for` splitting, `stacks.c`, mutexes and worker start-up would add only easy members.
