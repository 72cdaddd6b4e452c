# Verified models of the Casprix runtime

A Dafny model of the parts of the Casprix runtime whose correctness is not visible from any one function, and
proofs about them. `dafny verify dfyconfig.toml` checks the whole project.

- **Memory.** The cycle collector by trial deletion, with destructors that release what they hold (`CycleHeap`,
  `CycleTrial`, `CycleScan`, `CycleSweep`, `CycleFinalize`, `CycleVisits`, `CycleOutcome`, `CycleCollection`,
  `CycleTheorems`, `CycleIslands`, `CycleFlags`, `CycleDestructors`, `CycleSurvivors`), the life of one
  reference-counted object under interleaving threads (`ArcLifecycle`, `ArcCalls`, `ArcProgress`), the cascade of
  releases through an object graph (`ArcCascade`), and the generational mark-sweep collector over its intrusive list
  (`GcHeap`, `GcCollection`, `GcGenerations`, `MarkSweep`).
- **Protocols.** The Chase-Lev deque (`WorkDeque`, `WorkDequeCalls`), the bounded log queue (`LogQueue`,
  `LogQueueCalls`, `LogQueueProgress`), the exchange-based queue with many producers (`MpscQueue`, `MpscCalls`), the
  byte ring (`SpscRing`, `SpscCalls`, `RingBuffer`), sharded telemetry (`Telemetry`, `TelemetryCalls`) and the
  condition-variable channel (`ChannelProtocol`, `ChannelCalls`, `Channel`). Each protocol is a state machine whose
  steps are single shared accesses, or for the channel single stretches under the lock; a run is any sequence of
  enabled steps, and history variables record what the calls returned. Memory is sequentially consistent. The first
  module of each proves what holds in every interleaving; the one on its calls says what a call that fails has met,
  that what comes out is the argument of a call, and what a call does that nobody disturbs.
- **Numeric loops.** Gauss-Jordan inversion over the reals and blocked multiplication over any arithmetic
  (`Matrices`, `MatrixInverse`, `MatrixPivots`, `MatrixMultiply`).
- **Fast forms and codecs.** WebSocket frames (sections 5.2 and 5.3 of RFC 6455; `WebSocket`, `WebSocketSamples`,
  `WebSocketCodec`), number formatting (`FastFormat`, `FormatBuffer`), compressed virtual tables and inline caches
  (`ObjectSystem`, `VirtualDispatch`), the package resolver (`Resolver`), gathered writing (`DirectIo`) and the
  accessibility view of a scene tree (`AccessTree`).

`Graphs`, `References`, `Wrapping`, `Words`, `Wrappers` and `Division` hold what several of these share: reachability,
counting references, indices modulo a capacity, word sizes, optional values, quotients and powers.

Object pointers are indices into a sequence of headers, 0 standing for NULL; heaps are updated by the methods of a
class and every method is tied to a function of the old heap. Bit masks `x & (capacity - 1)` of power-of-two
capacities are written as remainders, bytes of frames as numbers below 256 with exclusive or taken bit by bit.

Where the code does not do what its comments or callers might lead one to expect, the model follows the code and a
lemma says so:

- The restore pass of the cycle collector adds one count to every survivor, however many trial deletion took
  (`CycleTheorems.UndoIsExactForOneReference`, `CycleTheorems.UndoOvershoots`).
- Collecting a cycle stops the program with an over-release when a destructor releases an object that is still
  being visited and is not a listed suspect (`CycleDestructors.ChordAborts`). Exactly when is `CycleOutcome.Aborts`,
  a condition on the heap and the suspects; with a single suspect it is that the garbage has a ring that does not
  lead through the suspect (`CycleDestructors.OneSuspect`).
- A collection can destroy a live object, one that an outside handle leads to, because the one count that the restore
  pass gives back may be fewer than the garbage releases (`CycleDestructors.LiveObjectDestroyed`,
  `CycleSurvivors.LiveIsHarmed`). Exactly when is `CycleSurvivors.LiveUnharmedIff`: some live object loses as many
  counts as it was left to the garbage and to what goes with the garbage. That something goes with it is not harm yet
  (`CycleSurvivors.OnlyGarbageHeldIt`); nothing does under the condition of `CycleDestructors.UnharmedIff`.
- A collection can leave counts that no longer cover the references that are there, so that the next one does not
  start from a clean heap (`CycleSurvivors.NextStartBroken`); exactly when is `CycleSurvivors.NextStartIff`.
- A collection can take a live suspect off the list and leave it flagged as buffered, after which it is never
  suspected again (`CycleFlags.FlagLeft`): only in its own turn of phase 2 does a survivor lose its flag, and only if it
  is black by then. Exactly which ones keep theirs is `CycleFlags.FlagLeftIff`.
- With a full list of suspects a collection makes room before the new suspect is listed, and can destroy it: it is
  listed all the same (`CycleFlags.ListedThoughDestroyed`, and exactly when, `CycleFlags.ListedThoughDestroyedIff`).
- The log queue accepts capacity one, with which messages overwrite each other (`LogQueue.SingleSlotOverwrites`) or
  nothing is written any more (`LogQueue.SingleSlotWedges`, `LogQueue.WedgedForever`). With two slots or more none is
  overwritten (`LogQueue.WrittenIsPrefixOfAccepted`), and a pass of the drain thread always ends
  (`LogQueueProgress.PassIsBounded`) with what was ready written (`LogQueueProgress.PassWritesReady`,
  `LogQueueProgress.DrainPass`).
- The matrix inverse never exchanges rows, so a null result does not mean a singular matrix
  (`MatrixInverse.NullForAnInvertible`), and neither does a small pivot (`MatrixPivots.SmallIsRefused`,
  `MatrixPivots.OneEntry`); exactly when a matrix comes back is part of `MatrixInverse.Inverse`, and what that asks of
  the matrix, with the code's bound of 1e-10, is `MatrixPivots.PivotsIffLarge`. With a bound of zero it would be that
  every leading block is invertible (`MatrixPivots.NonZeroIffRegular`).
- The decoder adds header and declared length in a machine word: ten bytes pass for a whole frame of 2^64 - 1 bytes
  (`WebSocket.LongestLengthWraps`), and with a sum of exactly 2^64 nothing is consumed (`WebSocket.ReceiverIsStuck`);
  exactly when the consumed count is right is `WebSocket.ConsumedIsHonest`.
- The resolver looks for names only, so two versions of a package can be listed (`Resolver.TwoVersions`). It cannot
  happen in a registry whose name cycles have no way out by another version (`Resolver.NoneTwice`, a condition on the
  registry alone), such as one without cycles or with one version of each name.
- Gathered writing fails if the last vector is empty, with everything written, or if 32 empty vectors stand in a
  row, with the rest unwritten; and otherwise does not (`DirectIo.WriteAll`, `DirectIo.StallsIff`,
  `DirectIo.EmptyLast`, `DirectIo.EmptyMiddle`).
- With unique ids, a surfaced node is listed by the parent it names unless an invisible node stands between them
  (`AccessTree.ChildOfItsParent`, `AccessTree.NotInView`).
- A compressed table over a class without a parent, given a compressed parent, looks its methods up in that parent and
  can find the wrong ones (`VirtualDispatch.OrphanIsWrong`); exactly when a new compressed table is right is
  `VirtualDispatch.RightIff`, and for such a class `VirtualDispatch.OrphanRightIff`.
- Type ids start over after 2^32 tables. A new table keeps the hierarchy in order if and only if its id is fresh
  (`ObjectSystem.HierarchyKeptIff`), which ends with the first id after the start (`ObjectSystem.OrderEnds`); two tables
  later an object passes for an instance of an unrelated class (`ObjectSystem.WrongInstance`). Exactly when an id tests
  for its class is `ObjectSystem.IdTestsRightIff`.

## Model

| member | source | states |
|---|---|---|
| CycleCollection.CycleCollector.Collect | runtime/memory/cycle_gc.c:191-265 | Started from a clean heap, a collection stops at an over-release if and only if `CycleOutcome.Aborts` holds of heap and suspects. Otherwise it hands every garbage object to `arc_cycle_collect` once, children first, nothing else, and returns their number; garbage ends finalized, and every other object with the count the undo left it less the references that destructors release, destroyed in turn if that is all it had, which happens to no more objects than it must; flags are exact. A nested call, in whatever state of the heap, does nothing |
| CycleCollection.CycleCollector.AddSuspect | runtime/memory/cycle_gc.c:143-181 | An object with a count, a scanner and neither flag is turned purple, flagged and put at the end of the list; with a full list a collection comes first, and while one is under way the list grows or the object stays off it, flagged; any other object is passed over |
| CycleCollection.CycleCollector.MarkRoots | runtime/memory/cycle_gc.c:198-223 | After phase 1 the gray objects are exactly those the valid suspects reach, each with its count less its references from gray objects; the list keeps exactly the valid suspects that no suspect kept before leads to; those struck off, and no others, lose their flag |
| CycleCollection.CycleCollector.MarkGray | runtime/memory/cycle_gc.c:32-46 | Turns gray exactly what was not gray and is reached, with every field of a newly gray object counted once |
| CycleCollection.CycleCollector.ScanDecrement | runtime/memory/cycle_gc.c:17-30 | One field is counted off and its object traced; the early return for an exhausted count is never taken on a consistent heap |
| CycleCollection.CycleCollector.ScanRoots | runtime/memory/cycle_gc.c:225-238 | After phase 2 a traced object is black exactly if a path inside the traced objects leads to it from one with a positive trial count, and white otherwise |
| CycleCollection.CycleCollector.ScanRestore | runtime/memory/cycle_gc.c:49-62 | Blackens everything below a saved object, each with one count more |
| CycleCollection.CycleCollector.ScanLive | runtime/memory/cycle_gc.c:64-80 | Leaves no gray object below: white with a trial count of zero or less, or restored |
| CycleCollection.CycleCollector.CollectWhite | runtime/memory/cycle_gc.c:86-103 | Enters the white objects below in the order of a depth-first search and hands each of them over after the objects it refers to, those being visited excepted; or stops, and then the order holds a strike at an object being visited |
| CycleCollection.CycleCollector.ArcCycleCollect | runtime/memory/arc.c:543-561 | Finalizes an object whose visit is over; stops exactly if its destructor strikes an object that is being visited and not flagged |
| CycleCollection.CycleCollector.FinalizeZeroStrong | runtime/memory/arc.c:183-218 | Runs the destructor while the scanner is still there, then resets scanner, color and flags; stops exactly if the destructor strikes |
| CycleCollection.CycleCollector.RunDestructor | runtime/object.h:15 | Releases every field once, in order, with all the releases set off; progress of the destructors under way is untouched |
| CycleCollection.CycleCollector.ReleaseField | runtime/memory/arc.c:234-265 | One release: passed over at a finalized, white or flagged object without a count, a count less, a destruction at the last count, or an over-release, which is exactly a release of an unflagged object that is being visited |
| CycleFinalize.LastOne | runtime/memory/arc.c:253-262 | An object whose last count is released has to go: every set that holds what the releases leave without a count holds it |
| CycleFinalize.CountedOrGone | runtime/memory/arc.c:244-249 | Outside the garbage a release never meets an object without a count that is not being destroyed |
| CycleCollection.CycleCollector.CollectRoots | runtime/memory/cycle_gc.c:240-265 | Phase 3 over the list reaches every white object, also those whose suspect was struck off; it stops exactly if `CycleOutcome.Aborts` holds |
| CycleTheorems.GarbageIsUnreachable | runtime/memory/cycle_gc.c:191-265 | The verdict is exact: garbage is what was traced and cannot be reached from any object with a handle outside the heap's fields nor from any untraced object |
| CycleTheorems.OnlyGarbageRefersToGarbage | runtime/memory/cycle_gc.c:86-103 | No surviving object refers to a collected one |
| CycleTheorems.UndoIsExactForOneReference | runtime/memory/cycle_gc.h:12 | The undo gives a survivor its old count back if and only if it had exactly one reference from the traced objects |
| CycleTheorems.UndoOvershoots | runtime/memory/cycle_gc.h:12 | A live suspect that refers to nothing ends with one count too many: a concrete heap |
| CycleIslands.GarbageIsLargestIsland | runtime/memory/cycle_gc.c:191-265 | Said on the fields alone: the garbage is the largest set of objects, neither being destroyed nor marked acyclic, all of whose counts are references from the set and to each of which fields inside the set lead from a listed purple suspect with a count |
| CycleIslands.IslandIsFinalized | runtime/memory/cycle_gc.c:240-265 | Every object of any such set is handed over, and ends with no count, no scanner, black, marked as destroyed and not flagged |
| CycleIslands.OthersAreLeft | runtime/memory/cycle_gc.c:205-222 | An object no suspect leads to, or one that is being destroyed or marked acyclic, is not collected; it keeps its color and fields unless a destructor takes its last count, and its count if no destructor releases anything |
| CycleFlags.FlagLeftIff | runtime/memory/cycle_gc.c:214-237 | An object is flagged after a collection if and only if it was, survives, and at every place on the list was new to those kept before it and in its turn not below an object with a count of its own that it or they lead to |
| CycleFlags.HeldIsUnflagged | runtime/memory/cycle_gc.c:234-237 | A listed suspect that keeps a count of its own after trial deletion is not left flagged |
| CycleFlags.SingleIsUnflagged | runtime/memory/cycle_gc.c:234-237 | With a single suspect on the list it never is |
| CycleFlags.FlagLeft | runtime/memory/cycle_gc.c:158-162 | A concrete heap with two live suspects, the first of which comes off the list with its flag on |
| CycleFlags.ListedThoughDestroyedIff | runtime/memory/cycle_gc.c:164-179 | The suspect that a full list makes wait is destroyed before it is listed if and only if it is garbage or loses its last count |
| CycleFlags.ListedThoughDestroyed | runtime/memory/cycle_gc.c:164-179 | A concrete heap on which it is |
| CycleDestructors.PlainOutcome | runtime/memory/cycle_gc.c:191-265 | If no garbage has a releasing destructor, no collection stops, nothing else is destroyed, and every header is as `CycleHeap.After` says |
| CycleDestructors.OneSuspect | runtime/memory/cycle_gc.c:86-103 | With one suspect and releasing destructors throughout, phase 3 gets through if and only if the garbage has no ring but through the suspect |
| CycleDestructors.UnflaggedRingAborts | runtime/memory/arc.c:244-249 | Whatever the order of the visits, a ring of unflagged garbage stops the program |
| CycleDestructors.NoWayBack | runtime/memory/arc.c:244-249 | If no unflagged object leads back to one whose destructor releases it, no order of visits does |
| CycleDestructors.ChordAborts | runtime/memory/cycle_gc.c:93 | The suspect refers to A, A to B, B to both: all three are garbage and the collection stops |
| CycleDestructors.UnharmedIff | runtime/memory/cycle_gc.c:49-62 | Something outside the garbage, live or not, is destroyed if and only if garbage releases as many references to some object as the count the collection left it |
| CycleSurvivors.LiveUnharmedIff | runtime/memory/cycle_gc.c:49-62 | No live object is destroyed if and only if none loses all of the count it was left to the garbage and to what is dragged along with it |
| CycleSurvivors.DraggedIsExact | runtime/memory/arc.c:253-262 | What is dragged along is a fixed point: the objects outside the live ones that lose all their counts to garbage and each other |
| CycleSurvivors.UnharmedDead | runtime/memory/arc.c:253-262 | If no live object is destroyed, the destroyed ones are exactly those dragged along |
| CycleSurvivors.LiveIsHarmed | runtime/memory/cycle_gc.c:49-62 | The concrete live object that is destroyed meets the condition |
| CycleSurvivors.OnlyGarbageHeldIt | runtime/memory/arc.c:253-262 | A concrete heap on which an object held by garbage alone goes and nothing live is harmed |
| CycleSurvivors.NextStartIff | runtime/memory/cycle_gc.c:49-62 | The heap a collection leaves is clean for the next if and only if each survivor of the traced objects has outside handles, one more, and references from destroyed objects that were not released, for all references from survivors and all released by garbage |
| CycleSurvivors.NextStartPlain | runtime/memory/cycle_gc.c:49-62 | Without releasing garbage: if and only if the outside handles of each and one more are no fewer than its references from survivors |
| CycleSurvivors.NextStartBroken | runtime/memory/cycle_gc.c:49-62 | A concrete heap without any garbage after whose collection no later one starts clean |
| CycleDestructors.LiveObjectDestroyed | runtime/memory/cycle_gc.c:49-62 | A concrete heap on which an object with a handle outside the heap is destroyed |
| CycleDestructors.VisitsAll | runtime/memory/cycle_gc.c:240-265 | The order of the visits holds every garbage object once, and nothing else |
| CycleTrial.CountStaysPositive | runtime/memory/cycle_gc.c:25-28 | Trial deletion never takes a count below zero when every count covers its references |
| CycleScan.NoGrayLeft | runtime/memory/cycle_gc.c:225-238 | After the scan of the listed suspects nothing traced is gray |
| CycleScan.SavedIsBlack | runtime/memory/cycle_gc.c:225-238 | What is saved has turned black |
| WorkDeque.StepRefinesDeque | runtime/net/threadpool.c:53-126 | Every atomic step of push, grow, pop and steal keeps the invariant and is a step of a sequential deque: push at the bottom, pop from the bottom, steal from the top, or nothing |
| WorkDeque.NothingLostOrDoubled | runtime/net/threadpool.c:71-126 | In every interleaving, at every moment, the tasks pushed are those returned plus those left, as multisets |
| WorkDeque.QuiescentContents | runtime/net/threadpool.c:71-126 | With the owner at rest the tasks left, which are those pushed and not returned, stand at the indices from top up to bottom in the current buffer |
| WorkDeque.StaleStealFails | runtime/net/threadpool.c:118-124 | A thief that read anything but the task now at its index loses the compare-exchange |
| WorkDeque.CopySlotInv | runtime/net/threadpool.c:63-65 | The copy loop of grow keeps the task at every index |
| WorkDeque.PublishInv | runtime/net/threadpool.c:66-67 | Publishing the grown buffer changes no task at any index, for the owner and for slow thieves |
| WorkDequeCalls.MissedHasReason | runtime/net/threadpool.c:111-126 | In every interleaving a steal answers NULL only if at that step the deque is empty, or the owner is popping the one task left, or top has moved since the call began |
| WorkDequeCalls.StealAlone | runtime/net/threadpool.c:111-126 | From any state with the owner at rest, a steal that nobody disturbs takes the oldest task, and answers NULL exactly if there is none |
| WorkDequeCalls.PopAlone | runtime/net/threadpool.c:88-109 | A pop that nobody disturbs takes the newest task, the last one included, and answers NULL exactly if there is none |
| WorkDequeCalls.PushAlone | runtime/net/threadpool.c:71-86 | A push that nobody disturbs puts its task at the right end, with a buffer twice as large exactly if only one slot was free |
| WorkDequeCalls.PushedIsArgument | runtime/net/threadpool.c:71-86 | In every interleaving what a push puts in is the argument of its call |
| WorkDequeCalls.PopGetsOn | runtime/net/threadpool.c:88-109 | Every step of a pop brings it nearer to its end, six steps away at most, whatever the thieves do |
| WorkDequeCalls.PopMissed | runtime/net/threadpool.c:99-108 | It answers NULL only on an empty deque, with bottom still to be put back |
| WorkDequeCalls.StealGetsOn | runtime/net/threadpool.c:111-126 | Every step of a steal brings it nearer to its end, four steps away at most, whatever the others do |
| ArcLifecycle.CountsAreHandles | runtime/memory/arc.c:183-475 | In every interleaving of threads that use their own handles the strong count is the number of strong handles, the weak count that of weak handles and one more until finalization drops its share; destructor and free happen at most once and not too early; only a moved object or an overflow stops the program |
| ArcLifecycle.QuietEnd | runtime/memory/arc.c:183-264 | With no call in flight the destructor has run if and only if no strong handle is left, and the block is freed if and only if no handle is left |
| ArcLifecycle.ZeroIsForever | runtime/memory/arc.c:431-455 | Once the strong count is zero no retain and no upgrade ever succeeds |
| ArcLifecycle.NoAccessAfterFree | runtime/memory/arc.c:183-218 | After the free no thread is inside any call, except at the zeroing of the payload |
| ArcLifecycle.RetainInv | runtime/memory/arc.c:156-170 | Retain's checks and compare-exchange loop keep the invariant |
| ArcLifecycle.ReleaseInv | runtime/memory/arc.c:234-265 | So does release |
| ArcLifecycle.EndKeepsInv | runtime/memory/arc.c:183-232 | So do the steps of finalization, by the one thread that marks the object |
| ArcLifecycle.UpgradeInv | runtime/memory/arc.c:431-455 | So does upgrading a weak reference |
| ArcLifecycle.WeakDropped | runtime/memory/arc.c:457-475 | So does releasing a weak reference, which frees exactly when it takes the count from one to zero |
| ArcCalls.UpgradeEnds | runtime/memory/arc.c:440-454 | An upgrade ends with a new strong handle and one count more, or without one, exactly at a check when no strong handle is left |
| ArcCalls.NullMeansGone | runtime/memory/arc.c:442-445 | In every interleaving an upgrade answers NULL only at a moment without any strong handle |
| ArcCalls.UpgradeAlone | runtime/memory/arc.c:431-455 | With a strong handle somewhere and the count below its limit, an upgrade that nobody disturbs adds a handle and a count in three steps |
| ArcCalls.UpgradeFails | runtime/memory/arc.c:442-445 | Without one it changes nothing |
| ArcCalls.RetainEnds | runtime/memory/arc.c:357-376 | A retain ends with a new handle and one count more |
| ArcCalls.RetainAlone | runtime/memory/arc.c:357-376 | Undisturbed, on an object that is not moved and below the limit, it does in four steps |
| ArcCalls.WeakCreateEnds | runtime/memory/arc.c:409-429 | Making a weak reference ends with a new weak handle and one weak count more |
| ArcCalls.WeakCreateAlone | runtime/memory/arc.c:409-429 | Undisturbed and below the limit, it does in four steps |
| ArcCalls.ReleaseEnds | runtime/memory/arc.c:234-265 | A release takes away the handle it was called with and one count, and goes on to finalize exactly if that was the last |
| ArcCalls.ReleaseAlone | runtime/memory/arc.c:183-265 | Undisturbed, it takes away handle and count, and with the last one runs the destructor, drops the share of the weak count and frees the block exactly if no weak handle is left |
| ArcCalls.WeakReleaseAlone | runtime/memory/arc.c:457-475 | Releasing a weak reference, undisturbed, takes away handle and count |
| ArcCalls.LastWeakReleaseAlone | runtime/memory/arc.c:472-474 | And with the last count frees the block |
| ArcCalls.AbortHasReason | runtime/memory/arc.c:156-170 | A call stops the program only for a moved object or a count that was 2^31 - 1 when it was loaded |
| ArcCalls.MovedStops | runtime/memory/arc.c:368-370 | Once an object is marked as moved, a retain that nobody disturbs stops the program |
| ArcCalls.OverReleased | runtime/memory/arc.c:243-249 | A release that loads a count of zero stops the program, unless the object is destroyed already, when it does nothing |
| ArcCalls.RetainMisused | runtime/memory/arc.c:156-167 | Retaining a destroyed object or a negative count stops the program |
| ArcCalls.WeakMisused | runtime/memory/arc.c:417-422 | So does making a weak reference to one |
| ArcCalls.EndMisused | runtime/memory/arc.c:204-227 | So does taking a weak count of zero down; no object is destroyed twice, and none freed with a strong count |
| ArcProgress.CallIsBounded | runtime/memory/arc.c:156-475 | In every interleaving a call that has not come to its end has taken fewer than six steps of its thread, and two more for every time that another thread has changed a count |
| ArcCascade.FreedIffUnreachable | runtime/memory/arc.c:183-265 | On an acyclic graph, between calls, an object is freed if and only if no outside handle reaches it |
| ArcCascade.LiveIff | runtime/memory/arc.c:183-265 | On any graph, between calls, an object is live if and only if it is reached from an outside handle or from a live object on a cycle |
| ArcCascade.ReachableIsLive | runtime/memory/arc.c:183-265 | What an outside handle reaches is live, cycles or not |
| ArcCascade.SelfReferenceLeaks | runtime/object.h:176-182 | Acyclicity is needed: an object that refers to itself outlives its last handle |
| ArcCascade.ArcHeap.Alloc | runtime/memory/arc.c:290-355 | Delivers exactly if the size is not zero, the alignment is 0 or a power of two, the sum fits the machine word and the allocator delivers: a new object with one handle and empty fields; nothing else changes |
| ArcCascade.PowerOfTwoIff | runtime/memory/arc.c:105-107 | The alignments that pass the test are exactly the powers of two |
| ArcCascade.ArcHeap.Retain | runtime/memory/arc.c:357-376 | One count and one handle more |
| ArcCascade.ArcHeap.Release | runtime/memory/arc.c:378-385 | One handle less, with the whole cascade it sets off, counts exact again afterwards |
| ArcCascade.ArcHeap.AssignRef | runtime/object.h:176-182 | The field write, self-assignment included: fields as stored, counts exact afterwards |
| ArcCascade.ArcHeap.ReleaseCount | runtime/memory/arc.c:234-265 | Terminates on the set of live objects; only kills, never revives |
| ArcCascade.ArcHeap.RunDestructor | runtime/object.h:15 | Releases every field once |
| LogQueue.WrittenIsPrefixOfAccepted | runtime/io/lockfree_log.c:92-183 | With two slots or more, in every interleaving of any number of producers and the drain thread, the messages written are a prefix of the accepted ones in enqueue-position order, unaltered; the dropped counter counts exactly the refused pushes |
| LogQueue.SlotsAreExclusive | runtime/io/lockfree_log.c:92-116 | A claimed slot has one writer, and no writer while the drain thread holds it |
| LogQueue.DroppedOnlyWhenFull | runtime/io/lockfree_log.c:111-113 | A push is refused only if its slot was still held from the lap before when its sequence was read |
| LogQueue.SequenceRead | runtime/io/lockfree_log.c:96-99 | A slot's sequence lies behind the loaded position exactly if the queue was full at that moment |
| LogQueue.TailRead | runtime/io/lockfree_log.c:24-27 | The slot at the tail has its next sequence exactly if its position is taken and not being filled; the sequence is never ahead |
| LogQueue.ReadInv | runtime/io/lockfree_log.c:169-170 | A picked slot is read with the content it was accepted with |
| LogQueue.ReleaseInv | runtime/io/lockfree_log.c:179-182 | Giving slots back keeps the invariant |
| LogQueue.SingleSlotOverwrites | runtime/io/lockfree_log.c:44 | With capacity one: a run from the start in which two messages are accepted and the second alone is written, which is no prefix |
| LogQueue.SingleSlotWedges | runtime/io/lockfree_log.c:22-41 | With capacity one: a run from the start in which two pushes leave the slot ahead of what the drain thread waits for |
| LogQueue.WedgedForever | runtime/io/lockfree_log.c:22-41 | From then on nothing is written in any interleaving |
| LogQueueCalls.WrittenFrom | runtime/io/lockfree_log.c:92-183 | With two slots or more every message written has the level of some push and its text, cut after 240 characters and not before |
| LogQueueCalls.AcceptedIsArgument | runtime/io/lockfree_log.c:92-109 | In every interleaving what a producer has accepted is what its last call asked for |
| LogQueueCalls.PushAlone | runtime/io/lockfree_log.c:92-116 | From any reachable state a push that nobody disturbs is accepted as the message of its arguments if and only if the queue is not full; otherwise it is counted as dropped |
| LogQueueCalls.RetryHasReason | runtime/io/lockfree_log.c:100-115 | A push goes round again only if another took its position or the compare-exchange failed spuriously |
| LogQueueCalls.FailsInstead | runtime/io/lockfree_log.c:100-110 | What may fail spuriously is the exchange that takes a position, and nothing else |
| LogQueueCalls.PopFailsInstead | runtime/io/lockfree_log.c:22-41 | The same for the exchange of the drain thread |
| LogQueueCalls.PushIsBounded | runtime/io/lockfree_log.c:95-115 | With two slots or more, in every interleaving, a push takes five steps of its own at most, and three more for every position that another takes and every spurious failure |
| LogQueueProgress.PassWritesReady | runtime/io/lockfree_log.c:123-183 | With two slots or more and under any interference, a pass that has ended has written every message that was ready when it began, up to a batch of 32 |
| LogQueueProgress.PassIsBounded | runtime/io/lockfree_log.c:123-183 | Under any interference a pass ends after fewer than 165 of the drain thread's own steps, and two more for each spurious failure of its compare-exchange |
| LogQueueProgress.DrainPass | runtime/io/lockfree_log.c:123-183 | From any reachable state an undisturbed pass writes exactly the ready messages, up to a batch, gives their slots back and rests |
| LogQueueProgress.NextBatch | runtime/io/lockfree_log.c:123-183 | With no producer in the middle of a push it writes the next batch, or all that is left |
| MatrixInverse.Inverse | runtime/math/linalg_runtime.c:419-482 | A matrix comes back exactly when the argument is square and no pivot is smaller than 1e-10 in size, and then it is a left and a right inverse over the reals |
| MatrixInverse.ClearColumn | runtime/math/linalg_runtime.c:454-464 | Subtracts the pivot row's multiples from all other rows; the linking invariant is kept |
| MatrixInverse.Pivot | runtime/math/linalg_runtime.c:449-464 | One turn: one more unit column, still the right half times the original matrix, still undone by the column operations |
| MatrixInverse.LinkedAtEnd | runtime/math/linalg_runtime.c:419-482 | When the left half is the identity the right half inverts from both sides |
| MatrixInverse.NullForAnInvertible | runtime/math/linalg_runtime.c:444-447 | A null result does not mean a singular matrix: exchanging two coordinates is invertible and has none of its pivots |
| MatrixPivots.NonZeroIffRegular | runtime/math/linalg_runtime.c:442-464 | No pivot is zero if and only if every leading block is invertible |
| MatrixPivots.PivotsNeedBlocks | runtime/math/linalg_runtime.c:444-447 | The pivots the code asks for are there only if every leading block is invertible |
| MatrixPivots.PivotsIffLarge | runtime/math/linalg_runtime.c:442-447 | They are there if and only if each leading block takes some vector that ends in 1 to (0, ..., 0, y) with y no smaller than 1e-10, y being the quotient of its determinant and that of the block before |
| MatrixPivots.SmallIsRefused | runtime/math/linalg_runtime.c:444-447 | A single entry of 1e-11 has an inverse and is refused |
| MatrixPivots.OneEntry | runtime/math/linalg_runtime.c:444-447 | A single entry comes back if and only if its size is 1e-10 or more |
| MatrixMultiply.Multiply | runtime/math/linalg_runtime.c:252-281 | For any addition and multiplication every cell of the blocked product is the plain left fold of its row and column, in the same order |
| MatrixMultiply.VectorDot | runtime/math/linalg_runtime.c:66-96 | The unrolled scalar dot product is the plain left fold; zero for mismatched or missing vectors |
| MatrixMultiply.CellIsDot | runtime/math/linalg_runtime.c:252-281 | The product's cell is the dot product of row and column |
| MatrixMultiply.Accumulate | runtime/math/linalg_runtime.c:269-273 | The innermost loop takes in exactly one block of terms, in order |
| MpscQueue.DequeuedIsPrefix | runtime/net/mpsc_queue.c:23-50 | In every interleaving the dequeued values are a prefix of the enqueued ones in the order of the head exchanges |
| MpscQueue.NullMeansEmpty | runtime/net/mpsc_queue.c:36-46 | NULL is answered only when everything is dequeued or the next producer sits between exchange and link; with no enqueue in flight it means empty |
| MpscQueue.TailNext | runtime/net/mpsc_queue.c:38-45 | The tail's link is missing exactly if nothing is left or that link is still to be made |
| MpscQueue.EmptyLook | runtime/net/mpsc_queue.c:39-46 | On an empty queue no look finds a node |
| MpscCalls.EnqueuedIsArgument | runtime/net/mpsc_queue.c:23-34 | In every interleaving what an enqueue puts in is the argument of its call |
| MpscCalls.DequeuedFrom | runtime/net/mpsc_queue.c:23-50 | So every dequeued value was the argument of an enqueue |
| MpscCalls.EnqueueAlone | runtime/net/mpsc_queue.c:23-34 | An enqueue that nobody disturbs puts its value at the end, linked |
| MpscCalls.DequeueAlone | runtime/net/mpsc_queue.c:36-50 | A dequeue that nobody disturbs takes the oldest value if its link is made |
| MpscCalls.DequeueOfNothing | runtime/net/mpsc_queue.c:39-46 | With nothing linked it answers NULL after exactly nine looks and leaves the queue as it was |
| MpscCalls.EnqueueGetsOn | runtime/net/mpsc_queue.c:31-33 | An enqueue ends after two more steps, whatever the others do |
| MpscCalls.DequeueGetsOn | runtime/net/mpsc_queue.c:38-49 | A dequeue ends after ten steps at most |
| ChannelProtocol.ReceivedIsPrefixOfSent | runtime/concurrent/channel.c:38-149 | In every interleaving what was received, followed by what the buffer holds, is what was sent, in lock order |
| ChannelProtocol.NobodySleepsInVain | runtime/concurrent/channel.c:49-54 | No wakeup is lost: with no woken thread left to resume, receivers sleep only on an empty channel, senders only on a full one, nobody on a closed one; the waiting counters count the threads in the wait |
| ChannelProtocol.ActionInv | runtime/concurrent/channel.c:38-162 | Every step keeps: a sleeping receiver means at least as many woken ones as messages, a sleeping sender at least as many as free slots |
| ChannelProtocol.ClosedForGood | runtime/concurrent/channel.c:151-162 | After the close no send succeeds, nobody goes to sleep, and the sent messages stay as they are |
| ChannelProtocol.NullMeansDrained | runtime/concurrent/channel.c:109-112 | NULL comes only from a closed channel all of whose messages, now and later, have been received |
| ChannelProtocol.ReceiveAfterClose | runtime/concurrent/channel.c:97-127 | After the close each receive hands out the next remaining message, and NULL exactly when none is left |
| ChannelCalls.TrySendAnswers | runtime/concurrent/channel.c:75-95 | A send that does not wait appends its message if and only if the channel is open and has fewer messages than its capacity; otherwise it is refused and nothing changes |
| ChannelCalls.TryReceiveAnswers | runtime/concurrent/channel.c:129-149 | A receive that does not wait takes the oldest message if and only if there is one; otherwise nothing changes |
| ChannelCalls.SendTurns | runtime/concurrent/channel.c:38-73 | A send waits if and only if the channel is open and full |
| ChannelCalls.ResumeSendTurns | runtime/concurrent/channel.c:49-73 | Back from the wait it finds out anew, with the message it came with |
| ChannelCalls.ReceiveTurns | runtime/concurrent/channel.c:97-127 | A receive waits if and only if the channel is open and empty |
| ChannelCalls.ResumeReceiveTurns | runtime/concurrent/channel.c:102-127 | Back from the wait it finds out anew |
| ChannelCalls.CloseTurns | runtime/concurrent/channel.c:151-162 | Closing wakes everybody asleep and changes nothing else |
| ChannelCalls.SendThenReceive | runtime/concurrent/channel.c:38-127 | On an open channel with no message and nobody asleep, a send and then a receive hand over the argument of the send |
| ChannelCalls.SentIsArgument | runtime/concurrent/channel.c:38-95 | In every interleaving what a send puts in, after any number of waits, is the argument of its call |
| ChannelCalls.ReceivedFrom | runtime/concurrent/channel.c:38-149 | So every message received was the argument of a send |
| Channel.Channel.Send | runtime/concurrent/channel.c:38-73 | Over the ring buffer, up to the first wait: the protocol's step |
| Channel.Channel.ResumeSend | runtime/concurrent/channel.c:50-73 | Back from a wait with the lock: the protocol's step |
| Channel.Channel.TrySend | runtime/concurrent/channel.c:75-95 | The protocol's step, never waiting |
| Channel.Channel.Receive | runtime/concurrent/channel.c:97-127 | Over the ring buffer, up to the first wait: the protocol's step |
| Channel.Channel.ResumeReceive | runtime/concurrent/channel.c:103-127 | Back from a wait with the lock: the protocol's step |
| Channel.Channel.TryReceive | runtime/concurrent/channel.c:129-149 | The protocol's step, never waiting |
| Channel.Channel.Close | runtime/concurrent/channel.c:151-162 | The protocol's step, waking everyone |
| SpscRing.ReadIsPrefixOfWritten | runtime/net/ringbuf.c:36-71 | In every interleaving, with stale index loads and the copies made element by element, what is read is a prefix of what is written, and at most a capacity behind |
| SpscRing.ActionInv | runtime/net/ringbuf.c:36-71 | Every step keeps all unread elements in place |
| SpscRing.BeginFill | runtime/net/ringbuf.c:38-44 | The occupancy computed from a stale read index is at most the capacity, as the code asserts |
| SpscRing.WrappedDifference | runtime/net/ringbuf.c:40 | The difference of two wrapped indices is the difference of the unbounded counters |
| SpscRing.WrappedSlot | runtime/net/ringbuf.c:46 | A wrapped index names the counter's slot, as the capacity divides the modulus |
| SpscRing.CopySlotWraps | runtime/net/ringbuf.c:45-50 | The two-part copy puts element i where single steps around the ring would |
| SpscCalls.WroteIsPrefix | runtime/net/ringbuf.c:36-53 | In every interleaving a write accepts the longest prefix of its argument for which there was room when its call loaded the read index |
| SpscCalls.GotIsAvailable | runtime/net/ringbuf.c:55-71 | A read hands out as much as there was when its call loaded the write index, up to the length it asks for |
| SpscCalls.WriteAlone | runtime/net/ringbuf.c:36-53 | A write that nobody disturbs puts in as much of its argument as there is room for |
| SpscCalls.ReadAlone | runtime/net/ringbuf.c:55-71 | A read that nobody disturbs hands out the oldest unread elements, as many as there are up to its length |
| SpscCalls.WriteGetsOn | runtime/net/ringbuf.c:36-53 | Every step of a write brings it nearer to its end, whatever the consumer does |
| SpscCalls.ReadGetsOn | runtime/net/ringbuf.c:55-71 | And every step of a read |
| RingBuffer.RingBuffer.Write | runtime/net/ringbuf.c:36-53 | With any read index loaded earlier: accepts the longest prefix that was free then, appends it to what is unread, overwrites nothing |
| RingBuffer.RingBuffer.Read | runtime/net/ringbuf.c:55-71 | With any write index loaded earlier: hands out the oldest bytes available then, in order, and nothing else of the output is touched |
| Telemetry.LinesArePrefixes | runtime/io/ml_telemetry.c:111-125 | In every interleaving the lines written out for a shard are a prefix of the events pushed to it, as the calls reported them; the dropped counter counts the refused pushes; a push is refused only if the ring was full when the read index was loaded |
| Telemetry.OneDrainEmptiesAll | runtime/io/ml_telemetry.c:136-169 | When a drain ends, everything pushed to a shard before it began has been written out; the lines are exactly the events published when the shard's write index was loaded, and no batch is left unwritten |
| Telemetry.CopyInv | runtime/io/ml_telemetry.c:148-154 | Turning the next event into a line keeps the lines a prefix |
| Telemetry.CopiesNext | runtime/io/ml_telemetry.c:148-154 | Reading an event gives the event pushed at that place |
| Telemetry.StoreEventInv | runtime/io/ml_telemetry.c:114-122 | Storing an event overwrites nothing unread |
| TelemetryCalls.PushedIsArgument | runtime/io/ml_telemetry.c:111-125 | In every interleaving what a push stores is the event of its call, its text cut after 96 characters and not before |
| TelemetryCalls.LineFrom | runtime/io/ml_telemetry.c:111-169 | So every line written for a shard is the event of a push to it |
| TelemetryCalls.PushDecides | runtime/io/ml_telemetry.c:114-122 | A push is refused, and counted, if and only if the shard was full when its read index was loaded; otherwise its event is stored |
| TelemetryCalls.PushPublishes | runtime/io/ml_telemetry.c:123-124 | And its next step publishes it |
| TelemetryCalls.FlushIsBatch | runtime/io/ml_telemetry.c:159-168 | Lines are written sixteen at a time, and fewer only at the end of a drain |
| TelemetryCalls.DrainAlone | runtime/io/ml_telemetry.c:136-169 | A drain that no push disturbs writes out every event there is, in order |
| TelemetryCalls.DrainIsBounded | runtime/io/ml_telemetry.c:136-169 | Whatever the producers do, a drain ends after at most two steps of its own for every slot of every shard, and two for every shard |
| MarkSweep.Collector.MarkObject | runtime/memory/gc.c:172-183 | Marks exactly what is newly reached; everything newly marked has its children marked |
| MarkSweep.Collector.MarkRoots | runtime/memory/gc.c:185-189 | The marked objects are exactly those the roots reach |
| MarkSweep.Collector.Sweep | runtime/memory/gc.c:193-237 | Keeps exactly the survivors, in list order and correctly linked, frees the others, leaves the statistics equal to the list, and what is no longer in use is counted as freed |
| MarkSweep.Collector.SweepObject | runtime/memory/gc.c:197-236 | One turn of the sweep keeps the list linked through the last survivor |
| MarkSweep.Collector.Collect | runtime/memory/gc.c:241-261 | A minor collection: unreachable young objects freed, all others kept and aged, marks clear, ages below three, roots listed, statistics exact, what was allocated in use or freed, the threshold adjusted; nothing while another is under way |
| MarkSweep.Collector.CollectFull | runtime/memory/gc.c:263-277 | A full collection: the unreachable freed, the reachable kept and aged, and the same consistency; nothing while another is under way |
| GcCollection.CollectionFrees | runtime/memory/gc.c:193-237 | A full collection frees exactly the unreachable objects, a generational minor one exactly the unreachable young ones |
| GcCollection.CollectionKeepsLive | runtime/memory/gc.c:241-277 | No collection frees an object the roots reach, nor changes its references or size |
| GcGenerations.SurvivorAges | runtime/memory/gc.c:200-220 | With generations a young survivor is old exactly if it had survived two collections before, its age starting over, and one older otherwise; an old one stays as it is |
| GcGenerations.SurvivorUnchanged | runtime/memory/gc.c:213-220 | Without generations neither changes |
| GcGenerations.ThreeThenKept | runtime/memory/gc.c:200-220 | Over any sequence of collections, stores and allocations, an object that three collections found reachable is kept by every later minor one |
| GcGenerations.YoungIsFreed | runtime/memory/gc.c:223-232 | And a young one that a collection does not find reachable is freed by it |
| MarkSweep.Collector.Alloc | runtime/memory/gc.c:98-129 | Collects first exactly when due; the new object heads the list, reaches only itself, everything reachable is still there, and the totals grow by it |
| MarkSweep.Collector.AddRoot | runtime/memory/gc.c:137-153 | Registers any pointer but NULL, unless the array is full and cannot grow; the heap stays consistent if the object and all it reaches are listed |
| MarkSweep.Collector.RemoveRoot | runtime/memory/gc.c:155-168 | Takes away exactly one registration |
| GcCollection.StoredReach | runtime/memory/gc.c:172-183 | A reference store makes nothing reachable but what the stored object reaches |
| ObjectSystem.ObjectSystem.CreateTable | runtime/object.c:68-100 | The next id, and the parent's methods in the slots they share; a hierarchy in order stays so if and only if the id is fresh, which it is, above all others, until the 32-bit counter starts over |
| ObjectSystem.HierarchyKeptIff | runtime/object.c:64-76 | A table keeps the hierarchy in order if and only if its id is above 1, above its parent's, and no other table's |
| ObjectSystem.OrderEnds | runtime/object.c:64-76 | 2^32 - 2 tables are in order, and with one more they are not |
| ObjectSystem.IdTestsRightIff | runtime/object.c:33-50 | Testing for an id is testing for the class that has it, on all objects, if and only if every class with that id inherits from it |
| ObjectSystem.WrongInstance | runtime/object.c:33-76 | After 2^32 + 1 tables the newest has the first one's id, and its objects pass for instances of it |
| ObjectSystem.ObjectSystem.IsInstance | runtime/object.c:33-45 | True exactly if some class in the lineage has the id |
| ObjectSystem.IdsDecrease | runtime/object.c:75-76 | Ids strictly decrease up every parent chain |
| ObjectSystem.IdInLineage | runtime/object.c:33-50 | Testing an id is testing whether its class is an ancestor or the class itself |
| ObjectSystem.ObjectSystem.SetMethod | runtime/object.c:102-105 | Changes one slot of one table, and no dispatch elsewhere |
| VirtualDispatch.LookupIsFullTable | runtime/vtable_opt.c:82-100 | At any inheritance depth a compressed lookup in range gives the full table's entry |
| VirtualDispatch.LookupIsNearest | runtime/vtable_opt.c:82-100 | For any slot number it gives the entry of the nearest table in the chain that is long enough |
| VirtualDispatch.CreateCompressed | runtime/vtable_opt.c:16-80 | Over any compressed parent the two passes record exactly the difference from the table it wraps, and for a class without a parent nothing |
| VirtualDispatch.LookupInNew | runtime/vtable_opt.c:28-100 | In a new compressed table a lookup in range gives the table's own method if it is recorded or there is no compressed parent, and the compressed parent's answer otherwise |
| VirtualDispatch.RightIff | runtime/vtable_opt.c:28-100 | Over any compressed parent, right or not, all lookups in range are right if and only if the parent answers rightly for every slot that is not recorded |
| VirtualDispatch.RightOverRight | runtime/vtable_opt.c:28-100 | Over a right one they are, unless the class has no parent: then if and only if its methods are the compressed parent's |
| VirtualDispatch.OrphanRightIff | runtime/vtable_opt.c:28-34 | For such a class, over a parent that wraps its table: if and only if its methods are those of the nearest long-enough table of the chain |
| VirtualDispatch.OrphanIsWrong | runtime/vtable_opt.c:28-34 | Two concrete classes: the second's lookup gives the first's method |
| VirtualDispatch.DiffIsExact | runtime/vtable_opt.c:64-77 | The overrides are exactly the new and differing slots, each once, in increasing order |
| VirtualDispatch.CountIsDiff | runtime/vtable_opt.c:41-49 | The first pass counts what the second pass records |
| VirtualDispatch.InlineCache.Dispatch | runtime/vtable_opt.c:121-172 | Always the plain table's answer; a new table is remembered while there is room; hits and misses counted; entries distinct and in step with the state |
| VirtualDispatch.InlineCache.Reset | runtime/vtable_opt.c:174-179 | Leaves a cache that is empty, cleared, and valid for any tables |
| WebSocket.RoundTrip | runtime/net/websocket_framing.c:17-100 | Decoding an encoded frame followed by anything gives its header and consumes exactly its length |
| WebSocket.PayloadRoundTrip | runtime/net/websocket_framing.c:44-55 | Unmasking what decoding points to gives the payload |
| WebSocket.PrefixIsIncomplete | runtime/net/websocket_framing.c:61-94 | Every strict prefix of a frame decodes as incomplete |
| WebSocket.StreamsDecodeUniquely | runtime/net/websocket_framing.c:61-100 | A stream of frames decodes to those frames however it is cut into chunks |
| WebSocket.ChunkingDoesNotMatter | runtime/net/websocket_framing.c:61-100 | For any stream, well formed or not, chunking makes no difference to what is decoded |
| WebSocket.ConsumedIsHonest | runtime/net/websocket_framing.c:94-98 | The consumed count is header plus declared length if and only if that sum fits the machine word, otherwise less than the header alone, and never more than the input |
| WebSocket.LongestLengthWraps | runtime/net/websocket_framing.c:94-98 | Ten bytes are taken for a whole frame, nine of them consumed |
| WebSocket.ReceiverIsStuck | runtime/net/websocket_framing.c:94-98 | If the sum is exactly 2^64 nothing is consumed, and no bytes that follow get a receiver past the frame |
| WebSocket.StuckFrame | runtime/net/websocket_framing.c:94-98 | Such a frame |
| WebSocketSamples.MaskIsBitwise | runtime/net/websocket_framing.c:47-48 | A masked byte differs from the payload in exactly the bits set in its byte of the key |
| WebSocketSamples.TextFrames | runtime/net/websocket_framing.c:27-55 | A five-byte text frame, unmasked and masked, as in section 5.7 of RFC 6455 |
| WebSocketSamples.PingAndPong | runtime/net/websocket_framing.c:27-55 | The ping and the masked pong of that section |
| WebSocketSamples.Fragments | runtime/net/websocket_framing.c:27-34 | The text in two fragments of that section |
| WebSocketSamples.LongHeaders | runtime/net/websocket_framing.c:31-40 | The headers of 125, 126, 256, 65535 and 65536 bytes |
| WebSocketSamples.UnmaskedKey | runtime/net/websocket_framing.c:63 | An unmasked frame decodes with a key of zeros |
| WebSocketSamples.LongestFits | runtime/net/websocket_framing.c:20-29 | The frames modelled are exactly those whose length fits the machine word with the longest header |
| WebSocketCodec.Encode | runtime/net/websocket_framing.c:17-59 | Writes the frame at the start of the buffer and nothing else, or leaves the buffer alone and answers -2 when it does not fit |
| WebSocketCodec.Decode | runtime/net/websocket_framing.c:61-100 | Answers what parsing the bytes gives |
| FastFormat.HundredthIsQuotient | runtime/io/fast_format.c:64-70 | The reciprocal multiplication is division by 100 for every 32-bit value, in 64-bit arithmetic |
| FastFormat.NumeralReadsBack | runtime/io/fast_format.c:57-84 | A numeral reads back to its number |
| FastFormat.NumeralIsCanonical | runtime/io/fast_format.c:57-84 | It consists of digits, with no leading zero |
| FastFormat.NumeralIsUnique | runtime/io/fast_format.c:57-84 | It is the only such string for its number |
| FastFormat.WordLength | runtime/io/fast_format.c:58 | A 64-bit value takes at most 20 decimal and 16 hexadecimal digits, so the scratch buffers suffice |
| FastFormat.DigitsSpelled | runtime/io/fast_format.c:57-108 | The sixteen digits, and numerals in both bases |
| FormatBuffer.TwoDigits | runtime/io/fast_format.c:71-81 | Taking digits off two at a time gives the numeral |
| FormatBuffer.Digits | runtime/io/fast_format.c:57-83 | The digits written backwards into the scratch buffer are the decimal numeral |
| FormatBuffer.Buffer.PutChar | runtime/io/fast_format.c:28-35 | Appends a character; the buffer holds the longest fitting prefix of all that was appended, terminated, and `truncated` says whether text was lost |
| FormatBuffer.Buffer.AppendMem | runtime/io/fast_format.c:37-47 | The same for a block of text |
| FormatBuffer.Buffer.AppendUnsigned | runtime/io/fast_format.c:57-84 | Appends the canonical decimal numeral |
| FormatBuffer.Buffer.AppendSigned | runtime/io/fast_format.c:86-97 | Appends sign and numeral, the smallest value included |
| FormatBuffer.SignedReadsBack | runtime/io/fast_format.c:86-97 | The text of a negative number is a minus sign before the canonical numeral of its size, any other the canonical numeral |
| FormatBuffer.Buffer.AppendHex | runtime/io/fast_format.c:99-108 | Appends the canonical hexadecimal numeral |
| Resolver.Resolver.ResolveRecursive | pkg/core/resolver.c:38-86 | Whatever the outcome the list only grows and every entry stands after all its dependencies; success means the package is listed, and is certain when every dependency can be found and the depth suffices; names stay unique if cycles bind; ends after 101 levels |
| Resolver.Resolver.Resolve | pkg/core/resolver.c:89-91 | The same for any sequence of calls, failed ones included |
| Resolver.WalksDescend | pkg/core/resolver.c:58-79 | With unique names dependencies are acyclic: every walk along them goes down the list |
| Resolver.NoneTwice | pkg/core/resolver.c:46-82 | If every cycle of names is one of which nothing can be added, no call lists a name twice |
| Resolver.ResolvedIsAcyclic | pkg/core/resolver.c:38-86 | Then every walk along dependencies goes down the list that a call leaves |
| Resolver.LayeredBinds | pkg/core/resolver.c:58-66 | That is so in a registry without cycles |
| Resolver.OneVersionBinds | pkg/core/resolver.c:52-56 | And in one with one version of each name |
| Resolver.AddedIsNeeded | pkg/core/resolver.c:52-82 | What a call that succeeds adds is a package that meets the specification of the call, or one that a package on the list depends on, in a version that meets that dependency |
| Resolver.TwiceIffOvertaken | pkg/core/resolver.c:46-82 | A run lists a name twice if and only if some call of it finds its own name listed once its dependencies are in |
| Resolver.CyclesAreNeverAdded | pkg/core/resolver.c:38-86 | No member of a dependency cycle is ever added |
| Resolver.TwoVersions | pkg/core/resolver.c:46-49 | Names can occur twice: a concrete registry whose resolution lists two versions of one package, and whose cycle has a way out |
| Resolver.Resolver.CheckConflicts | pkg/core/resolver.c:100-119 | Passes if and only if equal names carry equal versions |
| Resolver.CompareIsOrder | pkg/core/registry.c:37-50 | Comparing versions is a total order, zero exactly for equal versions |
| Resolver.CompareSays | pkg/core/registry.c:37-50 | A version is the older one if and only if major, minor or patch is smaller, the first that differs deciding, or all are equal and it is a prerelease of the other, or both are prereleases and its name stands first in the dictionary |
| Resolver.InfoIsFirst | pkg/core/registry.c:115-128 | A lookup gives the first package of that name whose version meets the specification; without one, the first of that name |
| Resolver.InfoIsNone | pkg/core/registry.c:115-128 | And none if and only if no package will do |
| Resolver.TooDeep | pkg/core/resolver.c:41-44 | A chain of 101 dependencies, none of them listed, fails and adds nothing; a depth of 100 is enough |
| DirectIo.WriteAll | runtime/io/direct_io.c:91-138 | Under any short writes, interruptions and failures the bytes emitted are a prefix of the concatenated vectors, not past any stall, and all of them on success; an error is the kernel's or comes exactly at a stall; with enough replies from a kernel that neither fails nor writes nothing, the result is an error if and only if the vectors stall |
| DirectIo.StallsIff | runtime/io/direct_io.c:100-122 | Vectors stall if and only if the last is empty or 32 empty ones stand in a row |
| DirectIo.EmptyLast | runtime/io/direct_io.c:122 | An empty last vector: a stall with everything written |
| DirectIo.EmptyMiddle | runtime/io/direct_io.c:122 | 32 empty vectors before the last: a stall with the last unwritten |
| DirectIo.OfferedIsNext | runtime/io/direct_io.c:102-108 | What is offered to the kernel is the stretch right after what is out |
| DirectIo.Advance | runtime/io/direct_io.c:123-134 | The position moves by exactly the bytes taken |
| DirectIo.NonEmptyVectors | runtime/io/direct_io.c:122 | Without empty vectors nothing stalls |
| AccessTree.WalkIsPreorder | runtime/android/a11y_bridge.c:143-152 | The walk over surfaced nodes is the preorder of the contracted tree |
| AccessTree.AnnouncedIff | runtime/android/a11y_bridge.c:105-120 | Said on the fields: an id is announced if and only if some node has it that is visible with all above it, is not hidden, and has a role, takes input, or has text |
| AccessTree.LoneNode | runtime/android/a11y_bridge.c:105-113 | So a node alone is counted as one exactly then |
| AccessTree.InOrder | runtime/android/a11y_bridge.c:143-152 | A parent comes before its children and the first child before the second, and a hidden child stands for its own children |
| AccessTree.ChildrenAreVirtualChildren | runtime/android/a11y_bridge.c:331-351 | The children reported for a node are its children in the contracted tree, in order |
| AccessTree.ChildOfItsParent | runtime/android/a11y_bridge.c:331-351 | With unique ids, a surfaced node is among the children of its nearest surfaced ancestor if and only if every node strictly between them is visible |
| AccessTree.ParentListsChild | runtime/android/a11y_bridge.c:320-369 | So the parent the bridge names is found by its id, and lists the node exactly then |
| AccessTree.NodeParent | runtime/android/a11y_bridge.c:320-326 | The id of the nearest surfaced ancestor of the node with that id, or -1 |
| AccessTree.SurfacedAncestor | runtime/android/a11y_bridge.c:134-139 | The first surfaced node on the way up |
| AccessTree.FindById | runtime/android/a11y_bridge.c:123-131 | The first node with the id in preorder |
| AccessTree.FoundAt | runtime/android/a11y_bridge.c:123-131 | With unique ids, the node that has it |
| AccessTree.NotInView | runtime/android/a11y_bridge.c:320-326 | Below an invisible node it is not: a concrete tree |
| AccessTree.NodeIdAt | runtime/android/a11y_bridge.c:181-187 | The id at an index is that of the preorder, or -1; without a tree, the fallback root |
| AccessTree.NodeCount | runtime/android/a11y_bridge.c:162-167 | The count is the length of the preorder; one without a tree |
| AccessTree.ChildAt | runtime/android/a11y_bridge.c:362-369 | The child at an index of the contracted tree, for the node with that id, or -1 |
| AccessTree.ChildCount | runtime/android/a11y_bridge.c:353-360 | The number of children in the contracted tree, for the node with that id |

## Left out

- Weak memory: every access is sequentially consistent, and fences are comments.
- A steal that overlaps a grow with buffer and capacity loaded by two reads: the deque model loads the pair at once, because nothing is claimed about the torn pair.
- The thread-pool worker loop, waiting and the pending counter, which let several workers call the single-consumer dequeue.
- CycleCollection.CycleCollector.ArcCycleCollect: does not drop the weak share or free the block: headers stay readable, as if a weak reference held every block.
- CycleCollection.CycleCollector.FinalizeZeroStrong: likewise, and does not zero the payload.
- CycleCollection.CycleCollector.RunDestructor: a destructor releases exactly the fields that the scanner visits, in the scanner's order, and does nothing else.
- The threshold and the statistics of the cycle collector.
- The zeroing of the payload after finalization has dropped its share: it is a step, but what it touches is not modelled.
- ArcLifecycle.CountsAreHandles: the program is one in which each thread uses only handles it owns; the color test for a finalized object is not part of it.
- Protocols as classes: the lock-free protocols are state machines on values, because their steps interleave; the channel and the byte ring also have classes whose methods are those steps or calls.
- 64-bit wrap-around of the log queue's positions and of the deque's indices, which count up from zero.
- The log queue's shutdown, whose last pass takes at most one batch, and the formatting of its lines; the timestamp and level texts.
- Unbuffered channels: with capacity zero the send path does not deliver.
- ChannelProtocol.ReceivedIsPrefixOfSent: a message that is itself NULL cannot be told from the end of the channel by its receiver; the model keeps the two results apart.
- MpscQueue.NullMeansEmpty: likewise for a value that is NULL.
- Formatting of telemetry lines, which end up cut at 256 characters; the model writes events.
- Floating-point rounding in the inverse, the vectorized paths, determinants and statistics.
- Failing allocation, except where it is an argument of the model (`MarkSweep.Collector.Alloc`, `MarkSweep.Collector.AddRoot`, `ArcCascade.ArcHeap.Alloc`, the deque's grow).
- Reuse of freed addresses in the mark-sweep model, the fixed type registry and incremental mode.
- A root that the collector has freed: the code does not check for one when a root is added, and a collection with one is not modelled.
- The two-digit table of the number formatter is given by a formula, not as a literal; floating-point formatting and the printf-like front end.
- An encoder call with a payload length but no payload pointer, which leaves the payload bytes as they were.
- Resolver.TwiceIffOvertaken: the condition follows the calls of the run; the one on the registry alone, `Resolver.NoneTwice`, is sufficient.
- Version specifications: whether a version satisfies one is a parameter of the resolver model.
- The scene tree's sibling pointers: the accessibility model is on trees as values, a node being the way down to it; ids of 2^31 and above, which the bridge hands out as negative numbers.
- WebSocketCodec.Encode: payloads within 14 bytes of 2^64, for which the sum of the sizes starts over.
- The region allocator: bump offsets, the block list and the destructor stack would add only easy members.
- The thread-local heap, the manifest's text form, the scheduler, sockets, rendering and platform code.
