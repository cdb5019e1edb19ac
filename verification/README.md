# Verified model of the gradle-fileevents watchers

gradle-fileevents watches directories for Gradle. On each platform a native server keeps a map of
watched paths in step with the operating system, which acts on its own; a Java layer pushes the
server's reports into a bounded queue that the user empties. This project models those parts in
Dafny and proves what they keep over all their runs.

`dafny verify dfyconfig.toml` checks everything.

## The parts

**Linux: a registry next to the inotify kernel.** `InotifyKernel` is the kernel as an adversary: it
hands out watch descriptors, queues events, removes watches of deleted directories and may overflow.
`LinuxRegistry` holds the server's three maps as a value; `LinuxSystem` lets both run side by side,
one server call, one handled event or one kernel action at a time. The main invariant, `Conserved`,
covers *all* runs, with overflow included: a history variable `lost` in the kernel names the
descriptors whose `IN_IGNORED` was dropped. From it follow the two-phase cancellation handshake
(`HandshakeComplete`, `DrainSettles`, `SettledIffNothingLost`), the unreachability of the "unknown
watch descriptor" branch (`NoUnknownDescriptor`) and the absence of stale reports (`NoStaleReports`).
`LinuxBatch` says what the calls on many paths do. `LinuxServer` has the server's classes; every
method is proved to take exactly the step the system model prescribes. `InotifyRecords` and
`LinuxDrain` go down to the bytes: the records of a read, the walk over them and the loop whose
`unsigned int available` wraps. `LinuxRunLoop` adds `processQueues` and `runLoop`. While these loops
run, other threads register, unregister and drop paths and the kernel acts: before every poll and
read, between a read and the moment the loop gets `mutationMutex`, and, as far as the mutex allows,
before every single event. `LinuxHistory` records all of it as one run of the system model from the
construction of the server on, with the events that are read but not yet handled counted as queued.
So the conservation invariant, the attribution of events and the absence of stale reports hold for
the byte-level loops, whose callbacks are exactly those of the run's handling steps and the failures
of the drain loop. `LinuxDelivery` feeds these callbacks into the Java queue and states the end-to-end
result: what is handled is seen or an overflow stands in its place, and what is seen is not stale.

**Windows: watch points with overlapped I/O.** `WindowsWatchPoint` is one watch point with its
status, handle and requests; `WindowsServer` is the map of them, registration, the cancel loop at
shutdown, `stopWatchingMovedPaths` and the destructors, first as a state machine over whole runs and
then as classes. `WindowsNotify` walks the linked notification records, including the scan for a zero
unit that turning a name into a string takes; `WindowsPaths` converts long paths.

**Java: the event queue and the life of a watcher.** `EventQueue` interleaves the micro-steps of the
callback (`offer` and `clear` are atomic) with the consumer's polls, as a state machine and as classes.
`WatcherLifecycle` composes it with the native run loop, the Java thread and a thread that calls
`shutdown` and `awaitTermination`. `ShutdownPromise` is about the documentation of `shutdown()`.

**Hand-offs.** `CommandRendezvous` is the Windows `Command`; `AppleServer` the macOS dispatch queue,
event queue and poison pill. `WatchedSet` is about the map updates that macOS and Windows share.

## Where the code and its documentation differ

The model follows the code.

- `shutdown()` is documented with "No more events will arrive after this method returns".
  `ShutdownPromise.EventsArriveAfterShutdown` gives a run in which one does, and
  `ShutdownPromise.SilentIffFinished` says when the promise holds: exactly in the states in which the
  watcher has died or has already queued its termination event.
- `stopWatching` is documented to return true "if the paths were being watched and are no longer".
  A path given twice makes it return false (`LinuxBatch.RepeatedPathIsAnsweredFalse`), and on Linux so
  does a path whose directory has just been deleted (`LinuxBatch.DeletedPathIsAnsweredFalse`). On Windows it returns true for entries that have
  stopped being watched (`WindowsServer.FinishedPathIsAnsweredTrue`, `WindowsServer.DroppedPathIsAnsweredTrue`).
  The exact conditions are `LinuxBatch.AnswerAsDocumentedIff`, `WindowsServer.AnswerAsDocumentedIff` and, for
  macOS, `WatchedSet.AnswerAsDocumentedIff`.
- The queue is documented to need room for two elements. That the latest failure or termination event gets into the
  queue needs exactly that (`EventQueue.DeliveryIffCapacity`); the absence of silent loss only needs room for
  one (`EventQueue.NoSilentLossIffCapacity`).
- Both waits on condition variables lack a predicate. `CommandRendezvous.AnswersSoundIffNoSpuriousWakeups`
  and `WatcherLifecycle.NativeAwaitSoundIffNoSpuriousWakeups` say that they are right exactly as long
  as there are no spurious wakeups.
- Names in the Windows notification buffer have a length and no terminator, but `wstring(info->FileName, 0, n)`
  scans for a zero unit first. The walk stays in the buffer exactly if one stands behind every name at an even
  offset (`WindowsNotify.WalkBuffer`). A following record supplies it, so only what is behind the last name
  matters (`WindowsNotify.OnlyTheLastNameMatters`); a completion that ends with a name at the end of the buffer
  is read past it (`WindowsNotify.NameAtTheEndIsReadPast`).
- On Windows a path can stay registered that nobody listens for, and that cannot be registered again until it
  is unregistered: after an error of a completion (`WindowsServer.ErrorCanStrandAPath`), and after a completion
  other than an abort of a path that was cancelled as moved (`WindowsServer.CancelCanStrandAPath`).
  `WindowsServer.StrandedIff` and `WindowsServer.StrandedWhileRunningIff` say exactly when.
- A Windows watch point can be destroyed while its request is still outstanding;
  `WindowsWatchPoint.HandleClosedExactlyOnce` says exactly when, `WindowsServer.UnregisterCanLeaveARequest` is a run.
- A Windows watch point whose constructor fails in `resolveFinalPath` leaves its handle open
  (`WindowsWatchPoint.ConstructOk`).
- After a kernel queue overflow on Linux a path can stay registered although its watch is gone, and
  can then not be registered again (`LinuxSystem.OverflowCanStrandAPath`). `LinuxSystem.DrainLeavesLiveOrLost`
  says which paths.

## Assumptions

- inotify hands out fresh descriptors in increasing order; `IN_IGNORED` is the last event of a watch and
  is queued exactly once, unless the queue is full. `inotify_rm_watch` fails only with `EINVAL`, except in
  `LinuxRegistry.IndexAlwaysOk`, where answers and events are arbitrary. The answers of `lstat` and
  `inotify_add_watch` for one path are unrelated.
- Server calls on Linux are atomic, and so is handling one event. `stopWatchingMovedPaths` takes no lock on
  Linux and runs outside the run loop on Windows; it is modelled as one atomic call with the file system fixed,
  and beside the Linux run loop as turns that are atomic each. Watch descriptors fit a positive `int`.
- A read from inotify returns whole events. Buffers are little-endian, and shorter than 2^31 bytes, so that
  `int index` does not overflow.
- The Windows state machines take completions whose names are read within the buffer; the class says when that is.
- String conversion, logging and the Java callbacks do not throw.
- Only the watcher adds to the Java queue, its callbacks come from one thread, and that thread sees the
  `shutdown` flag as soon as it is set.
- No timeout of a `Command`. No spurious wakeups where a lemma requires `NoSpuriousWakeup`.
- On macOS no stream is created after shutdown has begun, and the run loop's handlers do not throw.

## Model

| member | source | states |
|---|---|---|
| LinuxRegistry.IndexAlwaysOk | src/main/cpp/linux_fsnotifier.cpp:220-230 | for arbitrary kernel answers and events, `watchRoots[wd] == p` exactly when `watchPoints[p]` has descriptor `wd`, so `watchPoints.at` never fails |
| LinuxRegistry.ApplyKeepsIndex | src/main/cpp/linux_fsnotifier.cpp:283-331 | each single operation keeps the two maps mutually inverse |
| LinuxRegistry.EveryEventIsReported | src/main/cpp/linux_fsnotifier.cpp:181-264 | an ordinary event of a listening root is reported exactly once while the server goes on, the root itself included; kind by the bits of the mask, path by root, slash and name; every other event is silent, but an overflow, which is reported once for each watched path |
| LinuxRegistry.RegisterMeans | src/main/cpp/linux_fsnotifier.cpp:283-310 | each refusal of `registerPath` has its own answer of `lstat` or the kernel and changes nothing; with none of them the path is registered with the inode and descriptor it was given |
| LinuxRegistry.UnregisterMeans | src/main/cpp/linux_fsnotifier.cpp:312-331 | for every answer of `inotify_rm_watch`: a listening entry is moved to the recently unregistered ones, or stays cancelled if the call throws; a cancelled one stays |
| InotifyKernel.Dequeue | src/main/cpp/linux_fsnotifier.cpp:208-230 | taking the first event keeps `IN_IGNORED` last for every other descriptor, and after a descriptor's own `IN_IGNORED` none of its events is left |
| LinuxSystem.EndWatchConserves | src/main/cpp/linux_fsnotifier.cpp:37-38 | a watch going away, cancelled or deleted, keeps the conservation invariant |
| LinuxSystem.RegisterConserves | src/main/cpp/linux_fsnotifier.cpp:283-310 | registering keeps it, for new, aliased and refused watches |
| LinuxSystem.CancelConserves | src/main/cpp/linux_fsnotifier.cpp:32-48 | cancelling a listening watch point keeps it and leaves the descriptor dead |
| LinuxSystem.UnregisterConserves | src/main/cpp/linux_fsnotifier.cpp:312-331 | unregistering keeps it |
| LinuxSystem.CheckMovedConserves | src/main/cpp/linux_fsnotifier.cpp:340-363 | one turn of `stopWatchingMovedPaths` keeps it |
| LinuxSystem.HandleConserves | src/main/cpp/linux_fsnotifier.cpp:181-265 | handling the next event keeps it |
| LinuxSystem.NextConserves | src/main/cpp/linux_fsnotifier.cpp:181-365 | every step of server or kernel keeps it, overflow included |
| LinuxSystem.RunConserves | src/main/cpp/linux_fsnotifier.cpp:181-365 | it holds in every state of every run |
| LinuxSystem.NoUnknownDescriptor | src/main/cpp/linux_fsnotifier.cpp:200-204 | the next event always belongs to a watched or recently unregistered descriptor: the "unknown watch descriptor" branch is unreachable |
| LinuxSystem.HandshakeComplete | src/main/cpp/linux_fsnotifier.cpp:200-230 | without a dropped `IN_IGNORED`, a descriptor is in one of the two maps at most; it is live with no `IN_IGNORED` queued, or dead with exactly one, as its last event; cancelled and recently unregistered ones are dead |
| LinuxSystem.SettledIffNothingLost | src/main/cpp/linux_fsnotifier.cpp:208-230 | with an empty event queue, no cancellation is half done exactly when no `IN_IGNORED` of a known descriptor was dropped |
| LinuxSystem.DrainKeepsLive | src/main/cpp/linux_fsnotifier.cpp:223-230 | handling all queued events removes no entry whose watch is live, or whose `IN_IGNORED` was dropped, and changes none |
| LinuxSystem.DrainLeavesLiveOrLost | src/main/cpp/linux_fsnotifier.cpp:191-230 | in any run, overflow included, handling what is queued leaves exactly the entries whose watch is live or whose `IN_IGNORED` was dropped; the latter have no watch and cannot be registered again |
| LinuxSystem.DrainSettles | src/main/cpp/linux_fsnotifier.cpp:208-230 | in any run without dropped `IN_IGNORED`, handling what is queued completes all cancellations and leaves exactly the entries whose watch is live |
| LinuxSystem.OverflowCanStrandAPath | src/main/cpp/linux_fsnotifier.cpp:191-198 | a run with an overflow after which a path stays registered without a watch and cannot be registered again |
| LinuxSystem.NewlyListening | src/main/cpp/linux_fsnotifier.cpp:306-309 | a path starts to listen under a descriptor only by the registration that creates the descriptor |
| LinuxSystem.ListeningHasAnOrigin | src/main/cpp/linux_fsnotifier.cpp:306-309 | a listening entry goes back to one registration that created its descriptor, before all events of that descriptor |
| LinuxSystem.QueuedWasEmitted | src/main/cpp/linux_fsnotifier.cpp:181-183 | an ordinary event in the queue was generated by an earlier step of the run |
| LinuxSystem.NoStaleReports | src/main/cpp/linux_fsnotifier.cpp:232-264 | a reported change or unknown event names a root that is listening under the event's descriptor, or a path below it, and was generated after the latest registration of that root |
| LinuxBatch.RegisterAllAddsAPrefix | src/main/cpp/linux_fsnotifier.cpp:267-272 | `registerPaths` adds exactly the paths before the first failing one, new and distinct, with the inode `lstat` gave, and touches nothing else |
| LinuxBatch.EndsForAReason | src/main/cpp/linux_fsnotifier.cpp:267-272 | `registerPaths` stops at a path only if registering that path fails, and with that failure |
| LinuxBatch.UnregisterOne | src/main/cpp/linux_fsnotifier.cpp:312-331 | unregistering removes the entry and the kernel's watch exactly if the entry is listening, and does not change the fate of other paths |
| LinuxBatch.UnregisterAllPoints | src/main/cpp/linux_fsnotifier.cpp:274-281 | `unregisterPaths` removes exactly the listening paths of the input; cancelled entries stay |
| LinuxBatch.UnregisterAllSucceeds | src/main/cpp/linux_fsnotifier.cpp:274-281 | it answers true exactly when the paths are distinct, listening and live in the kernel |
| LinuxBatch.UnregisterAllLive | src/main/cpp/linux_fsnotifier.cpp:274-281 | the kernel loses exactly the watches of those paths |
| LinuxBatch.UnregisterAllRemoves | src/main/cpp/linux_fsnotifier.cpp:274-331 | the three together |
| LinuxBatch.AnswerAsDocumentedIff | src/main/java/org/gradle/fileevents/FileWatcher.java:31-37 | the answer of `stopWatching` means what is documented exactly when some path was not watched, or no path is repeated and all watches are live |
| LinuxBatch.RepeatedPathIsAnsweredFalse | src/main/cpp/linux_fsnotifier.cpp:274-281 | right after its registration, a path given twice is answered with false though it was watched and is no longer |
| LinuxBatch.DeletedPathIsAnsweredFalse | src/main/cpp/linux_fsnotifier.cpp:312-331 | so is a registered path whose directory has just been deleted |
| LinuxBatch.StopMovedKeeps | src/main/cpp/linux_fsnotifier.cpp:333-365 | the call changes statuses only: a listening entry stays listening exactly if it is not asked about or `lstat` still finds its inode |
| LinuxBatch.DroppedAreNotListening | src/main/cpp/linux_fsnotifier.cpp:333-365 | the dropped list is the input, in order and with multiplicity, filtered to the paths not listening afterwards |
| LinuxBatch.StopWatchingMovedPaths | src/main/cpp/linux_fsnotifier.cpp:333-365 | that, and kept paths match their registered inode, the keys do not change, and asking again gives the same answer and changes nothing |
| LinuxServer.Inotify.AddWatch | src/main/cpp/linux_fsnotifier.cpp:293 | a new watch gets the next descriptor; other answers leave the kernel as it is |
| LinuxServer.Inotify.RmWatch | src/main/cpp/linux_fsnotifier.cpp:37-38 | a live watch dies and queues `IN_IGNORED`; otherwise `EINVAL` |
| LinuxServer.WatchPoint.Cancel | src/main/cpp/linux_fsnotifier.cpp:32-48 | the status is CANCELLED afterwards; the kernel is asked exactly if it was LISTENING, and the result tells success, `EINVAL` and an earlier cancel apart |
| LinuxServer.Server.RegisterPath | src/main/cpp/linux_fsnotifier.cpp:283-310 | takes exactly the registration step of the system model, with its error cases |
| LinuxServer.Server.UnregisterPath | src/main/cpp/linux_fsnotifier.cpp:312-331 | takes exactly the unregistration step, and answers true exactly for a listening path with a live watch |
| LinuxServer.Server.RegisterPaths | src/main/cpp/linux_fsnotifier.cpp:267-272 | the loop computes `RegisterAll`, about which `RegisterAllAddsAPrefix` is proved |
| LinuxServer.Server.UnregisterPaths | src/main/cpp/linux_fsnotifier.cpp:274-281 | the loop computes `UnregisterAll`, about which `UnregisterAllRemoves` is proved |
| LinuxServer.Server.StopWatchingMovedPaths | src/main/cpp/linux_fsnotifier.cpp:333-365 | the loop computes `StopMoved`, about which `LinuxBatch.StopWatchingMovedPaths` is proved |
| LinuxServer.Server.HandleEvent | src/main/cpp/linux_fsnotifier.cpp:181-265 | changes the maps as the handling step does and makes exactly the callbacks the registry prescribes, about which `EveryEventIsReported` is proved |
| LinuxServer.Server.ReportOverflowEverywhere | src/main/cpp/linux_fsnotifier.cpp:192-198 | reports one overflow for every watched path, each once, in some order |
| InotifyRecords.ReadRecord | src/main/cpp/linux_fsnotifier.cpp:166-173 | reading at the start of an encoded record gives back its event, and the next one starts right behind it |
| InotifyRecords.CStringStopsAtNul | src/main/cpp/linux_fsnotifier.cpp:183-185 | the NUL padding never becomes part of the name |
| InotifyRecords.EncodingIsUnambiguous | src/main/cpp/linux_fsnotifier.cpp:166-173 | two lists of events laid out as the same bytes are the same list |
| InotifyRecords.KernelRecordsOk | src/main/cpp/linux_fsnotifier.cpp:141-173 | what the kernel lays out decodes to the events read, and its length is what FIONREAD counts |
| LinuxDrain.ReadCountPositive | src/main/cpp/linux_fsnotifier.cpp:14-14 | a 16 KB buffer always has room for the next event |
| LinuxDrain.NextRecord | src/main/cpp/linux_fsnotifier.cpp:168-171 | one turn of the walk reads the next event and lands on the next record, inside the buffer |
| LinuxDrain.HandleBuffer | src/main/cpp/linux_fsnotifier.cpp:160-176 | the inner loop handles exactly the events laid out in the buffer, once and in order, and stops at `bytesRead`, whatever the kernel and `stopWatchingMovedPaths` do before each of them |
| LinuxDrain.Read | src/main/cpp/linux_fsnotifier.cpp:146 | a read takes whole events from the head of the kernel's queue |
| LinuxDrain.WrapSub | src/main/cpp/linux_fsnotifier.cpp:177 | wrapping subtractions from the 32-bit counter add up modulo 2^32 |
| LinuxDrain.CountedDownMeansHandled | src/main/cpp/linux_fsnotifier.cpp:145-177 | when the counter reaches zero, at least the counted bytes have been handled, though it may have wrapped in between |
| LinuxDrain.ActAll | src/main/cpp/linux_fsnotifier.cpp:267-365 | the calls of other threads and the actions of the kernel, each that is possible, are steps of the system model, with the unread events still in front of the queue |
| LinuxDrain.TrackedConserves | src/main/cpp/linux_fsnotifier.cpp:141-179 | at every point of the loops the conservation invariant holds for the server and the kernel, with the unread events counted as queued |
| LinuxServer.Server.Act | src/main/cpp/linux_fsnotifier.cpp:267-365 | a call by another thread, or an action of the kernel, takes exactly its step of the system model, and none while `mutationMutex` forbids it |
| LinuxDrain.HandleEvents | src/main/cpp/linux_fsnotifier.cpp:141-179 | for any FIONREAD answer, read sizes, arrivals and calls by other threads between reads, between a read and the lock, and beside each event: the loop ends and extends the run of the system model; unless a read failed, all that was queued when FIONREAD counted it has been handled, first and in order |
| LinuxHistory.UnreadStep | src/main/cpp/linux_fsnotifier.cpp:146-163 | a step by others commutes with putting the unread events back in front of the queue |
| LinuxHistory.UnreadHandle | src/main/cpp/linux_fsnotifier.cpp:166-172 | handling the next event of the read buffer is handling the first queued event of the system model |
| LinuxHistory.ActTaken | src/main/cpp/linux_fsnotifier.cpp:267-365 | a history goes on with a step by others, with events still unread |
| LinuxHistory.EventHandled | src/main/cpp/linux_fsnotifier.cpp:160-176 | a history goes on with the event that is handled and the callbacks it makes |
| LinuxHistory.HistoryConserves | src/main/cpp/linux_fsnotifier.cpp:141-365 | every history ends in a state with the conservation invariant |
| LinuxHistory.FirstInFirstOut | src/main/cpp/linux_fsnotifier.cpp:141-179 | every event that ever arrived has been handled, exactly once and in order of arrival, or is still queued or unread |
| LinuxHistory.QueuedComesNext | src/main/cpp/linux_fsnotifier.cpp:141-179 | what is queued at some point is what is handled next |
| LinuxHistory.CallbacksAreNotStale | src/main/cpp/linux_fsnotifier.cpp:232-264 | every callback ever made, however the threads interleave, names a root that listens under its event's descriptor, or a path below it, with an event generated after the latest registration |
| LinuxHistory.HandledAreKnown | src/main/cpp/linux_fsnotifier.cpp:200-204 | no event handled by the loops takes the "unknown watch descriptor" branch |
| LinuxHistory.OnlyTerminateStepSetsTheFlag | src/main/cpp/linux_fsnotifier.cpp:125-130 | nothing but the shutdown notification sets `shouldTerminate` |
| LinuxHistory.SilentOnceTerminating | src/main/cpp/linux_fsnotifier.cpp:245-249 | no change or unknown event is reported after the step that sets `shouldTerminate`, in any history |
| LinuxHistory.SomethingIsReported | src/main/cpp/linux_fsnotifier.cpp:260-264 | a history in which a path is registered and a change below it is reported |
| LinuxDelivery.HandledIsSeenOrOverflowed | src/main/java/org/gradle/fileevents/internal/AbstractFileEventFunctions.java:77-139 | for every history and every interleaving of queue and consumer: every ordinary event handled for a listening root before the termination is visible as a report of its kind and path, or an overflow event stands exactly in its gap |
| LinuxDelivery.LaterEventLaterCall | src/main/cpp/linux_fsnotifier.cpp:166-172 | events handled later are reported by later calls, so they are seen in the order of handling |
| LinuxDelivery.SeenIsNotStale | src/main/cpp/linux_fsnotifier.cpp:232-264 | every change or unknown event the consumer sees is the report of a handled event, for a root listening under its descriptor, generated after the latest registration of that root |
| LinuxRunLoop.ProcessQueues | src/main/cpp/linux_fsnotifier.cpp:113-139 | the shutdown notification wins over queued events and then only sets `shouldTerminate`; otherwise a readable descriptor is always drained, and with FIONREAD exact and no failing read all that was queued is handled; a failing drain is reported by one failure call, the last, and survived, a failing poll is not |
| LinuxRunLoop.RunRound | src/main/cpp/linux_fsnotifier.cpp:105-107 | the same for a round in which others have acted before the poll: what was queued at the poll is handled by the end of the round |
| LinuxRunLoop.RunLoop | src/main/cpp/linux_fsnotifier.cpp:102-111 | ends in the first round with a shutdown notification or a failing poll; in every round before it that can drain, what was queued at its poll has been handled by its end; all it and the other threads did is one run of the system model, whose last step is the one that sets `shouldTerminate`, and each failed drain has been reported once |
| LinuxRunLoop.NewServer | src/main/cpp/linux_fsnotifier.cpp:87-93 | a new server starts with the empty history, so the results about histories apply to it |
| WindowsPaths.ConvertToLongPathIfNeeded | src/main/cpp/win_fsnotifier.cpp:55-79 | the in-place edits compute `LongPath`, about which the next three lemmas are proved |
| WindowsPaths.PlainOfLong | src/main/cpp/win_fsnotifier.cpp:55-79 | the converted path stands for the original one: the conversion has an inverse on paths not in `\\?\` form |
| WindowsPaths.LongPathOnce | src/main/cpp/win_fsnotifier.cpp:55-79 | converting twice is converting once; a path grows by 0, 4 or 6 units, and changes exactly if it is long, not yet converted, and local or UNC |
| WindowsPaths.CollisionsAreConversions | src/main/cpp/win_fsnotifier.cpp:55-79 | two paths convert to the same one exactly if they are equal or one is the conversion of the other |
| WindowsPaths.ShortPathsStay | src/main/cpp/win_fsnotifier.cpp:55-67 | paths of up to 240 units, and those in long form, are not converted |
| WindowsPaths.DrivePathsGrow | src/main/cpp/win_fsnotifier.cpp:69-71 | from 241 units on drive paths of both cases get the long prefix, and no other first unit makes one |
| WindowsPaths.SharePathsGrow | src/main/cpp/win_fsnotifier.cpp:72-76 | from 241 units on share paths get the UNC prefix for their two backslashes |
| WindowsNotify.ReadName | src/main/cpp/win_fsnotifier.cpp:309 | the scan for the end of a name stays in the buffer exactly if a zero unit follows at an even offset; then the first units it finds are the name |
| WindowsNotify.ReadInfo | src/main/cpp/win_fsnotifier.cpp:308-313 | the fields of a record read back as they were laid out, the name exactly if a zero unit follows it in the buffer |
| WindowsNotify.ReadFirst | src/main/cpp/win_fsnotifier.cpp:284-293 | a buffer starts with its first record, whose name can be read exactly if a zero unit stands behind it, and NextEntryOffset leads to the remaining records, or is 0 at the last |
| WindowsNotify.ReportMeans | src/main/cpp/win_fsnotifier.cpp:308-336 | one report for every record by its action code, none for a modified directory; its path is the root, or root, backslash and name |
| WindowsNotify.HandleEvent | src/main/cpp/win_fsnotifier.cpp:308-336 | reads the name if that does not leave the buffer, builds the changed path by insertions at the front, and reports what the record calls for |
| WindowsNotify.WalkBuffer | src/main/cpp/win_fsnotifier.cpp:284-293 | the walk stays in the buffer exactly if a zero unit stands behind every name; then it visits every record once in order, ends, and reports root or root + `\` + name for each |
| WindowsNotify.OnlyTheLastNameMatters | src/main/cpp/win_fsnotifier.cpp:284-293 | with even offsets below 64 KB every following record ends the name before it, so the walk stays in the buffer exactly if a zero unit stands behind the last name |
| WindowsNotify.NameAtTheEndIsReadPast | src/main/cpp/win_fsnotifier.cpp:309 | for every record, a buffer that ends with its name is read past its end |
| WindowsWatchPoint.ConstructOk | src/main/cpp/win_fsnotifier.cpp:105-137 | a constructed watch point listens with one request; a failed construction has closed the handle it opened except when the final path cannot be resolved |
| WindowsWatchPoint.CancelMeans | src/main/cpp/win_fsnotifier.cpp:139-158 | only a listening point is cancelled; it is cancelled, closed quietly or closed with an exception by the answer of CancelIoEx |
| WindowsWatchPoint.ListenMeans | src/main/cpp/win_fsnotifier.cpp:182-205 | listening starts one more request, or closes and tells a missing directory from other errors |
| WindowsWatchPoint.NextOk | src/main/cpp/win_fsnotifier.cpp:139-237 | every completion, delivery and cancel keeps the watch-point invariant, and FINISHED is never left |
| WindowsWatchPoint.LifeOk | src/main/cpp/win_fsnotifier.cpp:139-237 | at most one request at any time; LISTENING means one, NOT_LISTENING none; the handle is closed, once, exactly in FINISHED |
| WindowsWatchPoint.FinishedForever | src/main/cpp/win_fsnotifier.cpp:207-221 | a finished watch point stays finished and is closed only once |
| WindowsWatchPoint.BufferIsIdleWhenUsed | src/main/cpp/win_fsnotifier.cpp:223-306 | the buffer is walked, and a new request made, only while no request uses it; a request is outstanding after a delivery exactly if listening again succeeded |
| WindowsWatchPoint.HandleClosedExactlyOnce | src/main/cpp/win_fsnotifier.cpp:160-168 | whatever happened before and happens during its sleep, after the destructor CloseHandle has been called exactly once, also when its cancel throws; a request is outstanding afterwards exactly if there was one and its completion is not delivered during the sleep |
| WindowsWatchPoint.RequestCanOutliveItsWatchPoint | src/main/cpp/win_fsnotifier.cpp:160-168 | a cancelled request survives its watch point unless its completion is delivered during the sleep |
| WindowsServer.UnregisterAllRemoves | src/main/cpp/win_fsnotifier.cpp:433-441 | all given paths are gone, one watch point has been destroyed for each that was watched, and the answer is true exactly when the paths were distinct and all had an entry |
| WindowsServer.RegisterMeans | src/main/cpp/win_fsnotifier.cpp:443-456 | an unfinished entry is refused and nothing changes; otherwise the path is registered and listens exactly if its construction succeeds, and a finished entry has been destroyed |
| WindowsServer.CompletionReports | src/main/cpp/win_fsnotifier.cpp:223-306 | aborts and completions of what does not listen are silent; a successful one in place reports an overflow exactly if it has no bytes, and its records otherwise; whatever no longer listens while the server runs is reported last, as removed if its directory is gone or moved and as a failure if not |
| WindowsServer.AnswerAsDocumentedIff | src/main/java/org/gradle/fileevents/FileWatcher.java:31-37 | the answer means what is documented exactly if no path is repeated when all were listening, and all were listening when none is repeated and all have an entry |
| WindowsServer.FinishedPathIsAnsweredTrue | src/main/cpp/win_fsnotifier.cpp:458-465 | a run after which a finished path, reported as removed, is answered with true |
| WindowsServer.DroppedPathIsAnsweredTrue | src/main/cpp/win_fsnotifier.cpp:458-465 | a run after which a path that was dropped as moved is answered with true |
| WindowsServer.UnregisterCanLeaveARequest | src/main/cpp/win_fsnotifier.cpp:458-465 | a run that destroys a watch point whose request is still in flight |
| WindowsServer.StrandedIffStuck | src/main/cpp/win_fsnotifier.cpp:223-237 | among the entries that are not finished, the stranded ones, which neither listen nor have a request, are exactly those that no completion or cancel changes any more |
| WindowsServer.StrandedAfterIff | src/main/cpp/win_fsnotifier.cpp:223-269 | a step leaves a path stranded exactly if it handles an error, a completion while terminating, or a completion other than an abort after a cancel, or if the path was stranded and is not unregistered |
| WindowsServer.StrandedIff | src/main/cpp/win_fsnotifier.cpp:223-269 | in every run a path is stranded exactly if some such step stranded it and it has not been unregistered since; then its handle is open, no request is outstanding and it cannot be registered |
| WindowsServer.StrandedWhileRunningIff | src/main/cpp/win_fsnotifier.cpp:223-256 | before the shutdown a path is stranded exactly if a step that handled an error, or a completion other than an abort after a cancel, stranded it and it has not been unregistered since |
| WindowsServer.ErrorCanStrandAPath | src/main/cpp/win_fsnotifier.cpp:247-256 | a run for every error but an abort and a refusal for a directory that is gone |
| WindowsServer.CancelCanStrandAPath | src/main/cpp/win_fsnotifier.cpp:223-234 | a run for every completion other than an abort, success included, of a path that was cancelled before |
| WindowsServer.RunOk | src/main/cpp/win_fsnotifier.cpp:371-465 | in every run all watch points are in order and every destroyed one has had its handle closed exactly once |
| WindowsServer.NoNewListeners | src/main/cpp/win_fsnotifier.cpp:265-269 | once terminating, only a registration makes a watch point listen |
| WindowsServer.ShutdownQuiescence | src/main/cpp/win_fsnotifier.cpp:371-407 | after the cancel loop none is listening, whatever the cancels answered, and none listens again while completions drain |
| WindowsServer.ShutdownHappens | src/main/cpp/win_fsnotifier.cpp:364-391 | a run in which the shutdown cancels a listening watch point and its handle is closed when the abort arrives |
| WindowsServer.CancelAllMeans | src/main/cpp/win_fsnotifier.cpp:376-388 | the cancel loop cancels or closes what listens, by the answers, and touches nothing else |
| WindowsServer.DroppedAreNotListening | src/main/cpp/win_fsnotifier.cpp:467-485 | after `stopWatchingMovedPaths` exactly the listeners that have not moved still listen, and the others are untouched |
| WindowsServer.WatchPoint.Open | src/main/cpp/win_fsnotifier.cpp:105-137 | constructs as the model prescribes |
| WindowsServer.WatchPoint.Listen | src/main/cpp/win_fsnotifier.cpp:182-205 | starts a request or closes, with the three results told apart |
| WindowsServer.WatchPoint.Cancel | src/main/cpp/win_fsnotifier.cpp:139-158 | cancels as the model prescribes, with the result |
| WindowsServer.WatchPoint.Close | src/main/cpp/win_fsnotifier.cpp:207-221 | closes the handle unless it was closed before |
| WindowsServer.WatchPoint.HandleEventsInBuffer | src/main/cpp/win_fsnotifier.cpp:223-237 | takes the completion step of the watch-point model and makes the reports about which `CompletionReports` is proved, unless a name is read past the buffer, of which it says exactly when |
| WindowsServer.WatchPoint.HandleEvents | src/main/cpp/win_fsnotifier.cpp:243-306 | the same for the server's part |
| WindowsServer.Server.RegisterPath | src/main/cpp/win_fsnotifier.cpp:443-456 | a finished watch point gives way, any other is in the way |
| WindowsServer.Server.UnregisterPaths | src/main/cpp/win_fsnotifier.cpp:433-465 | the loop computes `UnregisterAll`, about which `UnregisterAllRemoves` is proved |
| WindowsServer.Server.CancelRemaining | src/main/cpp/win_fsnotifier.cpp:376-388 | the loop cancels every listening watch point, in any order and past cancels that throw |
| WindowsServer.Server.StopWatchingMovedPaths | src/main/cpp/win_fsnotifier.cpp:467-485 | drops each moved, unfinished watch point once and cancels exactly the dropped ones; only a cancel that throws leaves some out |
| WatchedSet.EraseAllRemoves | src/main/cpp/apple_fsnotifier.cpp:239-249 | exactly the given paths are removed; true exactly when they were distinct and all watched |
| WatchedSet.AnswerAsDocumentedIff | src/main/cpp/apple_fsnotifier.cpp:239-249 | on macOS, where an entry is a running stream, the answer means what is documented exactly when some path was not watched or none is repeated |
| WatchedSet.AddAllAddsAPrefix | src/main/cpp/apple_fsnotifier.cpp:227-237 | a failing `registerPaths` leaves exactly the prefix before the failing path added |
| EventQueue.AppendOverflow | src/main/java/org/gradle/fileevents/internal/AbstractFileEventFunctions.java:118-121 | an overflow event accounts for everything dropped before it |
| EventQueue.DropTail | src/main/java/org/gradle/fileevents/internal/AbstractFileEventFunctions.java:119 | clearing the queue loses nothing before the last event already taken |
| EventQueue.NextOk | src/main/java/org/gradle/fileevents/internal/AbstractFileEventFunctions.java:77-139 | every micro-step, and a poll between any two, keeps the bookkeeping of lost events |
| EventQueue.RunOk | src/main/java/org/gradle/fileevents/internal/AbstractFileEventFunctions.java:77-139 | it holds in every state of every run |
| EventQueue.NoSilentLossIffCapacity | src/main/java/org/gradle/fileevents/internal/AbstractFileEventFunctions.java:108-139 | between calls the visible events are in order and every missing one has an overflow event in its gap, for all interleavings, exactly if the capacity is at least 1 |
| EventQueue.DeliveryIffCapacity | src/main/java/org/gradle/fileevents/internal/AbstractFileEventFunctions.java:60-67 | a failure or termination event is the last thing visible when its call returns, and stays so until the next call, in all runs exactly if the capacity is at least 2; a later overflow may clear a failure that has not been polled |
| EventQueue.RoomMeansQueued | src/main/java/org/gradle/fileevents/internal/AbstractFileEventFunctions.java:108-109 | an event for which there is room is queued behind the others, and nothing is dropped |
| EventQueue.NothingDroppedWithoutCause | src/main/java/org/gradle/fileevents/internal/AbstractFileEventFunctions.java:108-121 | in every run without an overflow of the system and without an offer to a full queue, the consumer gets exactly the events of all calls, in order |
| EventQueue.OverflowsHaveCauses | src/main/java/org/gradle/fileevents/internal/AbstractFileEventFunctions.java:108-121 | there are never more overflow events than such causes |
| EventQueue.NativeFileWatcherCallback.QueueEvent | src/main/java/org/gradle/fileevents/internal/AbstractFileEventFunctions.java:108-116 | with polls anywhere: with room at the offer exactly the new event is added; without, what is left is dropped for an overflow event, followed by the event only if it is forced |
| EventQueue.NativeFileWatcherCallback.ReportOverflowCall | src/main/java/org/gradle/fileevents/internal/AbstractFileEventFunctions.java:92-94 | an operating-system overflow leaves one overflow event in place of what the consumer has not taken |
| WatcherLifecycle.NextOk | src/main/java/org/gradle/fileevents/internal/AbstractFileEventFunctions.java:148-166 | every step of the native loop, the Java thread, the consumer and the waiting thread keeps the order of the reports |
| WatcherLifecycle.WokenMeansTerminated | src/main/cpp/generic_fsnotifier.cpp:95-103 | a native `awaitTermination` that returns true does so after `runLoop` has ended |
| WatcherLifecycle.NobodySleepsOn | src/main/cpp/generic_fsnotifier.cpp:84-103 | the step that sets `terminated` wakes the waiter, and a call made later does not sleep |
| WatcherLifecycle.NoLostWakeup | src/main/cpp/generic_fsnotifier.cpp:84-103 | in no run does anybody sleep once `terminated` is set |
| WatcherLifecycle.NativeAwaitSoundIffNoSpuriousWakeups | src/main/cpp/generic_fsnotifier.cpp:95-103 | the decision to delete the server is safe exactly without spurious wakeups |
| WatcherLifecycle.TrueMeansDead | src/main/java/org/gradle/fileevents/internal/AbstractFileEventFunctions.java:197-212 | a Java `awaitTermination` that returns true does so after the thread has ended in order |
| WatcherLifecycle.AnswersIff | src/main/java/org/gradle/fileevents/internal/AbstractFileEventFunctions.java:202-208 | in every run `awaitTermination` has answered true exactly if it has joined the thread after its end, and false exactly if before |
| WatcherLifecycle.OrderlyEndHappens | src/main/java/org/gradle/fileevents/internal/AbstractFileEventFunctions.java:148-212 | a run in which it answers true |
| WatcherLifecycle.LoopFailedIff | src/main/cpp/generic_fsnotifier.cpp:84-93 | a failure of the run loop is remembered exactly if it has thrown, in every run |
| WatcherLifecycle.FailureReportedIff | src/main/java/org/gradle/fileevents/internal/AbstractFileEventFunctions.java:153-163 | coming back from the run loop, the Java thread reports a failure exactly if the loop failed or no shutdown had been requested by then |
| WatcherLifecycle.FailureIsKept | src/main/java/org/gradle/fileevents/internal/AbstractFileEventFunctions.java:153-163 | that failure stays the last call, and the last but one once the termination has been reported |
| WatcherLifecycle.OrderlyEnd | src/main/java/org/gradle/fileevents/internal/AbstractFileEventFunctions.java:148-212 | then the termination event is visible once and last; if the loop has thrown or no shutdown had been requested when it ended, the failure stands before it, or an overflow in its place, also if shutdown is called later |
| ShutdownPromise.EventsArriveAfterShutdown | src/main/java/org/gradle/fileevents/FileWatcher.java:39-43 | a run in which an event arrives after `shutdown()` has returned |
| ShutdownPromise.FinishedStaysSilent | src/main/java/org/gradle/fileevents/internal/AbstractFileEventFunctions.java:160-162 | after the termination event nothing is added or taken away, in every future |
| ShutdownPromise.CanTerminate | src/main/java/org/gradle/fileevents/internal/AbstractFileEventFunctions.java:148-166 | from every reachable state the thread can go on until it has reported its termination |
| ShutdownPromise.SilentIffFinished | src/main/java/org/gradle/fileevents/FileWatcher.java:39-43 | nothing more arrives in any future exactly if the watcher has died or queued its termination event |
| CommandRendezvous.RunOk | src/main/headers/command.h:18-39 | the lock is held from before scheduling until the wait, in every run; the run loop cannot notify before |
| CommandRendezvous.RunsAreShort | src/main/headers/command.h:18-39 | no interleaving goes on forever |
| CommandRendezvous.SomebodyCanGoOn | src/main/headers/command.h:18-39 | no deadlock and no lost wakeup: until the call has ended some thread can go on |
| CommandRendezvous.RendezvousCompletes | src/main/headers/command.h:18-39 | every maximal interleaving ends the call: scheduling threw, or the work ran exactly once and its value is returned or its failure rethrown |
| CommandRendezvous.AnswersSoundIffNoSpuriousWakeups | src/main/headers/command.h:21-27 | the answer is that of the work exactly without spurious wakeups |
| AppleServer.NextOk | src/main/cpp/apple_fsnotifier.cpp:95-147 | every step of callbacks, shutdown and run loop keeps the queue invariant |
| AppleServer.RunLoopHandlesEverything | src/main/cpp/apple_fsnotifier.cpp:119-134 | the run loop handles the enqueued items in order, and when it ends, all of them but the pill, with both queues empty |
| AppleServer.PillIsLast | src/main/cpp/apple_fsnotifier.cpp:140-147 | nothing is enqueued after the pill |
| AppleServer.DeliveredIsEnqueued | src/main/cpp/apple_fsnotifier.cpp:95-113 | in every run the events delivered are, in order, those the callbacks are done with and those still on the dispatch queue; exactly the former have been enqueued, in order, but for the rest of a failing callback, which leaves an error |
| AppleServer.EverythingDeliveredIsHandled | src/main/cpp/apple_fsnotifier.cpp:95-147 | if no callback failed, the ended run loop has handled every event delivered, in order |
| AppleServer.ShutdownGoesOn | src/main/cpp/apple_fsnotifier.cpp:140-147 | once shutdown has been called some thread can go on until the loop has ended |
| AppleServer.ShutdownCompletes | src/main/cpp/apple_fsnotifier.cpp:119-147 | every run is short after the streams were stopped, and no thread can go on exactly when the loop has ended with everything handled |
| AppleServer.BlockingQueue.Dequeue | src/main/headers/apple_fsnotifier.h:36-44 | takes the oldest item |
| AppleServer.Server.HandleEvents | src/main/cpp/apple_fsnotifier.cpp:95-113 | enqueues the events in order; a failure enqueues an error and ends the callback |
| AppleServer.Server.RunLoop | src/main/cpp/apple_fsnotifier.cpp:119-134 | for any timing of the producers, handles everything before the pill in order and leaves the queue empty |
| AppleServer.Server.RegisterPaths | src/main/cpp/apple_fsnotifier.cpp:227-237 | the loop computes `AddAll`, about which `AddAllAddsAPrefix` is proved |
| AppleServer.Server.UnregisterPaths | src/main/cpp/apple_fsnotifier.cpp:239-249 | the loop computes `EraseAll`, about which `EraseAllRemoves` is proved |

## Left out

- LinuxServer.WatchPoint.Cancel: never meets an `inotify_rm_watch` error other than `EINVAL`, because the kernel class does not produce one; the registry-level results do cover it.
- LinuxDrain.HandleEvents: does not cover an exception thrown while an event is handled, which drops the rest of that read buffer.
- LinuxSystem.HandshakeComplete: requires that no `IN_IGNORED` has been dropped; after an overflow only the invariant with `lost`, the index, the attribution of queued events and the absence of stale reports remain.
- LinuxServer.Server.ReportOverflowEverywhere: says nothing about how many of the overflow events stay visible in Java, where each of them clears the queue.
- WindowsServer.Server.StopWatchingMovedPaths: is one atomic call, although the code runs it beside the run loop.
- WindowsServer.ShutdownQuiescence: assumes that no registration arrives after the cancel loop.
- The concurrent protocols (Java thread and `awaitTermination`, `Command`, macOS dispatch and shutdown, Windows completions) are state machines on values; mutexes appear only where the argument needs them.
- JNI, global references, exception translation and logging: no algorithm of their own.
- UTF-8, UTF-16 and wide-string conversion: paths are sequences of units.
- Real system calls: answers of the operating system are parameters or adversarial steps.
- The timeout of a `Command`, and what a late run loop does to a command that is gone.
- The server after its deletion, and a thread whose `initializeRunLoop` throws, beyond the fact that it reports nothing.
- APCs other than completions of the watch point itself running inside the `SleepEx` of a Windows destructor, and what a request does that outlives its watch point.
- The loop of the Windows `registerPaths`: a sequence of `RegisterPath` calls that ends with the first that throws.
- The final warnings of the Windows run loop about unfinished watch points, and closing of the thread handle.
- The flag classifier of macOS events, and FSEvents stream creation: single branches without state.
- The FileEvents entry point, platform lookup, version and build logic: configuration.
