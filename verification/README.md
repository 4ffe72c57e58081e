# Verification of the event core and the codecs

This Dafny 4.11 project models seven parts of the library and proves what they promise. Methods follow
the C code and are proved against specification functions; lemmas state what the specifications mean.

* **Event core** (`src/libevent`). `Evmap` and `Epoll` give the reference counts per descriptor, the
  changelist and the calls of `epoll_ctl`; `EvmapCode` is the base with its growing table and its array of
  changes. The main result is that deferring and coalescing changes refines making them at once.
  `Backend`, `Poll` and `Select` are the other backends, `EvmapPoll` and `EvmapSelect` evmap over them.
  `EventQueue`, `EventOps`, `EventLoop`, `EventTimeouts`, `EventClock` and `EventBaseLoop` specify the
  queues, the public operations, the callbacks (any finite sequences of public operations), the clock and
  the loop; `EventCode` is the base of event.c that refines them. `EventTurns` says which turns are taken
  and what they do to their events, `EventReports` what reports activate, `EventReturns` when the loop
  returns, and `EventInversion` when priorities are respected. `EventRequests` collects what the operations and the loop ask of evmap, and `EventKernel` joins
  all this: what the kernel watches is what the inserted events wait for.
  `MinHeap` is the timer heap with its back pointers, `TimeVal` the arithmetic of times and waits,
  `CommonTimeout` the tagged timeout queues.
* **cJSON** (`src/libjson`). Values and texts in `JsonValue` and `JsonString`, the recursive parser in
  `JsonParse`, printing without and with a print buffer in `JsonPrint` and `JsonBuffer`, the minifier in
  `JsonMinify` and the automaton for it in `JsonUnclosed`, child lists in `JsonChildren`. `JsonLanguage` is
  the grammar of the accepted texts, `JsonLayout` the layout of the formatted print. Printing and parsing are inverse, minifying commutes with
  printing, and all buffers have the sizes they need.
* **IPv6 text** (`src/libevent/evutil.c`): `IPv6`, `IPv6Code` and `IPv6RoundTrip`; `IPv6Form` is the
  form of the printed texts, `IPv6Language` the grammar of the accepted ones.
* **Protocol analyzer** (`src/libproto_analyzer`): `Bits`, `ProtoFields` and `ProtoAnalyzer`.
* **Blobs** (`src/libblob`): `Blob` and `BlobCode`.
* **Worker hand-off** (`src/libconcurrent`): atomic steps in `Handoff` and `MasterQueue`.
* **INI dictionary** (`src/libini`): `IniDictionary`.

`dafny verify dfyconfig.toml` checks everything.

## Where the code does not do what one would expect

Each of these is proved: the exact condition under which the code is right, and inputs with which it is not.

* `evutil_inet_ntop` compares `strlen(buf)` with `len` by `>`: a destination that has room for the
  characters but not for the terminator is filled and reported as a success (`IPv6Code.Terminated`,
  `IPv6Code.NtopUnterminated`).
* `event_add` on an event that is active but not inserted succeeds without registering the
  event (`EventOps.AddedIsInserted`, `EventOps.ActiveIsNotRegistered`).
* Deleting one direction of an edge-triggered descriptor makes the other level-triggered
  (`Evmap.EdgeLostByDelete`, `Evmap.EdgeKept`), and epoll activates edge-triggered events of the
  other direction (`Evmap.EdgeActivation`, `Evmap.EdgeActivatedWrongly`).
* `blob_get_data_len` is wrong for names of more than 249 bytes (`Blob.RecordRead`, `Blob.LongNameMisread`).
* Requests to the master can be mixed up when two programs have pushed requests of different kinds and
  neither has written its byte yet, and only then (`MasterQueue.RequestsMatchIffAlike`,
  `MasterQueue.InterleavedRequestsMismatch`). Requests of one kind may interleave.
* `dictionary_get` compares a key of hash 0 with a null pointer when a hole comes before its slot
  (`IniDictionary.Dictionary.Get`, `IniDictionary.AskedForHashZero`); the empty key has that hash
  (`IniDictionary.EmptyKeyHasHashZero`).
* `cjson_minify` reads and writes behind the terminator if and only if the text, read from the left, ends
  inside of a string literal or of a block comment (`JsonMinify.MinifyInPlace`,
  `JsonUnclosed.OutOfBoundsIffUnclosed`, `JsonUnclosed.RunsOver`).
* `evutil_inet_pton` accepts IPv6 texts that RFC 4291, section 2.2, does not have: a colon behind the last
  word (`IPv6Language.TrailingColonAccepted`), `0x` in front of a word (`IPv6Language.PrefixAccepted`),
  blanks, signs and leading zeros behind the first dot (`IPv6Language.SignsAccepted`). `IPv6Language.AcceptedIffSpelled` has
  all texts that it accepts.
* A top-level JSON number is not read back if the text behind it continues it (`JsonRoundTrip.RoundTrip`,
  `JsonRoundTrip.NumberCarriedOn`).

That priorities are respected depends on where internal events are: the first queue and the last one are the
safe places, and no others (`EventInversion.RespectedIffInternalAtEnds`). The library keeps to that:
`src/libevent/signal.c:184-186` gives its one internal event priority 0.

## How the C code is represented

* Flag words are records of booleans. Integers are unbounded; where a width matters (`ev_uint16_t` counts,
  16-bit words, 8-bit positions, `unsigned` products, casts) it is written out.
* C strings are texts; a `char *` into one is a position, and reading at the end yields the terminator.
* The events of a base are named by their place in a sequence of records; `min_heap_idx` is a map.
* The kernel is a map from descriptors to registered events, where `epoll_ctl` fails with ENOENT or EEXIST
  only, both outcomes retried as in the code. Clocks, randomness and what descriptors become ready are parameters.
* Times that event.c handles are normalized, with 0 to 999999 microseconds, as `struct timeval` demands.
* Callbacks are arbitrary finite sequences of public operations; when a given script of callbacks
  has run out they do nothing.

## Model

| member | source | states |
|---|---|---|
| `Evmap.DeferredRefinesImmediate` | src/libevent/evmap.c:252-376 | for every history of adds, deletes and dispatches, applying what the changelist holds leaves the kernel watching exactly what is counted, the same as when every change is made at once |
| `EventKernel.KernelWatchesInserted` | src/libevent/event.c:656-1159 | after any operations, dispatches and runs of the loop on a new base, with whatever the backend reports, times out and the callbacks do in them, applying what is pending makes the kernel watch a descriptor for reading or writing if and only if some inserted event waits for that on it; without a changelist it does so all the time |
| `EventRequests.LoopLeads` | src/libevent/event.c:656-753 | all that a run of the loop asks of evmap for a descriptor (dispatches, deletions, re-adding of persistent events, timeouts, callbacks) is an allowed history that takes the listed events and counts of the descriptor from those before the run to those after it |
| `EventRequests.QueueLeads` | src/libevent/event.c:551-607 | so is what is asked while a queue is served, persistent events re-added with an absolute time included |
| `EventRequests.TimeoutsLead` | src/libevent/event.c:1297-1322 | so are the deletions of timeout_process |
| `Evmap.NetChangeRepairs` | src/libevent/evmap.c:604-715 | with a net change the dispatch reaches the counted interest whatever the kernel still knew of the descriptor; without one nothing is touched, and the counts have not crossed zero |
| `Evmap.DeferredStep` | src/libevent/evmap.c:636-715 | one add or delete keeps the pending change leading from what the kernel was told to what is counted now; a dispatch makes the kernel watch that |
| `Evmap.ImmediateStep` | src/libevent/epoll.c:378-409 | without a changelist every add and delete keeps the kernel watching what is counted |
| `Evmap.AddKeepsCounts` | src/libevent/evmap.c:252-320 | an accepted event keeps the counts equal to the listed readers and writers, below 65536, events distinct and of one trigger mode |
| `Evmap.DelKeepsCounts` | src/libevent/evmap.c:324-376 | deleting a listed event keeps all of that, its assertions on the counts hold, and the event is gone from the list |
| `Evmap.AcceptedIffFits` | src/libevent/evmap.c:288-299 | an event is accepted if and only if there are fewer than 65536 readers and writers with it and its trigger mode is that of the others |
| `Evmap.EdgeActivation` | src/libevent/epoll.c:448-466 | since every report carries EV_ET, exactly the events that wait for what happened are activated if and only if no edge-triggered event on the descriptor waits for something else |
| `Evmap.EdgeActivatedWrongly` | src/libevent/epoll.c:448-466 | an edge-triggered writer is activated because its descriptor can be read |
| `Evmap.EdgeLostByDelete` | src/libevent/epoll.c:260-283 | of two edge-triggered events on a descriptor the reader is deleted: with and without a changelist the writer becomes level-triggered |
| `Evmap.EdgeKept` | src/libevent/epoll.c:220-283 | a net change keeps the trigger mode if and only if nothing remains, something is added, or the mode is level-triggered |
| `Epoll.AppliedWatches` | src/libevent/epoll.c:199-356 | a net change leaves the wanted interest registered from either kernel membership; without one the registration is unchanged |
| `Epoll.Kernel.ApplyOneChange` | src/libevent/epoll.c:199-356 | the choice of ADD, MOD or DEL with its retries on ENOENT and EEXIST never fails and leaves what Applied says on its descriptor and all others alone |
| `EvmapCode.OneEntryPerFd` | src/libevent/evmap.c:515-543 | the index invariant allows at most one changelist entry per descriptor |
| `EvmapCode.EventBase.MakeSpace` | src/libevent/evmap.c:191-213 | the table grows by doubling to hold the slot, bounded by twice the slot or 32, and no descriptor changes |
| `EvmapCode.EventBase.Grow` | src/libevent/evmap.c:578-598 | the changes array grows to 64 or to double its size with its entries kept |
| `EvmapCode.EventBase.GetOrConstructChange` | src/libevent/evmap.c:604-633 | the entry of the descriptor is found or appended, records and entries index each other, and no other descriptor changes |
| `EvmapCode.EventBase.ChangelistAdd` | src/libevent/evmap.c:635-664 | the pending change of the descriptor becomes that of the specification and nothing else changes |
| `EvmapCode.EventBase.ChangelistDel` | src/libevent/evmap.c:666-715 | the same for a delete, which turns an add of something new into no change |
| `EvmapCode.EventBase.IoAdd` | src/libevent/evmap.c:252-320 | result -1, 0 or 1 exactly as the counts and trigger modes say; nothing changes on -1; otherwise the descriptor takes the deferred or the immediate step of the specification |
| `EvmapCode.EventBase.IoDel` | src/libevent/evmap.c:324-376 | -1 and no change for a descriptor outside the table; otherwise as for an add, and both assertions on the counts hold |
| `EvmapCode.EventBase.ApplyChanges` | src/libevent/epoll.c:358-375 | every pending change reaches the kernel once; the result is 0 |
| `EvmapCode.EventBase.RemoveAll` | src/libevent/evmap.c:548-567 | all records forget their entries, and only that |
| `EvmapCode.EventBase.Dispatch` | src/libevent/epoll.c:426-428 | applying and removing all changes is the dispatch step of the specification for every descriptor |
| `Backend.CountsStayWatched` | src/libevent/evmap.c:252-376 | one step: a backend that adds and removes exactly the bits it is given keeps watching what is counted |
| `EvmapPoll.EventBase.Perform` | src/libevent/evmap.c:252-376 | after any history of adds and deletes, poll watches every descriptor for exactly what is counted on it |
| `EvmapSelect.EventBase.Perform` | src/libevent/evmap.c:252-376 | so does select |
| `EvmapPoll.EventBase.IoAdd` | src/libevent/evmap.c:252-320 | result and counts are those of the specification, and all descriptors stay watched for what is counted |
| `EvmapPoll.EventBase.IoDel` | src/libevent/evmap.c:324-376 | the same for a delete, for which poll always finds the descriptor |
| `EvmapSelect.EventBase.IoAdd` | src/libevent/evmap.c:252-320 | the same over select |
| `EvmapSelect.EventBase.IoDel` | src/libevent/evmap.c:324-376 | the same over select |
| `Backend.RequestKeepsSound` | src/libevent/evmap.c:252-376 | every request keeps the counts of all descriptors those of their listed events |
| `Backend.EachOnce` | src/libevent/poll.c:180-184 | from any random start the rotation visits every index exactly once |
| `Backend.AllReadyReported` | src/libevent/select.c:175-189 | so every ready entry is reported, and nothing else |
| `Backend.Collect` | src/libevent/poll.c:180-202 | the loop with its wrapping index reports the ready entries in the order of their turns |
| `Poll.SwappedOut` | src/libevent/poll.c:296-311 | moving the last entry into the freed place keeps entries and indices inverse to each other and drops only the one descriptor |
| `Poll.PollOp.Add` | src/libevent/poll.c:207-262 | the watched set gains exactly the given bits of the descriptor |
| `Poll.PollOp.Del` | src/libevent/poll.c:268-315 | it loses exactly the given bits; -1 for a descriptor that is not watched |
| `Select.SelectOp.Add` | src/libevent/select.c:235-276 | the same over two bit sets that double until they hold the descriptor |
| `Select.SelectOp.Del` | src/libevent/select.c:282-304 | clears exactly the given bits |
| `Select.SelectOp.Dispatch` | src/libevent/select.c:146-190 | scanning the first event_fds + 1 bits of what select has left reports exactly the descriptors that are still set, from any random start |
| `EventOps.ConsistentOverRuns` | src/libevent/event.c:1324-1431 | after any sequence of operations on a new base each flag holds if and only if the event is on that queue exactly once, event_count is the number of memberships of user events, event_count_active the number of active events, and descriptors list exactly the inserted events |
| `EventOps.FailedAddChangesNothing` | src/libevent/event.c:943-1075 | event_add fails if and only if evmap refuses the event, and then the whole base is unchanged |
| `EventOps.AddedIsInserted` | src/libevent/event.c:974-987 | a successful add leaves the event inserted if and only if it was inserted before or was not active: an event that is merely active is not registered |
| `EventOps.ActiveIsNotRegistered` | src/libevent/event.c:974-987 | any new event that is activated before it is added is added with success and not registered |
| `EventOps.AddedIsTimed` | src/libevent/event.c:994-1064 | with a timeout it waits for the new deadline and is no longer active because of the old one |
| `EventQueue.EnlistKeepsOk` | src/libevent/event.c:974-987 | registering an event with evmap and inserting it keeps all queues, flags, counts and descriptor lists consistent |
| `EventQueue.DelistKeepsOk` | src/libevent/event.c:1139-1150 | so does taking it off, which evmap always finds listed |
| `EventQueue.InsertActiveKeepsOk` | src/libevent/event.c:1389-1417 | inserting into an active queue keeps consistency |
| `EventQueue.RemoveActiveKeepsOk` | src/libevent/event.c:1324-1344 | removing from it does |
| `EventQueue.InsertTimerKeepsOk` | src/libevent/event.c:1418-1427 | inserting into the timer heap does |
| `EventQueue.RemoveTimerKeepsOk` | src/libevent/event.c:1346-1356 | removing from it does |
| `EventLoop.NoPriorityInversion` | src/libevent/event.c:551-638 | with internal events in the first queue or in the last, whatever the callbacks add, delete, activate or reprioritise, an event is taken from queue i only when all queues j < i are empty |
| `EventLoop.QueueHasNoInversion` | src/libevent/event.c:551-607 | the same for one queue; a result of 0 means it was the first queue and is empty |
| `EventInversion.RespectedIffInternalAtEnds` | src/libevent/event.c:613-638 | for any consistent base: no operations and callbacks whatever lead to a priority inversion if and only if no internal event is between the first queue and the last |
| `EventInversion.InversionBehind` | src/libevent/event.c:613-638 | behind any such internal event there is an inversion, after some operations and with some callback |
| `EventLoop.ActivateKeepsUrgent` | src/libevent/event.c:1171-1205 | activating a more urgent event while a queue runs sets event_continue |
| `EventLoop.NeverBeforeNow` | src/libevent/event.c:490-530 | a persistent event is rescheduled an interval after it was due if that is not past, else an interval after now; never before now |
| `EventBaseLoop.OneMeansIdle` | src/libevent/event.c:656-753 | the loop returns 1 only when no user event is on any queue and nothing is active |
| `EventBaseLoop.IdleReturnsOne` | src/libevent/event.c:710-716 | it returns 1 in its first round, having looked at the clock only, if and only if that is so from the start |
| `EventBaseLoop.CountsTellIdle` | src/libevent/event.c:354-360 | the two counts it looks at are zero exactly in that case |
| `EventReturns.ReturnsExactly` | src/libevent/event.c:656-753 | round by round: a loop that has returned stays so; otherwise it is not broken, and the next round returns 1 if and only if the base is idle, else -1 if and only if the dispatch fails, else 0 if and only if a callback breaks the loop, or EVLOOP_NONBLOCK is given and nothing has become active, or EVLOOP_ONCE is given, a callback of a user has run, and nothing is left active; turns are taken only when something has become active, from the heads of the queues, beginning with the most urgent one |
| `EventReturns.ZeroNeedsReason` | src/libevent/event.c:738-743 | the loop returns nothing but 1, 0 and -1, and 0 only with a flag or a break: with neither flag and no break it returns 1 or -1 |
| `EventReturns.StartsAfresh` | src/libevent/event.c:682-684 | a break from before the call does not count |
| `EventReturns.RoundCorrects` | src/libevent/event.c:698 | each round first corrects the deadlines for a clock that was set back |
| `EventReports.ReportsStrike` | src/libevent/evmap.c:378-395 | the reports of a round activate exactly the inserted events on their descriptors that wait for something reported; ev_res is all that is reported and waited for, on top of what it was if the event was active |
| `EventReports.ReportJoins` | src/libevent/evmap.c:378-395 | those that were not active join the queues of their priorities at the end, in list order |
| `EventReports.RoundActivates` | src/libevent/event.c:719-731 | when the callbacks of a round are due, each timed event whose deadline is reached by then is active because of EV_TIMEOUT alone and neither timed nor inserted, and any other event is as the reports have left it |
| `EventTurns.ProcessCounts` | src/libevent/event.c:551-638 | every turn is that of the first event in its queue; the result is -1 if and only if a callback has broken the loop, and else the number of user events served |
| `EventTurns.ProcessBegins` | src/libevent/event.c:613-638 | if anything is active, the first turn is that of the first event in the most urgent queue |
| `EventTurns.PassServesOneQueue` | src/libevent/event.c:626-635 | a pass serves the user events of one queue only |
| `EventTurns.PassLeavesNothing` | src/libevent/event.c:626-635 | a pass that has served internal events only, and was not stopped, leaves nothing active |
| `EventTurns.OneShotIsDeleted` | src/libevent/event.c:560-563 | an event that is not persistent is on no queue when its callback runs |
| `EventTurns.PersistentStays` | src/libevent/event.c:560-563 | a persistent one without an interval is only taken off its active queue |
| `EventTurns.PersistentIsRescheduled` | src/libevent/event.c:488-530 | a persistent one with an interval that has run because of its timeout is due an interval after it was due, unless that is past; otherwise an interval after now |
| `EventTurns.IntervalIsRemembered` | src/libevent/event.c:994-1010 | the interval is the timeout with which the event was added |
| `EventTurns.NewInTheMiddle` | src/libevent/event.c:791 | a new event has as many priorities in front of it as behind it, or one more |
| `EventBaseLoop.LoopHasNoInversion` | src/libevent/event.c:686-743 | in the outcome of no run of the loop is there a turn that served an event while a more urgent one was active |
| `EventTimeouts.FiredAreDue` | src/libevent/event.c:1297-1322 | timeout_process fires exactly the heap events with deadline at most now, each once |
| `EventTimeouts.FiredInOrder` | src/libevent/event.c:1308-1321 | in the order of their deadlines |
| `EventTimeouts.FiredAreActive` | src/libevent/event.c:1319-1320 | each is afterwards active because of EV_TIMEOUT alone and on no other queue; all other events are as before |
| `EventTimeouts.FiredAreQueued` | src/libevent/event.c:1308-1321 | each active queue keeps its other events in order, followed by those of its priority that fired |
| `EventCode.EventBase.QueueInsert` | src/libevent/event.c:1389-1431 | puts the event on the queue and updates flag and counts as specified |
| `EventCode.EventBase.QueueRemove` | src/libevent/event.c:1324-1360 | takes it off the queue, timers by their index in the heap |
| `EventCode.EventBase.Del` | src/libevent/event.c:1093-1159 | the base becomes that of the specification of event_del_internal |
| `EventCode.EventBase.Activate` | src/libevent/event.c:1171-1205 | the base becomes that of event_active_nolock |
| `EventCode.EventBase.AddNow` | src/libevent/event.c:943-1075 | result and base are those of event_add_internal |
| `EventCode.EventBase.SetPriority` | src/libevent/event.c:829-840 | refused for an active event or a priority out of range, else only the priority changes |
| `EventCode.EventBase.PersistClosureNow` | src/libevent/event.c:479-531 | the base becomes that of event_persist_closure |
| `EventCode.EventBase.ProcessSingleQueue` | src/libevent/event.c:551-607 | result, base and turns are those of the specification, for any callbacks |
| `EventCode.EventBase.ProcessActiveNow` | src/libevent/event.c:613-638 | the same over all queues |
| `EventCode.EventBase.TimeoutProcessNow` | src/libevent/event.c:1297-1322 | fires what the specification fires |
| `EventCode.EventBase.IoActiveNow` | src/libevent/evmap.c:378-395 | the base becomes that of evmap_io_active |
| `EventCode.EventBase.RunLoop` | src/libevent/event.c:656-753 | result, base and turns are those of the specification of event_base_loop for any rounds, each with its own reading of the clock, reports and callbacks |
| `EventCode.EventBase.TimeoutCorrectNow` | src/libevent/event.c:1249-1295 | the base becomes that of timeout_correct: a clock that was set back moves all deadlines of the heap |
| `EventCode.EventBase.TimeoutNextNow` | src/libevent/event.c:1206-1241 | the wait is that of the specification of timeout_next |
| `EventClock.DistancesStay` | src/libevent/event.c:1249-1295 | however far the clock has been set back, each timer has as long to wait as before, and no other deadline changes |
| `EventClock.MovingKeepsOk` | src/libevent/event.c:1272-1281 | moving all keys by the same amount keeps the heap and everything else consistent |
| `EventClock.EpollWaitsForEarliest` | src/libevent/epoll.c:411-426 | for any consistent base the milliseconds handed to epoll are 0 if something is active, -1 if and only if nothing is active or timed, and else the least time left to any timed event, rounded up, with 35 minutes at most |
| `MinHeap.TopIsEarliest` | src/include/libevent/minheap-internal.h:70 | the first event of the heap is the earliest |
| `MinHeap.PushKeeps` | src/include/libevent/minheap-internal.h:72-80 | pushing keeps the heap order and adds exactly the event |
| `MinHeap.EraseKeepsOrder` | src/include/libevent/minheap-internal.h:99-125 | erasing any event keeps the heap order |
| `MinHeap.EraseKeepsOthers` | src/include/libevent/minheap-internal.h:99-125 | and removes exactly that event |
| `MinHeap.TimerHeap.ShiftUpFrom` | src/include/libevent/minheap-internal.h:143-153 | the array becomes that of the specification and every event knows its place |
| `MinHeap.TimerHeap.ShiftDownFrom` | src/include/libevent/minheap-internal.h:155-168 | likewise; nothing moves when the last event is erased |
| `MinHeap.TimerHeap.Insert` | src/include/libevent/minheap-internal.h:72-80 | likewise, with room made by doubling |
| `MinHeap.TimerHeap.Erase` | src/include/libevent/minheap-internal.h:99-125 | likewise; the erased event has no place afterwards |
| `TimeVal.NormalArithmetic` | src/include/libevent/event2/util.h:382-414 | field-wise comparison, sum and difference are those of the microseconds |
| `TimeVal.MsecRoundsUp` | src/libevent/evutil.c:2109-2119 | milliseconds are rounded up and fit into a long; -1 exactly for times out of range |
| `TimeVal.WaitIsExact` | src/libevent/epoll.c:411-426 | the wait handed to epoll is the time to the earliest deadline rounded up, at most 35 minutes, never negative, and does not end before the deadline |
| `CommonTimeout.TagRecovered` | src/libevent/event.c:406-424 | index and magic number packed into tv_usec are read back and leave the microseconds alone |
| `CommonTimeout.PlainIsNotCommon` | src/libevent/event.c:414-424 | plain microseconds are never taken for a common timeout |
| `CommonTimeout.MarkedCompare` | src/libevent/event.c:1376-1381 | tagged times of one queue compare like plain ones |
| `CommonTimeout.InsertInOrder` | src/libevent/event.c:1362-1388 | the queue stays in order, the event goes behind all that are not later |
| `CommonTimeout.FireDue` | src/libevent/event.c:463-474 | exactly the due events leave the queue, in order, and the timer of the queue is set for the earliest of the others; deleting and activating the events that are returned is left to the caller |
| `CommonTimeout.QueueComparesPlain` | src/libevent/event.c:466-468 | the order of the tagged times of a queue is that of the plain times the loop compares with the clock |
| `CommonTimeout.TimeoutCorrect` | src/libevent/event.c:1249-1295 | after a backward jump every deadline has moved by the jump; otherwise none has |
| `CommonTimeout.MovedHeapOrdered` | src/libevent/event.c:1272-1281 | the heap stays a heap |
| `CommonTimeout.MovedQueueInOrder` | src/libevent/event.c:1282-1291 | the queues stay in order and keep their tags |
| `CommonTimeout.CommonNeverBeforeNow` | src/libevent/event.c:498-530 | rescheduling a common timeout keeps its tag, is never before now, and is an interval after it was due unless that is past, else an interval after now |
| `JsonRoundTrip.RoundTrip` | src/libjson/cjson.c:754-1368 | parsing the formatted or unformatted print of a tree followed by any text gives back the tree and leaves exactly that text, if and only if a top-level number is not continued by the text |
| `JsonRoundTrip.NumberCarriedOn` | src/libjson/cjson.c:157-213 | the number 1 with the text 2 behind it is read as 12 |
| `JsonRoundTrip.IntRoundTrip` | src/libjson/cjson.c:157-213 | a printed integer is read back, ending where it ends, if and only if no digit, fraction or exponent follows |
| `JsonRoundTrip.DocumentRoundTrip` | src/libjson/cjson.c:687-720 | what is printed is accepted as a whole document |
| `JsonLanguage.AcceptedIffSpelled` | src/libjson/cjson.c:687-720 | a text is accepted as a value if and only if it is spelled by the grammar for that value, with blanks around it, and, if nothing else is allowed, nothing behind |
| `JsonLanguage.ReadIffSpelled` | src/libjson/cjson.c:754-1139 | at any place: exactly the spelled values are read there, as far as they are spelled, with their brackets, commas, colons, blanks, escapes and numbers |
| `JsonLanguage.SpelledIsParsed` | src/libjson/cjson.c:754-1139 | what is spelled is read |
| `JsonLanguage.ParsedIsSpelled` | src/libjson/cjson.c:754-1139 | what is read is spelled; so a text that is not is rejected |
| `JsonLanguage.NumberCompared` | src/libjson/cjson.c:157-213 | no number that begins at a place is longer than the one that is read there |
| `JsonLanguage.EscapeIsSpelled` | src/libjson/cjson.c:624-666 | what is printed for a character spells it, without raw control characters and with lower-case digits |
| `JsonLanguage.EscapeIsShortest` | src/libjson/cjson.c:624-666 | and nothing shorter does (RFC 8259, section 7) |
| `JsonLayout.FormattedIsLaidOut` | src/libjson/cjson.c:921-1368 | the formatted print is the unformatted one, laid out character by character: a line for each member with a tab for each open bracket or brace, a tab behind colons, a blank behind the commas of arrays |
| `JsonString.StringRoundTrip` | src/libjson/cjson.c:401-669 | any NUL-free string survives printing and parsing wherever it stands |
| `JsonString.ScansAgree` | src/libjson/cjson.c:401-548 | when the decoding pass succeeds it stops where the counting pass stopped, at a quote or the end, and writes no more bytes than were counted |
| `JsonString.Utf8IsShortest` | src/libjson/cjson.c:498-532 | a code point is encoded correctly and no other sequence as short spells it |
| `JsonString.Hex4IsNumber` | src/libjson/cjson.c:332-389 | four hexadecimal digits of either case give the number that they stand for, anything else 0 |
| `JsonString.CodePointDecoded` | src/libjson/cjson.c:460-532 | the escape of any code point of the basic plane but 0 and the surrogates is decoded to its UTF-8 |
| `JsonString.PairDecoded` | src/libjson/cjson.c:475-497 | so are the escapes of the two surrogates of any other code point (RFC 2781, section 2.1) |
| `JsonStringCode.ReadHex4` | src/libjson/cjson.c:332-389 | the digits are shifted in one by one |
| `JsonStringCode.ParseStringAt` | src/libjson/cjson.c:401-548 | both loops compute what the specification of parsing a string says |
| `JsonStringCode.DecodeString` | src/libjson/cjson.c:439-540 | the decoding loop writes the decoded text, within the counted size, and ends at the counted end |
| `JsonStringCode.CountString` | src/libjson/cjson.c:417-426 | the counting loop |
| `JsonStringCode.EscapedLength` | src/libjson/cjson.c:604-613 | the space computed beforehand is the length of the escaped text |
| `JsonStringCode.WriteEscaped` | src/libjson/cjson.c:624-666 | the writing loop fills exactly that space |
| `JsonStringCode.PrintString` | src/libjson/cjson.c:551-669 | the allocated buffer is exactly as long as the quoted text and its terminator |
| `JsonStringCode.NeedsEscaping` | src/libjson/cjson.c:575-582 | the first pass finds whether a character needs escaping |
| `JsonParse.ParseNumberAt` | src/libjson/cjson.c:157-213 | the loops over digits, fraction and exponent compute the specified number and end |
| `JsonParse.ParseValueAt` | src/libjson/cjson.c:754-789 | the recursive parser computes what the specification of parsing says |
| `JsonParse.ParseArrayAt` | src/libjson/cjson.c:862-918 | for arrays |
| `JsonParse.ParseObjectAt` | src/libjson/cjson.c:1059-1139 | for objects |
| `JsonParse.ParseDocument` | src/libjson/cjson.c:687-720 | for documents, with the optional check that nothing follows |
| `JsonPrint.PrintText` | src/libjson/cjson.c:792-859 | unbuffered printing gives the text of the specification |
| `JsonPrint.PrintArrayText` | src/libjson/cjson.c:921-1056 | arrays fit into the space that is added up for them |
| `JsonPrint.PrintObjectText` | src/libjson/cjson.c:1142-1368 | objects do |
| `JsonBuffer.Pow2GtIsLeast` | src/libjson/cjson.c:215-234 | for every positive int up to 2^30 the bit trick gives a power of two, the least one that is not below its argument |
| `JsonBuffer.PrintBuffer.Ensure` | src/libjson/cjson.c:236-266 | there is room for what is needed, what was printed is kept, and the buffer keeps its size if that suffices and else has the least power of two that does |
| `JsonBuffer.PrintBuffer.Update` | src/libjson/cjson.c:268-278 | finds the end of the text printed so far |
| `JsonBuffer.PrintBuffer.PrintValue` | src/libjson/cjson.c:792-859 | printing into the buffer appends the text of the specification |
| `JsonBuffer.PrintBuffered` | src/libjson/cjson.c:739-750 | buffered printing with any positive prebuffer gives the text of unbuffered printing |
| `JsonMinify.MinifyFormatted` | src/libjson/cjson.c:1841-1883 | minifying the formatted print gives the unformatted print |
| `JsonMinify.MinifyInPlace` | src/libjson/cjson.c:1841-1883 | for every terminated buffer the loop either rewrites the text in place to the specified one or, exactly when there is none, comes to the terminator inside of a literal or block comment |
| `JsonUnclosed.OutOfBoundsIffUnclosed` | src/libjson/cjson.c:1859-1878 | the second happens if and only if an automaton over the text ends in a string literal or in a block comment |
| `JsonUnclosed.RunsOver` | src/libjson/cjson.c:1859-1878 | it happens on a single quote and on the start of a comment |
| `JsonUnclosed.MinifyKeeps` | src/libjson/cjson.c:1841-1883 | otherwise the result is what the automaton keeps: literals whole, nothing of comments, and all of the rest but white space |
| `JsonChildren.Parent.GetArrayItem` | src/libjson/cjson.c:1382-1391 | finds the child at the place, or null |
| `JsonChildren.Parent.AddItem` | src/libjson/cjson.c:1429-1445 | appends the node, with all that hangs on its next, to the children; links stay inverse with a null prev at the head |
| `JsonChildren.Parent.InsertItem` | src/libjson/cjson.c:1539-1558 | inserts at the place, whatever the links of the node were, or appends it with all that hangs on its next |
| `JsonChildren.Parent.DetachItem` | src/libjson/cjson.c:1486-1511 | takes the child at the place out, or nothing; the node points nowhere afterwards |
| `JsonChildren.Parent.ReplaceItem` | src/libjson/cjson.c:1560-1582 | replaces the child at the place, or nothing; the old node is unlinked |
| `JsonChildren.Parent.DetachNamed` | src/libjson/cjson.c:1518-1531 | takes the first child of that name out |
| `IPv6RoundTrip.RoundTrip` | src/libevent/evutil.c:1557-1762 | for every 16-byte address, parsing what is printed succeeds and returns the address |
| `IPv6RoundTrip.CompressedFormParsed` | src/libevent/evutil.c:1705-1749 | for texts with a gap, wherever it is |
| `IPv6RoundTrip.FullFormParsed` | src/libevent/evutil.c:1706-1739 | for texts without one |
| `IPv6RoundTrip.EmbeddedFormParsed` | src/libevent/evutil.c:1681-1703 | for the embedded IPv4 forms |
| `IPv6Form.GapForm` | src/libevent/evutil.c:1604-1640 | where two words in a row are zero, the text is the words in front of the first longest run of zero words, `::`, and the words behind it |
| `IPv6Form.FullForm` | src/libevent/evutil.c:1623-1640 | otherwise it is all eight words with colons between them |
| `IPv6Form.RunExists` | src/libevent/evutil.c:1604-1621 | there is such a run if two words in a row are zero |
| `IPv6Form.DottedForm` | src/libevent/evutil.c:1586-1602 | the text of an embedded IPv4 address is `::` or `::ffff:` and four decimal numbers |
| `IPv6Form.DotsIffHasDots` | src/libevent/evutil.c:1586-1602 | dots are printed if and only if ten zero bytes are followed by ffff, or by a zero word and two words that are not zero |
| `IPv6Form.PrintedWord` | src/libevent/evutil.c:1582-1585 | each printed word is the number of its two bytes, the first one weighing more |
| `IPv6Language.AcceptedIffSpelled` | src/libevent/evutil.c:1671-1756 | a text is accepted as an address if and only if it is put together by the rules of a grammar of words, one gap and a dotted part, and the address is the one computed from these parts |
| `IPv6Language.SpelledIsParsed` | src/libevent/evutil.c:1671-1756 | every spelling by the grammar is accepted as the address it spells |
| `IPv6Language.ParsedIsSpelled` | src/libevent/evutil.c:1671-1756 | every accepted text is taken apart into a spelling by the grammar |
| `IPv6Language.TrailingColonAccepted` | src/libevent/evutil.c:1722-1725 | for every address, its eight words with a colon behind the last one are accepted |
| `IPv6Language.PrefixAccepted` | src/libevent/evutil.c:1708-1721 | `0x` in front of a word of at most two digits changes nothing |
| `IPv6Language.SignsAccepted` | src/libevent/evutil.c:1688-1691 | how the second to fourth numbers are spelled, with blanks, a sign or leading zeros, makes no difference as long as the number is the same |
| `IPv6.GapIsFirstLongest` | src/libevent/evutil.c:1604-1621 | the gap is the first of the longest runs of zero words, of at least two words (RFC 5952, section 4.2) |
| `IPv6.HexOfWord` | src/libevent/evutil.c:1633-1635 | words are printed in lower case without leading zeros (RFC 5952, sections 4.1 and 4.3) |
| `IPv6Code.TextShort` | src/libevent/evutil.c:1578 | no text has more than 39 characters, so the buffer of 64 suffices |
| `IPv6Code.InetNtop` | src/libevent/evutil.c:1576-1644 | succeeds if and only if the characters fit, and then stores the text padded with NUL; else stores nothing |
| `IPv6Code.Terminated` | src/libevent/evutil.c:1641-1643 | what is stored is a terminated string if and only if there is room for the terminator as well, which the check does not ask for |
| `IPv6Code.NtopUnterminated` | src/libevent/evutil.c:1641-1643 | for every address some size of the destination gets a success without a terminator |
| `IPv6Code.FindGap` | src/libevent/evutil.c:1604-1621 | the nested loops find the gap of the specification |
| `IPv6Code.WriteWords` | src/libevent/evutil.c:1623-1640 | the output loop writes the text of the specification |
| `IPv6Code.ReadWords` | src/libevent/evutil.c:1705-1734 | the word loop computes what the specification of parsing says |
| `IPv6Code.FillGap` | src/libevent/evutil.c:1741-1750 | memmove and memset restore the eight words; the result -1 is impossible |
| `IPv6Code.InetPton` | src/libevent/evutil.c:1671-1756 | the result is 1 and the address stored exactly when the specification accepts the text, else 0 and nothing stored |
| `ProtoAnalyzer.Transfer` | src/libproto_analyzer/protocol_analyzer.c:516-642 | what one side generates from disjoint fields on a zeroed message the other side parses: every value is recovered, or its low bits if it is too large for its field, variable lengths included if they fit |
| `ProtoAnalyzer.Analyzer.Generate` | src/libproto_analyzer/protocol_analyzer.c:516-597 | the fields come to stand where recomputation puts them and the message holds as much of all of them as fits |
| `ProtoAnalyzer.Analyzer.Parse` | src/libproto_analyzer/protocol_analyzer.c:598-642 | a message from the same format gives every value of the sender as far as its field holds it, at the same positions and lengths |
| `ProtoAnalyzer.Analyzer.RecomputeBytePos` | src/libproto_analyzer/protocol_analyzer.c:317-349 | the looked-up length moves all later fields, positions kept in eight bits; -1 when the field is not found |
| `ProtoAnalyzer.FieldsMove` | src/libproto_analyzer/protocol_analyzer.c:338-346 | every field comes to stand where it is configured plus, modulo 256, the whole bytes of all variable fields in front of it |
| `ProtoAnalyzer.StandsBehind` | src/libproto_analyzer/protocol_analyzer.c:317-349 | so a field that is configured at the place of a variable one stands right behind it |
| `ProtoAnalyzer.LengthSettled` | src/libproto_analyzer/protocol_analyzer.c:336 | whose length is the one that was looked up, in 16 bits |
| `ProtoAnalyzer.Analyzer.ResetVlenFlag` | src/libproto_analyzer/protocol_analyzer.c:643-671 | positions and flags go back to those configured |
| `ProtoAnalyzer.ResetForgetsShifts` | src/libproto_analyzer/protocol_analyzer.c:317-349 | after a reset new values lead to the layout they would have on the fields as configured: shifts do not accumulate |
| `ProtoFields.SetProtocolBitData` | src/libproto_analyzer/protocol_analyzer.c:415-443 | the bit field is or-ed into the message, most significant bit first, across byte boundaries |
| `ProtoFields.GetProtocolBitData` | src/libproto_analyzer/protocol_analyzer.c:485-515 | the bits of the field are collected, most significant first |
| `ProtoFields.FieldRoundTrip` | src/libproto_analyzer/protocol_analyzer.c:415-515 | what is collected is what was written, as far as it fits |
| `ProtoFields.PositionsAgree` | src/libproto_analyzer/protocol_analyzer.c:438-441 | the position that the writer sets to 7 and the one that wraps modulo 256 in the reader agree modulo eight |
| `ProtoFields.SetProtocolByteData` | src/libproto_analyzer/protocol_analyzer.c:403-414 | big-endian bytes are stored and nothing else changes |
| `ProtoFields.GetProtocolByteData` | src/libproto_analyzer/protocol_analyzer.c:467-484 | they are read back |
| `ProtoFields.SetBitDataBits` | src/libproto_analyzer/protocol_analyzer.c:66-70 | which bits of the byte are set |
| `ProtoFields.GetBitDataBits` | src/libproto_analyzer/protocol_analyzer.c:62-65 | which bits are taken |
| `Blob.WalkRecovers` | src/libblob/blob.c:181-266 | walking the records of a region visits them without gap, ends, and recovers the tree, for names of at most 249 bytes |
| `Blob.RecordRead` | src/libblob/blob.c:181-207 | the accessors report what was written and the next record is right behind; the data length is right if and only if the name has at most 249 bytes |
| `Blob.LongNameMisread` | src/libblob/blob.c:203-207 | with a name of 250 bytes it is wrong |
| `Blob.RecordLayout` | src/libblob/blob.c:83-110 | a record is its kind, its length, the length of its name and terminator, both in network order, the name, the terminator, the value |
| `BlobCode.BuiltIsWalked` | src/libblob/blob.c:83-186 | the bracketed calls for a tree yield exactly its encoding, and a walk gives the tree back |
| `BlobCode.CallsBuild` | src/libblob/blob.c:83-169 | whatever tables are open, the calls for some records add exactly these |
| `BlobCode.Builder.Add` | src/libblob/blob.c:83-110 | the record is appended to the innermost open table |
| `BlobCode.Builder.TableStart` | src/libblob/blob.c:145-153 | a table is opened |
| `BlobCode.Builder.TableEnd` | src/libblob/blob.c:155-169 | its length is patched into its header, which makes it a record |
| `BlobCode.Builder.Catenate` | src/libblob/blob.c:171-180 | a record from elsewhere is appended |
| `BlobCode.Builder.AddNumber` | src/libblob/blob.c:112-133 | numbers are stored big-endian under their kind |
| `BlobCode.Builder.AddU8` | src/libblob/blob.c:112-115 | one byte under its kind |
| `BlobCode.Builder.AddString` | src/libblob/blob.c:135-138 | a string is stored with its terminator |
| `BlobCode.NumberRoundTrip` | src/libblob/blob.c:112-133 | big-endian bytes stand for the number they were made of |
| `BlobCode.FirstByteWeighs` | src/libblob/blob.c:112-133 | of which the first weighs most |
| `BlobCode.NumberRead` | src/libblob/blob.c:209-228 | a number that was added is read back from its record, wherever that stands in a buffer |
| `BlobCode.Perform` | src/libblob/blob.c:83-180 | any sequence of calls, catenations included, that ends no more tables than it starts leaves what the specification says |
| `BlobCode.BuildWhole` | src/libblob/blob.c:83-186 | after any well-bracketed sequence of calls on an empty blob, with names of at most 249 bytes, the bytes are the encoding of the records built, and a walk over the blob gives these back |
| `BlobCode.CallsKeepShort` | src/libblob/blob.c:83-180 | short names in all calls lead to short names in all records |
| `BlobCode.ParseToAttr` | src/libblob/blob.c:247-266 | every policy gets the last matching record of the walk |
| `BlobCode.LastMatchIsLast` | src/libblob/blob.c:253-261 | which is the last record whose name begins with the name of the policy |
| `Handoff.HandoffIsSafe` | src/libconcurrent/concurrent.c:155-181 | in every interleaving a slave that has read its byte finds a message; messages are executed in push order, each at most once, and all of them when the system has drained |
| `Handoff.StepKeepsBalance` | src/libconcurrent/concurrent.c:506-530 | the length of the queue is the bytes in all pipes plus the pushed but not notified plus the read but not popped, in every step |
| `Handoff.Shared.DetachFront` | src/libconcurrent/concurrent.c:169-175 | the queue is never empty where a slave detaches |
| `Handoff.Shared.NotifySlave` | src/libconcurrent/concurrent.c:501-519 | exactly the pipe of one existing slave gets a byte, that of the count of tasks modulo the number of slaves |
| `Handoff.ByteGoesInTurn` | src/libconcurrent/concurrent.c:487-519 | the slaves are notified in turn, by the number of tasks added so far: slave i after i tasks more than a multiple of the number of slaves, as long as that number fits in eight bits |
| `MasterQueue.RequestsMatchIffAlike` | src/libconcurrent/concurrent.c:606-660 | at any point where the bytes written match so far: whatever happens next without another push, all requests are carried out as meant if and only if no two programs between push and write have requests of different kinds |
| `MasterQueue.AlikeRequestsMatch` | src/libconcurrent/concurrent.c:606-660 | if that is so at every point of a run, every byte meets a message of its kind |
| `MasterQueue.UnlikeCanMismatch` | src/libconcurrent/concurrent.c:606-660 | if it is not so at one point, the requests that are pending can be mixed up |
| `MasterQueue.RequestsHandledInOrder` | src/libconcurrent/concurrent.c:327-378 | in any interleaving the k-th byte handled is the k-th written and meets the k-th message pushed |
| `MasterQueue.ExclusiveRequestsMatch` | src/libconcurrent/concurrent.c:606-660 | if pairs of push and write do not interleave, each byte meets its message |
| `MasterQueue.InterleavedRequestsMismatch` | src/libconcurrent/concurrent.c:606-660 | an interleaving in which an event that was to be added is deleted |
| `IniDictionary.Dictionary.Set` | src/libini/iniparser.c:302-349 | for any hash function the map is updated; the size doubles exactly when a new key meets a full dictionary |
| `IniDictionary.Dictionary.Get` | src/libini/iniparser.c:263-280 | the value or the default is returned, but for a key of hash 0 with a hole before its slot, which is compared with a null pointer |
| `IniDictionary.AskedForHashZero` | src/libini/iniparser.c:263-280 | a new dictionary asked for a key of hash 0 compares it with a null pointer |
| `IniDictionary.Dictionary.Unset` | src/libini/iniparser.c:360-389 | the key is removed and nothing else |
| `IniDictionary.Dictionary.Double` | src/libini/iniparser.c:328-335 | doubling keeps the contents and leaves a free slot |
| `IniDictionary.HoleExists` | src/libini/iniparser.c:337-346 | there is a free slot if and only if the dictionary is not full |
| `IniDictionary.EmptyKeyHasHashZero` | src/libini/iniparser.c:188-203 | the empty key has hash 0 |
| `IniDictionary.HashOfA` | src/libini/iniparser.c:188-203 | the hash of a key of one letter |

## Left out

- System calls, locks, sockets, pipes as system objects and real clocks; signals (`src/libevent/signal.c`).
- Allocation failure, except where a function promises an unchanged state.
- Common timeouts in the base of event.c: no function of the repository creates a common timeout list, so a base that starts zeroed never has one; the lists themselves are in `CommonTimeout`.
- `event_base_priority_init` after events have been assigned, `event_base_free`, `event_assign` on an event that is still queued, and `event_gotterm`, which nothing sets.
- JSON numbers that are not integers: `%f`, `%e` and `pow`; parsing returns mantissa and decimal exponent as they are collected. Overflow of sizes above 2^30 and of exponents.
- `*ep`, the error pointer of the JSON parser, after a failed allocation; what it is otherwise is computed as in the code, without a law of its own. Printing of a string item whose pointer is null.
- The parser builds sequences of children, not linked nodes; `JsonChildren` models the links for the functions that change them. `cjson_duplicate` and references share nodes and are not modelled.
- `evutil_inet_ntop` and `evutil_inet_pton` for IPv4; overflow of `int` inside `sscanf`.
- How EPOLLHUP, EPOLLERR and their like in poll.c become EV_READ and EV_WRITE, and the growth of the array of `epoll_wait`: reports are inputs.
- The loop of `dictionary_hash` is a fold over the characters.
- The bits of `fd_set` within machine words: the sets of select are arrays of bits.
- In the loop one reading of the clock stands for all those at the start of a round; the wait is computed, but not tied to the time that passes in the backend. `event_base_loop` called while it runs, which returns -1.
- The records of evmap are values in a sequence; aliasing of pointers to them is not captured.
- Looking up fields by name through the hash map and its limit of 15 characters; `protocol_data_len`; positions above the message of 100 bytes.
- Blob buffers that are too small: nothing in blob.c checks, so room is required. `array_stack` is a sequence.
- The INI file parser, the ctype tables, logging, `src/libbus`, `src/libiw`, `src/libdbg`, `src/libargs`, `src/libstate_machine` and the demos.
- The slab allocator, hash map, vector and red-black tree, whose bodies are not part of this model.
