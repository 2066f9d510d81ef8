# Verified model of the network driver

This project models the event loop, transports, timeouts, serializer and text formats of the network-driver library
(`libnet/`, `src/`) in Dafny and proves what they keep over whole runs. Sockets, kernel, clock and applications are
parameters: every result of a system call, every order of completions, every reaction of an application is covered.

The code is modelled as it is written. Where it does not do what its documentation or its other half suggests, the model
keeps the code's behaviour and a theorem states exactly when the intended property holds ("... exactly when ..." in the
table below is an if and only if over all inputs).

`dafny verify dfyconfig.toml` checks everything.

## Files

| file | models |
|---|---|
| `Managers.dfy`, `ManagerResult.dfy` | operation masks, `manager_base`, `manager_result` |
| `Interest.dfy` | what a multiplexer is to keep track of: who is registered, who waits to read, who waits to write |
| `Kqueue.dfy`, `KqueueRuns.dfy` | registry, masks, the lazy change log, cross-thread commands and graceful shutdown on kqueue, and its runs against a simple loop |
| `Epoll.dfy`, `EpollRuns.dfy` | the eager interest set, shutdown loop and event results on epoll, and its runs against a simple loop |
| `Ownership.dfy` | `ref_counted`, `intrusive_ptr`, and references in registry, pipe and submissions |
| `Timeouts.dfy`, `TimeoutIds.dfy`, `TimeoutOwners.dfy`, `PollWaits.dfy` | the timeout sets with re-entrant callbacks, the fate of every id, the manager it reaches, and the poll waits derived from the deadline |
| `StreamOutput.dfy`, `StreamInput.dfy` | the stream transport's write queue and read policies |
| `UringStream.dfy`, `UringStreamFifo.dfy`, `UringDatagram.dfy` | the io_uring transports: single writer, order of bytes, out-of-order completions |
| `Dispatcher.dfy` | the datagram dispatcher and its endpoint wrappers |
| `Serialization.dfy`, `CommandPipe.dfy` | serializer, deserializer, size calculator, pipe commands |
| `Strings.dfy`, `Addresses.dfy`, `Uri.dfy`, `Config.dfy` | split and join, decimal numbers, IPv4 text, URIs, config files |
| `Checksum.dfy` | the IPv4 header checksum |
| `ByteBuffers.dfy`, `Options.dfy`, `Arithmetic.dfy` | byte sequences and their concatenation; a value or none; facts about division |

Each module first defines the behaviour on values, proves the theorems about it, and then gives the classes and loops of
the source as methods whose contracts equate their effect with that behaviour.

## Where code and intent part

- Stream write queue: after a partial erase the byte count is not cleared, so later buffers are trimmed too, and the length
  of an iovec is never refreshed. FIFO order holds for writes that stop on a buffer boundary; inside the last buffer the
  queue is right but its iovec still covers bytes already sent (`RemovalExactness`, `WriteExactness`, `StaleIovecExample`).
  Sending those takes the byte counter below zero; with an empty queue the transport then never asks its application
  again, and write events never end in done (`DoneExactness`, `StarvedForever`, `StarvedExample`).
- Buffer cache: its size is compared with `max_enqueued_bytes_`, not with `max_cached_write_buffers_` (`CacheLimit`).
- Receive policies with a minimum above the maximum, or a maximum of 0, end in a zero-byte read, which is taken for a
  disconnect (`PolicyExactness`); reconfiguring while bytes wait drops them (`ConfigureExactness`).
- Timeouts are ordered by time alone, so a second one for the same moment gets an id and never fires (`EqualTimesExample`,
  `ArmExactness`, `PassExactness`, `WholeOverRuns`). A timeout whose manager is gone throws out of the loop, or reaches the
  manager that has its descriptor now (`TimeoutOwners.ReachesSetter`, `ReuseExample`).
- io_uring assigns `tv_nsec` twice, so waits of a second or more are cut (`UringWaitExactness`).
- kqueue maps `read_accept` to no filter, so shutdown leaves the read filters of surviving writers enabled
  (`Kqueue.ShutdownExactness`). Adopting a manager after the loop was told to stop leaves it registered with a loop that
  ends (`AddFlagExactness`).
- epoll's deletion by iterator lacks the negation, so shutdown ends the loop at once and cuts survivors off
  (`Epoll.PrematureExit`, `Epoll.ShutdownFlagExactness`); a finished write is reported as a finished read, so it never ends
  writing (`WriteDoneExactness`, `WritersNeverFinish`); removing a descriptor that is gone shuts everything down
  (`Epoll.DelExactness`).
- A request to shut down looks at the flag before it writes to the pipe; when the loop shuts down in between, the write
  fails and terminates the process (`LateRequestExactness`, `LateRequestExample`).
- kqueue and epoll handle events through bare references: a manager that raises a shutdown it does not survive, as the
  acceptor does when accepting fails, loses its registration, and with it perhaps its last reference, while it is still
  being used (`Kqueue.BareReferenceExactness`, `Epoll.BareReferenceExactness`, `Ownership.RemovalExactness`).
- `reset()` gives up before it takes (`CopyAssignExactness`). Failed pipe writes, finished multishot submissions, and add
  commands that are still in the pipe when its reader leaves leak a reference (`LeakExactness`).
- io_uring stream: a temporary error clears the write bit, rightly, but the completion of the poll that follows submits a
  write without setting it again, and a completed write whose successor cannot be submitted leaves it set. After the
  former, two writes of the same head can be in flight (`StepExactness`, `PollExactness`, `TwoWritersExample`).
- io_uring datagrams: a fetch that yields nothing while the application has more stalls the transport
  (`SubmitExactness`, `AwaitedOverRuns`); the books stay right (`BookkeepingOverRuns`).
- On io_uring a datagram that a layer sends may make the transport ask all layers for more in the middle of the call, so
  data or a timeout for one endpoint can change the layers of others (`EnqueueAsks`, `ConsumeReaches`, `TimeoutRouting`,
  `ReplyAsksExample`).
- The dispatcher keeps a layer whose initialisation failed and would deliver later data to it (`ConsumeExactness`,
  `ProperOverRuns`). Its callers in the library never do that: the transport hands on the error that `consume` answers
  and the multiplexer removes the manager (`InitialisedOverLibraryRuns`).
- The checksum folds its carry once; for every header some destination address gets a wrong one (`SomeDestinationFails`).
- A URI without "://" is its own scheme (`CutExactness`). Delimiters that overlap themselves tear pieces apart
  (`DelimiterExactness`); none of those used does.
- The documentation of `config::parse` says that entries are added; the code replaces all of them.

## Model

| member | source | states |
|---|---|---|
| Managers.MaskLaws | libnet/net/operation.hpp:71-102 | how joining and clearing act on the read and write bits of every mask below `accept` |
| Managers.Manager.constructor | src/net/detail/manager_base.cpp:21-24 | a manager starts with an empty mask |
| Managers.Manager.MaskAdd | src/net/detail/manager_base.cpp:37-43 | the flag is joined in, and a change is reported exactly when some bit of it was missing |
| Managers.Manager.MaskDel | src/net/detail/manager_base.cpp:45-51 | the flag is cleared, and a change is reported exactly when some bit of it was set |
| Kqueue.ReplayAppend | src/net/detail/kqueue_multiplexer.cpp:166-174 | replaying a log in two parts is replaying it whole, so deferring changes to the next poll does not alter them |
| Kqueue.AddExactness | src/net/detail/kqueue_multiplexer.cpp:77-91 | adding keeps registry and kernel in agreement exactly when the descriptor is free or its holder has the very same mask |
| Kqueue.EnableAgrees | src/net/detail/kqueue_multiplexer.cpp:100-109 | enabling keeps every filter enabled exactly when its bit is in the mask |
| Kqueue.DisableAgrees | src/net/detail/kqueue_multiplexer.cpp:111-123 | disabling, with or without removal, keeps the agreement |
| Kqueue.EnableExactness | src/net/detail/kqueue_multiplexer.cpp:100-109 | enabling adds exactly the bits asked for, and changes nobody else |
| Kqueue.DisableExactness | src/net/detail/kqueue_multiplexer.cpp:111-123 | disabling takes away the one bit and keeps the other; a manager leaves exactly when it is to be removed and had no other bit; nobody else changes |
| Kqueue.DelAgrees | src/net/detail/kqueue_multiplexer.cpp:125-133 | deleting leaves no filter of the descriptor behind, so that it can be reused |
| Kqueue.DelExactness | src/net/detail/kqueue_multiplexer.cpp:125-133 | exactly the one manager goes, and the running flag exactly with the last one during shutdown |
| Kqueue.AddSeen | src/net/detail/kqueue_multiplexer.cpp:77-91 | the manager is registered for what it starts with, unless the descriptor is taken |
| Kqueue.ShutdownExactness | src/net/detail/multiplexer_base.cpp:49-69 | shutdown keeps the agreement exactly when nobody but the pipe reader both reads and writes |
| Kqueue.ShutdownSurvivors | src/net/detail/multiplexer_base.cpp:54-67 | after the shutdown loop every survivor but the pipe reader has no read or accept bit and a non-empty mask |
| Kqueue.ShutdownSeen | src/net/detail/multiplexer_base.cpp:49-69 | shutdown keeps the pipe reader as it is and of the others exactly those that write, for writing alone |
| Kqueue.ShutdownFlagExactness | src/net/detail/multiplexer_base.cpp:49-69 | shutdown keeps "stopped exactly when drained" precisely when somebody was registered or it was under way |
| Kqueue.AddFlagExactness | src/net/detail/kqueue_multiplexer.cpp:77-91 | adding keeps "stopped exactly when drained" precisely while the loop has not been told to stop |
| Kqueue.SafetyOverRuns | src/net/detail/multiplexer_base.cpp:38-80 | over every interleaving of requesters, pipe and loop, with what init() of managers adopted through the pipe does: the loop is told to stop exactly when shutdown has begun and the registry is empty, the pipe is open for writing exactly until shutdown, its reader only reads, and kernel and masks agree |
| Kqueue.StartedSafely | libnet/net/detail/multiplexer_base.hpp:94-136 | the state init and start leave satisfies the run invariant |
| KqueueRuns.StartsReading | libnet/net/detail/multiplexer_base.hpp:94-136 | pipe reader and acceptor are registered, and wait to read |
| KqueueRuns.DoneExactness | src/net/detail/kqueue_multiplexer.cpp:222-236 | done on a write ends writing and keeps a manager that also reads, and the other way round |
| KqueueRuns.StepRefines | src/net/detail/kqueue_multiplexer.cpp:219-268 | every step does to registry, readers, writers and pipe what the simple loop does, callbacks included |
| KqueueRuns.RunRefines | src/net/detail/multiplexer_base.cpp:38-80 | over every run registry, readers, writers, pipe and shutdown are those of the simple loop, and the multiplexer is told to stop exactly when that has shut down and nobody is left |
| Kqueue.LateRequestExactness | src/net/detail/multiplexer_base.cpp:70-78 | a shutdown command written some steps after the flag was looked at finds the pipe open exactly if none of them ran the shutdown loop |
| Kqueue.LateRequestExample | src/net/detail/multiplexer_base.cpp:68-78 | of two requests the second finds the pipe closed by the first |
| Kqueue.BareReferenceExactness | src/net/detail/kqueue_multiplexer.cpp:222-266 | a manager stays registered all through its event's callback exactly if it survives every shutdown the callback raises |
| Kqueue.ShutdownStartsDraining | src/net/detail/multiplexer_base.cpp:49-69 | shutdown, wherever it is called, leaves everybody but the pipe reader only writing, and nobody new can come, exactly unless the pipe reader stays with an add command to read |
| Kqueue.CommandStartsDraining | src/net/detail/pollset_updater.cpp:53-56 | reading the shutdown command starts draining whatever waits behind it in the pipe |
| Kqueue.DrainingStep | src/net/detail/kqueue_multiplexer.cpp:219-268 | while draining no step registers anybody, and a manager whose writing is done, that fails or whose peer is gone, leaves; the pipe reader leaves by the shutdown command or the end of the pipe |
| Kqueue.GracefulExit | src/net/detail/multiplexer_base.cpp:38-80 | if every registered manager leaves at some point and nobody starts new work, the registry ends empty and the loop is told to stop |
| Kqueue.ShutdownCompletes | src/net/detail/multiplexer_base.cpp:38-80 | from the start, over any run in which the shutdown command is read, with other commands still behind it: once everybody left has left, the registry is empty and the loop is told to stop |
| Kqueue.Multiplexer.constructor | libnet/net/detail/multiplexer_base.hpp:317-325 | initial flags, empty registry and empty log |
| Kqueue.Multiplexer.Mod | src/net/detail/kqueue_multiplexer.cpp:148-175 | one change, or two for read_write, is appended to the log |
| Kqueue.Multiplexer.EnableOp | src/net/detail/kqueue_multiplexer.cpp:100-109 | mask and pending table as in the model; nothing is logged when no bit is new |
| Kqueue.Multiplexer.DisableOp | src/net/detail/kqueue_multiplexer.cpp:111-123 | the new state is the model's, including removal of a manager with an empty mask |
| Kqueue.Multiplexer.DelManager | src/net/detail/kqueue_multiplexer.cpp:125-146 | the new state is the model's; the running flag falls with the last manager during shutdown |
| Kqueue.Multiplexer.AddManager | src/net/detail/kqueue_multiplexer.cpp:77-91 | the new state is the model's; an entry that exists is kept; a failed init() shuts the multiplexer down |
| Kqueue.Multiplexer.ShutdownLoop | src/net/detail/multiplexer_base.cpp:49-69 | the loop with deletion during iteration, in any order of visits, computes the closed form of shutdown |
| Kqueue.Multiplexer.SubmitChanges | src/net/detail/kqueue_multiplexer.cpp:201-206 | kevent applies the log and empties it; what registry and kernel agree on stays the same |
| Kqueue.Multiplexer.HandleResult | src/net/detail/kqueue_multiplexer.cpp:222-236 | done disables, error deletes, everything else does nothing |
| Epoll.DelExactness | src/net/detail/epoll_multiplexer.cpp:99-105 | removing keeps registry and interest set equal; shutdown follows exactly when the descriptor was not registered |
| Epoll.FlagExactness | src/net/detail/epoll_multiplexer.cpp:118-132 | reading and writing are polled for exactly if they are asked for, alone or together |
| Epoll.DisableExactness | src/net/detail/epoll_multiplexer.cpp:89-97 | disabling takes away the one bit and keeps the other; a manager leaves exactly when it is to be removed and had no other bit |
| Epoll.ShutdownSeen | src/net/detail/multiplexer_base.cpp:49-69 | shutdown keeps the pipe reader as it is and of the others exactly those that write, for writing alone |
| Epoll.AddExactness | src/net/detail/epoll_multiplexer.cpp:73-80 | adding keeps them equal exactly when the descriptor is free or its holder survives the shutdown a refused addition causes |
| Epoll.ShutdownFlagExactness | src/net/detail/epoll_multiplexer.cpp:107-116 | the shutdown loop leaves the running flag right exactly when it removes nobody, or all of at least two |
| Epoll.PrematureExit | src/net/detail/multiplexer_base.cpp:49-69 | with the pipe reader registered, shutdown on epoll stops the loop at once exactly when some other manager is not waiting to write |
| Epoll.AgreementOverRuns | src/net/detail/epoll_multiplexer.cpp:73-140 | over every run the watched descriptors are the registered ones, polled for what their masks say, with descriptors reused |
| EpollRuns.RunRefines | src/net/detail/epoll_multiplexer.cpp:171-209 | over every run registry, readers, writers and shutdown are those of a simple loop, in which a finished write ends reading and removing somebody who is gone shuts down |
| Epoll.WritersNeverFinish | src/net/detail/epoll_multiplexer.cpp:171-209 | over every run a manager that waits to write stays registered for it until it fails or hangs up, whatever it reports |
| Epoll.BareReferenceExactness | src/net/detail/epoll_multiplexer.cpp:171-209 | a manager stays registered all through its event's callback exactly if it survives every shutdown the callback raises |
| Epoll.WriteDoneExactness | src/net/detail/epoll_multiplexer.cpp:202-206 | the answer to a finished write is the right one exactly for a manager that neither reads nor writes |
| Epoll.Multiplexer.constructor | src/net/detail/epoll_multiplexer.cpp:39-65 | empty registry and interest set |
| Epoll.Multiplexer.Control | src/net/detail/epoll_multiplexer.cpp:133-140 | epoll_ctl refuses to add what is watched and to change or remove what is not |
| Epoll.Multiplexer.ModFd | src/net/detail/epoll_multiplexer.cpp:118-140 | the change is applied, or the error shuts the multiplexer down |
| Epoll.Multiplexer.AddManager | src/net/detail/epoll_multiplexer.cpp:73-80 | the new state is the model's, refused additions included; a failed init() shuts the multiplexer down |
| Epoll.Multiplexer.EnableOp | src/net/detail/epoll_multiplexer.cpp:82-87 | the new state is the model's |
| Epoll.Multiplexer.HandleResult | src/net/detail/epoll_multiplexer.cpp:172-181 | done disables what it was told, error deletes and ends the event |
| Epoll.Multiplexer.DisableOp | src/net/detail/epoll_multiplexer.cpp:89-97 | the new state is the model's |
| Epoll.Multiplexer.DelManager | src/net/detail/epoll_multiplexer.cpp:99-105 | the new state is the model's |
| Epoll.Multiplexer.DelByIterator | src/net/detail/epoll_multiplexer.cpp:107-116 | the new state is the model's, with the test as written |
| Epoll.Multiplexer.ShutdownLoop | src/net/detail/multiplexer_base.cpp:49-69 | the loop, in any order of visits, computes the closed form of shutdown on epoll |
| Ownership.ResetExactness | libnet/util/intrusive_ptr.hpp:89-94 | reset to an object uses it after deletion exactly when the pointer was its only holder; otherwise counts stay right |
| Ownership.CopyAssignExactness | libnet/util/intrusive_ptr.hpp:130-133 | copy assignment is unsafe exactly for a sole holder assigned to itself |
| Ownership.SwapCounts | libnet/util/intrusive_ptr.hpp:96-125 | swapping, and so move assignment, changes no count |
| Ownership.StepExactness | src/net/detail/uring_multiplexer.cpp:92-99 | every pointer operation, hand-over, submission (of managers outside the registry too) and completion keeps counts equal to holders, and only the one unsafe assignment counts on a deleted object |
| Ownership.StepMoves | libnet/net/detail/multiplexer_base.hpp:184-204 | every step moves exactly the references it is to move: who is added or read from the pipe is registered unless the descriptor is taken, who is handed over waits in the pipe, who is removed, destroyed or completed gives up its reference |
| Ownership.RegisteredStays | libnet/net/detail/multiplexer_base.hpp:184-204 | over every run, who is registered stays so and is not deleted until it is removed |
| Ownership.AddedStays | src/net/detail/pollset_updater.cpp:47-51 | what is added under a free descriptor, or read from the pipe, is held by the registry from then on, and not deleted, until it is removed |
| Ownership.OwnershipOverRuns | libnet/util/ref_counted.hpp:41-50 | over every interleaving, no reference operation touches a deleted object if and only if no sole holder is assigned to itself; then count equals holders in pointers, registry, pipe and submissions, and nothing is deleted twice |
| Ownership.RemovalExactness | libnet/net/detail/multiplexer_base.hpp:198-224 | a manager removed from the registry while an event handler runs on it is still there exactly if something else holds it |
| Ownership.LeakExactness | src/net/detail/kqueue_multiplexer.cpp:92-97 | once everything has been given up, every object has been deleted exactly once if and only if no pipe write failed, no multishot submission ended and every add command in the pipe was read |
| Ownership.HandOverKeeps | src/net/detail/pollset_updater.cpp:47-51 | counting up before the write and adopting without counting moves exactly one reference through the pipe |
| Ownership.ReleaseKeeps | src/net/detail/uring_multiplexer.cpp:228-232 | releasing into the pipe moves the reference without a count |
| Ownership.RefCounted.constructor | libnet/util/ref_counted.hpp:22-58 | a new object has count 1 |
| Ownership.RefCounted.AddRef | libnet/util/ref_counted.hpp:41-43 | one more reference |
| Ownership.RefCounted.Release | libnet/util/ref_counted.hpp:43-50 | one less; the object is gone exactly when none is left |
| Ownership.IntrusivePtr.constructor | libnet/util/intrusive_ptr.hpp:37-43 | the pointer manages the object and counts itself only when asked to |
| Ownership.IntrusivePtr.ResetTo | libnet/util/intrusive_ptr.hpp:85-94 | old object one less, new object one more, unless they are the same |
| Ownership.IntrusivePtr.SwapWith | libnet/util/intrusive_ptr.hpp:96-98 | the pointers exchange their objects |
| Ownership.IntrusivePtr.GiveAway | libnet/util/intrusive_ptr.hpp:100-109 | the pointer is null and the count unchanged |
| Ownership.IntrusivePtr.Assign | libnet/util/intrusive_ptr.hpp:127-133 | both point to the object, which counts one more unless it was the same |
| Ownership.IntrusivePtr.Destroy | libnet/util/intrusive_ptr.hpp:74-81 | one reference less, and the object is gone exactly with the last |
| Timeouts.PassFires | src/net/detail/multiplexer_base.cpp:113-143 | a pass fires a prefix of the pending entries, so in time order, none early, and everything expired at its start, stopping only at a missing owner |
| Timeouts.ArmRecords | src/net/detail/multiplexer_base.cpp:101-111 | setting a timeout makes it pending under the next id for its owner and time, unless its time is taken, and the deadline the earlier one |
| Timeouts.RequestsOverRuns | src/net/detail/multiplexer_base.cpp:101-143 | over every run the ids handed out are those of the timeouts set by managers and by callbacks that ran, in that order |
| Timeouts.RunKeeps | src/net/detail/multiplexer_base.cpp:101-143 | in every reachable state no id fires twice, no fired entry is pending, and the cached deadline is the earliest pending time or absent |
| Timeouts.DeadlineIsMinimum | src/net/detail/multiplexer_base.cpp:135-142 | the deadline is absent exactly when nothing is pending and otherwise the minimum |
| TimeoutIds.ArmExactness | libnet/net/timeout_entry.hpp:52-63 | setting a timeout loses none exactly when no pending one has the same time |
| TimeoutIds.PassExactness | src/net/detail/multiplexer_base.cpp:113-143 | a completed pass loses no id exactly when the entries left and those its callbacks set have distinct times |
| TimeoutIds.IdConservation | src/net/detail/multiplexer_base.cpp:101-143 | when all requested times are distinct and owners registered, the ids handed out are the disjoint union of pending and fired |
| TimeoutIds.WholeOverRuns | src/net/detail/multiplexer_base.cpp:101-143 | at every point of a run every id is pending or has fired, if and only if no timeout is set for a time that is taken and every pass completes without two entries for one time |
| TimeoutIds.EqualTimesExample | libnet/net/timeout_entry.hpp:61-63 | two timeouts for one moment: the second never fires |
| TimeoutOwners.DeliveredRight | src/net/detail/multiplexer_base.cpp:121-125 | an entry that fires reaches the manager that set it exactly if that has not been removed |
| TimeoutOwners.RoutingOverRuns | src/net/detail/multiplexer_base.cpp:101-143 | over every run, with descriptors reused, managers that set timeouts hold their descriptor until they are removed, and fired entries are routed so |
| TimeoutOwners.ReachesSetter | src/net/detail/multiplexer_base.cpp:101-143 | from the start, every fired id reached the manager that set it exactly if that was still registered |
| TimeoutOwners.ReuseExample | libnet/net/timeout_entry.hpp:28-33 | a timeout of one manager handed to the next holder of its descriptor |
| PollWaits.EpollWaitExactness | src/net/detail/epoll_multiplexer.cpp:144-154 | the wait covers the gap and overshoots by less than a millisecond exactly when its milliseconds fit an int |
| PollWaits.KqueueWaitExact | src/net/detail/kqueue_multiplexer.cpp:181-200 | seconds and nanoseconds add up to the gap, with nanoseconds below one second |
| PollWaits.UringWaitExactness | src/net/detail/uring_multiplexer.cpp:287-303 | the wait is the gap exactly when that is below one second |
| PollWaits.NoWait | src/net/detail/epoll_multiplexer.cpp:142-154 | a poll that is not to block, or whose deadline has passed, does not wait; one without a deadline has no limit |
| PollWaits.NoMissedWakeup | src/net/detail/epoll_multiplexer.cpp:142-154 | in every reachable state a poll on epoll or kqueue blocks without limit only if nothing is pending, and otherwise wakes for the earliest entry: less than a millisecond late on epoll (gaps that fit an int), to the nanosecond on kqueue |
| Timeouts.Scheduler.constructor | libnet/net/detail/multiplexer_base.hpp:327-333 | nothing pending, next id 0 |
| Timeouts.Scheduler.SetTimeout | src/net/detail/multiplexer_base.cpp:101-111 | the new state is the model's and the id is the next one |
| Timeouts.Scheduler.RunCallback | src/net/detail/multiplexer_base.cpp:123-125 | a callback's timeouts go into the live set while the cached one is walked |
| Timeouts.Scheduler.HandleTimeouts | src/net/detail/multiplexer_base.cpp:113-143 | the loop over the swapped set computes the model's pass |
| StreamOutput.RemovalExactness | libnet/net/detail/stream_transport.hpp:142-173 | removing written bytes leaves exactly the rest of the queue if and only if the write stopped on a boundary or in the last buffer |
| StreamOutput.WriteExactness | libnet/net/detail/stream_transport.hpp:127-173 | order, contents, counter and iovecs all survive a partial write exactly when it stopped on a boundary |
| StreamOutput.EnqueueExactness | libnet/net/detail/stream_transport.hpp:90-95 | an enqueue puts exactly the bytes at the end of the queue, in a buffer that its iovec spans, and asks to write |
| StreamOutput.EnqueueCopyExactness | libnet/net/detail/stream_transport.hpp:97-101 | the copying form does the same with a buffer of the cache |
| StreamOutput.WroteCounts | libnet/net/detail/stream_transport.hpp:142-173 | wherever a write stopped, it took what the iovecs describe, the counter falls by as many modulo 2^64, and buffers taken off the queue join the cache while that has room |
| StreamOutput.FifoConservation | libnet/net/detail/stream_transport.hpp:90-173 | over every run, bytes sent followed by bytes queued are the bytes enqueued at every point, with right counter and iovecs, if and only if every write stopped on a boundary |
| StreamOutput.RunOffers | libnet/net/detail/stream_transport.hpp:90-101 | the bytes enqueued over a run are those its steps and its application offer, told by them alone |
| StreamOutput.FifoOverRuns | libnet/net/detail/stream_transport.hpp:90-173 | after every run whose writes stop on boundaries, bytes sent and queued are those of before followed by what steps and application offered, in order |
| StreamOutput.StaleIovecExample | libnet/net/detail/stream_transport.hpp:90-95 | a write that stops inside a buffer sends a byte twice |
| StreamOutput.EventShape | libnet/net/detail/stream_transport.hpp:250-269 | a write event makes at most max-consecutive-writes + 1 writes, ends with the first that is not accepted and answers its failure, and answers done only with an empty queue and a dry application |
| StreamOutput.FetchIsRun | libnet/net/detail/stream_transport.hpp:180-192 | a fetch asks the application at most max-consecutive-fetches times |
| StreamOutput.FetchExactness | libnet/net/detail/stream_transport.hpp:180-192 | a fetch asks again and again and stops exactly at the limit of calls, when enough is enqueued or when there is no more |
| StreamOutput.WriteProgress | libnet/net/detail/stream_transport.hpp:142-173 | every write that takes something leaves strictly less to do |
| StreamOutput.EventuallyDone | libnet/net/detail/stream_transport.hpp:250-269 | all chunks of a finite application are delivered behind what was offered before, in order, within a bounded number of write events, when every write takes something and stops on a boundary |
| StreamOutput.DoneExactness | libnet/net/detail/stream_transport.hpp:250-269 | wherever the writes stop, as long as each takes something, a finite application is done within a bounded number of write events if and only if the queue is never empty with a counter that forbids to fetch |
| StreamOutput.StarvedForever | libnet/net/detail/stream_transport.hpp:180-192 | in that state no write event changes anything or answers done |
| StreamOutput.StarvedExample | libnet/net/detail/stream_transport.hpp:142-192 | stale bytes sent take the counter below zero and lead there |
| StreamOutput.CacheLimit | libnet/net/detail/transport_base.hpp:70-72 | the cache respects its documented limit exactly when the other limit is not larger |
| StreamOutput.StreamWriter.constructor | libnet/net/detail/stream_transport.hpp:209-219 | nothing queued, nothing sent |
| StreamOutput.StreamWriter.GetBuffer | libnet/net/detail/transport_base.hpp:53-60 | the buffer handed out is empty, and taken from the front of the cache |
| StreamOutput.StreamWriter.ReturnBuffer | libnet/net/detail/transport_base.hpp:62-67 | an empty buffer joins the cache while it has room |
| StreamOutput.StreamWriter.EnqueueBuffer | libnet/net/detail/stream_transport.hpp:90-95 | iovec, counter and queue grow together |
| StreamOutput.StreamWriter.EnqueueSpan | libnet/net/detail/stream_transport.hpp:97-101 | enqueues exactly the bytes, in a recycled buffer |
| StreamOutput.StreamWriter.TrimQueue | libnet/net/detail/stream_transport.hpp:147-167 | the loop over the buffers computes the model's trimming and the number of empty buffers |
| StreamOutput.StreamWriter.RemoveWrittenData | libnet/net/detail/stream_transport.hpp:142-173 | the new state is the model's |
| StreamOutput.StreamWriter.ProduceMore | libnet/net/detail/stream_transport.hpp:184-186 | one call of the next layer enqueues its chunks in order |
| StreamOutput.StreamWriter.FetchMoreData | libnet/net/detail/stream_transport.hpp:180-192 | the bounded loop computes the model's fetch and its verdict |
| StreamOutput.StreamWriter.HandleWriteEvent | libnet/net/detail/stream_transport.hpp:250-269 | the loop computes the model's write event, verdict and number of writes |
| StreamInput.ReadOnceExactness | libnet/net/detail/stream_transport.hpp:104-125 | a read takes what there is and fits; the next layer gets all received bytes, in order, exactly when the minimum is there; verdicts, and the policy then in force |
| StreamInput.ReadEventExactness | libnet/net/detail/stream_transport.hpp:235-247 | a read event reads until a read is not answered ok, which it answers, and at most as often as allowed |
| StreamInput.LastPolicyHolds | libnet/net/detail/stream_transport.hpp:79-86 | of several policies set in one consume the last one holds |
| StreamInput.ReadOnceConserves | libnet/net/detail/stream_transport.hpp:104-125 | one read loses and repeats nothing, a consumed chunk lies between minimum and maximum, and done means disconnect |
| StreamInput.ReadEventConserves | libnet/net/detail/stream_transport.hpp:235-247 | over a whole read event everything read is consumed or waits in the buffer |
| StreamInput.ConfigureExactness | libnet/net/detail/stream_transport.hpp:79-86 | reconfiguring loses nothing exactly when nothing waits |
| StreamInput.PolicyExactness | libnet/net/detail/stream_transport.hpp:197-200 | the read window never closes, over all reads, exactly for policies with 0 < max and min <= max |
| StreamInput.WindowStaysOpen | libnet/net/detail/stream_transport.hpp:197-200 | between reads there is always room to read into |
| StreamInput.StreamReader.constructor | libnet/net/detail/stream_transport.hpp:209-217 | nothing received, nothing consumed |
| StreamInput.StreamReader.ConfigureNextRead | libnet/net/detail/stream_transport.hpp:79-86 | received is cleared, minimum and buffer size are the policy's |
| StreamInput.StreamReader.Consume | libnet/net/detail/stream_transport.hpp:115-121 | the next layer gets the chunk and may reconfigure |
| StreamInput.StreamReader.HandleReadResult | libnet/net/detail/stream_transport.hpp:104-125 | the new state and verdict are the model's |
| StreamInput.StreamReader.HandleReadEvent | libnet/net/detail/stream_transport.hpp:235-247 | the bounded loop computes the model's read event |
| UringStream.EnqueueKeeps | libnet/net/detail/stream_transport.hpp:294-303 | enqueueing keeps one writer, whether or not the submission it causes succeeds |
| UringStream.FetchWhileWriting | src/net/detail/manager_base.cpp:63-67 | with the write bit set, fetching does not re-enter |
| UringStream.EnqueueExactness | libnet/net/detail/stream_transport.hpp:294-303 | with the bit set an enqueue only queues; with the bit clear it submits the whole queue in one write exactly if an entry is free |
| UringStream.NextExactness | libnet/net/detail/stream_transport.hpp:333-350 | what every completion is answered, what is queued and what is in flight afterwards |
| UringStream.StepExactness | src/net/detail/uring_multiplexer.cpp:338-349 | a step keeps "write bit set exactly when one write, of the head of the queue, is in flight" unless it completes a poll and submits a write, or completes a write and fails to submit with more to write |
| UringStream.SingleWriterOverRuns | libnet/net/detail/stream_transport.hpp:286-356 | this holds at every point of a run if and only if the run has no such step |
| UringStream.PollExactness | libnet/net/detail/stream_transport.hpp:343-350 | when a poll completes, whatever was enqueued before, the bit stays right exactly if nothing is left or no entry is free, and two writes are in flight exactly when an enqueue had set the bit again |
| UringStream.TwoWritersExample | libnet/net/detail/stream_transport.hpp:333-350 | two writes of the same head at once |
| UringStreamFifo.FifoOverRuns | libnet/net/detail/stream_transport.hpp:286-356 | at every point of a run the bytes the kernel took followed by those queued are the bytes offered, with one truthful write and a right counter, if and only if every write stops on a boundary, no completed poll submits and no completed write fails to submit its successor |
| UringStreamFifo.FetchedIs | libnet/net/detail/stream_transport.hpp:180-192 | a fetch offers just what the application gives up, each byte once |
| UringStreamFifo.FetchedIsInOrder | libnet/net/detail/stream_transport.hpp:180-192 | while the write bit is set it offers the application's bytes in their order |
| UringStream.StreamTransport.constructor | libnet/net/detail/stream_transport.hpp:278-284 | nothing queued, nothing in flight |
| UringStream.StreamTransport.Submit | src/net/detail/uring_multiplexer.cpp:181-190 | the queue's head is handed over exactly when an entry is free |
| UringStream.StreamTransport.EnqueueBytes | libnet/net/detail/stream_transport.hpp:90-95 | the new state is the model's, through the re-entrant enable |
| UringStream.StreamTransport.EnableWrite | src/net/detail/uring_multiplexer.cpp:246-259 | the bit is set, and taken back unless a write was submitted |
| UringStream.StreamTransport.FetchMoreData | libnet/net/detail/stream_transport.hpp:180-192 | the loop computes the model's fetch, re-entry included |
| UringStream.StreamTransport.HandleWriteCompletion | libnet/net/detail/stream_transport.hpp:333-350 | the new state and verdict are the model's |
| UringStream.StreamTransport.HandlePollCompletion | libnet/net/detail/stream_transport.hpp:343-350 | the new state and verdict are the model's; a failed submission is not noticed |
| UringDatagram.CompletionMatches | libnet/net/detail/datagram_transport.hpp:363-370 | the search by id finds exactly the datagram that was submitted under it |
| UringDatagram.FetchWhileWriting | libnet/net/detail/datagram_transport.hpp:206-218 | with the write bit set, fetching does not re-enter |
| UringDatagram.EnqueueAsks | libnet/net/detail/datagram_transport.hpp:139-144 | an enqueue makes the transport ask its application at once exactly when the write bit is clear and a fetch is allowed |
| UringDatagram.SubmitFromExactness | libnet/net/detail/datagram_transport.hpp:397-410 | exactly the datagrams that wait are submitted, in queue order under ids in order, as far as free entries go; an error is answered exactly when those do not suffice |
| UringDatagram.EnqueueExactness | libnet/net/detail/datagram_transport.hpp:139-144 | with the bit clear everything that waits is submitted, the new datagram included, and the bit stays set, exactly if the free entries suffice |
| UringDatagram.SubmitVerdict | libnet/net/detail/datagram_transport.hpp:391-411 | done when nothing is queued or to come, an error exactly when there are too few entries |
| UringDatagram.VerdictExactness | libnet/net/detail/datagram_transport.hpp:363-382 | what every completion is answered |
| UringDatagram.TemporaryExactness | libnet/net/detail/datagram_transport.hpp:176-200 | a send that fails for now leaves its datagram to be submitted again, clears the bit and starts a poll if an entry is free |
| UringDatagram.SubmitExactness | libnet/net/detail/datagram_transport.hpp:391-411 | done means everything enqueued was sent; a set write bit is left without a completion to come exactly when the queue was empty and a fetch yields nothing although the application has more |
| UringDatagram.CompletionKeeps | libnet/net/detail/datagram_transport.hpp:176-200 | a completion in any order removes its datagram, or marks it unsubmitted, and keeps the books |
| UringDatagram.BookkeepingOverRuns | libnet/net/detail/datagram_transport.hpp:363-411 | until an error verdict, stalled or not, submitted datagrams and outstanding sends match one to one, everything enqueued is sent once or still queued, and the counter is the queued total |
| UringDatagram.NothingLost | libnet/net/detail/datagram_transport.hpp:139-218 | over every run, every datagram the steps or the application brought is sent once, queued, or not asked for yet |
| UringDatagram.AwaitedOverRuns | libnet/net/detail/datagram_transport.hpp:363-411 | at every point of such a run a set write bit means that a completion is to come, if and only if no completed send leaves the queue empty with a fetch that yields nothing though there is more |
| UringDatagram.StartsMatched | libnet/net/detail/multiplexer_base.hpp:109-133 | the books are right for a transport that starts after init consumed ids 0 and 1 |
| UringDatagram.DatagramTransport.constructor | libnet/net/detail/datagram_transport.hpp:231-242 | nothing queued, nothing in flight |
| UringDatagram.DatagramTransport.SubmitSendmsg | src/net/detail/uring_multiplexer.cpp:207-214 | the datagram is handed over under the next id exactly when an entry is free |
| UringDatagram.DatagramTransport.SubmitLoop | libnet/net/detail/datagram_transport.hpp:397-410 | every unsubmitted datagram gets an id in order, up to the first failure |
| UringDatagram.DatagramTransport.SubmitDatagrams | libnet/net/detail/datagram_transport.hpp:391-411 | the new state and verdict are the model's, re-entry included |
| UringDatagram.DatagramTransport.FetchMoreData | libnet/net/detail/datagram_transport.hpp:206-218 | the bounded loop computes the model's fetch |
| UringDatagram.DatagramTransport.EnqueueDatagram | libnet/net/detail/datagram_transport.hpp:139-144 | the new state is the model's, through the re-entrant enable |
| UringDatagram.DatagramTransport.EnableWrite | src/net/detail/uring_multiplexer.cpp:246-259 | the bit is set, and taken back unless submitting succeeded |
| UringDatagram.DatagramTransport.HandleWriteCompletion | libnet/net/detail/datagram_transport.hpp:363-382 | the new state and verdict are the model's |
| UringDatagram.DatagramTransport.FindDatagram | libnet/net/detail/datagram_transport.hpp:364-370 | the first datagram with the id, or the end |
| Dispatcher.ActAllReaches | libnet/net/detail/datagram_dispatcher.hpp:86-95 | whatever a layer does in a call, and however deep produce nests, every layer is asked for more as often as counted on its acts and hears nothing else |
| Dispatcher.ProduceReaches | libnet/net/detail/datagram_dispatcher.hpp:86-95 | produce asks the layers in turn up to the first that does not answer ok, and those they cause to be asked |
| Dispatcher.ConsumeReaches | libnet/net/detail/datagram_dispatcher.hpp:109-116 | data reaches its endpoint's layer exactly when that exists or can be initialised; another layer changes if and only if a datagram sent meanwhile makes the transport ask it |
| Dispatcher.ReplyAsksExample | libnet/net/detail/datagram_transport.hpp:139-144 | a reply to one endpoint changes the layer of another |
| Dispatcher.ConsumeExactness | libnet/net/detail/datagram_dispatcher.hpp:133-143 | data reaches only initialised layers exactly when none arrives for a layer whose initialisation failed, which was answered with an error |
| Dispatcher.TimeoutRouting | libnet/net/detail/datagram_dispatcher.hpp:118-130 | a fired id reaches exactly the layer that set it, and an unknown one none; another layer changes if and only if a datagram sent meanwhile makes the transport ask it |
| Dispatcher.RoutingOverRuns | libnet/net/detail/datagram_dispatcher.hpp:28-63 | over every run, with produce entered out of enqueues, layers are created once, initialised first and only once, hear only their own timeouts and send only to their own endpoint |
| Dispatcher.EffectsOverRuns | libnet/net/detail/datagram_dispatcher.hpp:28-63 | over every run, what is sent is what the layers sent, in order, each to its own endpoint, and every timeout they set got the next id, which leads back to them |
| Dispatcher.VerdictExactness | libnet/net/detail/datagram_dispatcher.hpp:109-130 | data for a layer that cannot be initialised and unknown ids are errors; everything else is answered with what the layer answers |
| Dispatcher.ProduceVerdict | libnet/net/detail/datagram_dispatcher.hpp:86-95 | produce answers what the first layer that is not content answers, and ok if there is none |
| Dispatcher.ProperOverRuns | libnet/net/detail/datagram_dispatcher.hpp:109-143 | over every run, also of a caller that goes on after an error, data reaches initialised layers only, exactly when no datagram arrives for a layer whose initialisation failed |
| Dispatcher.InitialisedOverLibraryRuns | libnet/net/detail/datagram_transport.hpp:164-169 | where nothing is received after an error, as in the library, none ever does, and data reaches initialised layers only |
| Dispatcher.DatagramDispatcher.constructor | libnet/net/detail/datagram_dispatcher.hpp:74-77 | no layers and no timeouts |
| Dispatcher.DatagramDispatcher.EnqueueFor | libnet/net/detail/datagram_endpoint_wrapper.hpp:27-35 | the data carries the layer's endpoint, and the transport may enter produce at once |
| Dispatcher.DatagramDispatcher.SetTimeoutFor | libnet/net/detail/datagram_dispatcher.hpp:46-63 | the id is the multiplexer's next one and is mapped to the layer's endpoint |
| Dispatcher.DatagramDispatcher.FindLayer | libnet/net/detail/datagram_dispatcher.hpp:133-143 | the layer exists afterwards; an error is answered exactly when it is new and not initialised |
| Dispatcher.DatagramDispatcher.ConsumeData | libnet/net/detail/datagram_dispatcher.hpp:109-116 | the new state and verdict are the model's |
| Dispatcher.DatagramDispatcher.FireTimeout | libnet/net/detail/datagram_dispatcher.hpp:118-130 | the new state and verdict are the model's |
| Dispatcher.DatagramDispatcher.ProduceData | libnet/net/detail/datagram_dispatcher.hpp:86-95 | the layers are asked in turn up to the first that does not answer ok, entering itself again where an enqueue does |
| Serialization.SizeExactness | libnet/util/serialized_size.hpp:55-146 | the size computed in advance is the length of the encoding, for every nested value |
| Serialization.LittleEndianDigits | libnet/util/binary_serializer.hpp:51-58 | byte i of a number is its digit of the i-th power of 256 |
| Serialization.ElementsInOrder | libnet/util/binary_serializer.hpp:113-137 | elements of a range are written one after the other |
| Serialization.ComponentsInOrder | libnet/util/binary_serializer.hpp:62-109 | so are components of tuples and visited objects |
| Serialization.RangeLayout | libnet/util/binary_serializer.hpp:113-137 | a range has its number of elements in front, in eight bytes |
| Serialization.ArrayExactness | libnet/util/binary_deserializer.hpp:82-139 | a range read into an array keeps the elements behind it and is rejected exactly if it does not fit |
| Serialization.BulkCheckExactness | libnet/util/binary_deserializer.hpp:114-139 | the check of a trivial range for its length rejects exactly what decoding its elements would |
| Serialization.RoundTrip | libnet/util/binary_deserializer.hpp:39-139 | decoding an encoding followed by anything yields the value and leaves exactly what followed |
| Serialization.PrefixRejected | libnet/util/binary_deserializer.hpp:44-139 | every strict prefix of an encoding is rejected |
| Serialization.CallsAppend | libnet/util/binary_serializer.hpp:40-44 | successive calls write the concatenated encodings |
| Serialization.MemoryIsEncoding | libnet/util/binary_serializer.hpp:113-124 | the memory copy of a trivial range is what its elements would be written as one by one |
| Serialization.Serializer.constructor | src/util/binary_serializer.cpp:13-16 | the free window is the whole buffer |
| Serialization.Serializer.Realloc | src/util/binary_serializer.cpp:18-24 | the window stays a suffix, starts where it did, is large enough, and grows only if it was too small |
| Serialization.Serializer.SerializeValue | libnet/util/binary_serializer.hpp:51-109 | writes the encoding at the window and nothing else, without reallocating, nested visits included |
| Serialization.Serializer.SerializeRange | libnet/util/binary_serializer.hpp:113-137 | writes count and elements, for trivial and other elements alike |
| Serialization.Serializer.Call | libnet/util/binary_serializer.hpp:40-44 | reserves, then writes all encodings; does not reallocate when the space was reserved before |
| Serialization.Deserializer.constructor | libnet/util/binary_deserializer.hpp:31-33 | reads from the given bytes |
| Serialization.Deserializer.Deserialize | libnet/util/binary_deserializer.hpp:44-110 | value, rest and error are those of decoding |
| Serialization.Deserializer.DeserializeRange | libnet/util/binary_deserializer.hpp:114-139 | elements, rest and error are those of decoding, with the bulk check for trivial elements |
| CommandPipe.MessageRecovered | src/net/detail/pollset_updater.cpp:33-41 | the three-part read recovers code, manager and operation of every command |
| CommandPipe.CommandsRecovered | libnet/net/detail/multiplexer_base.hpp:296-302 | scattered reads recover exactly the sequence of commands written and leave an incomplete message alone |
| Strings.JoinSplit | src/util/format.cpp:16-49 | joining what was split gives back the text |
| Strings.SplitJoinExactness | src/util/format.cpp:16-49 | splitting what was joined gives back the pieces exactly when none holds the delimiter, for delimiters that do not overlap themselves |
| Strings.DelimiterExactness | src/util/format.cpp:16-49 | all delimiter-free pieces survive joining and splitting if and only if the delimiter does not overlap itself |
| Strings.ParseExactness | libnet/util/format.hpp:98-104 | a text parses to a number exactly when the number fits and the text is its decimal form behind zeros |
| Strings.DecimalDigits | libnet/util/format.hpp:98-104 | digit k from the right of a printed number is that of the k-th power of ten, without leading zeros |
| Strings.SplitText | src/util/format.cpp:16-26 | the loop computes the recursive split |
| Strings.JoinTexts | src/util/format.cpp:41-49 | the loop computes the join |
| Strings.WithoutKeeps | src/util/format.cpp:51-56 | what is removed is gone and all other characters stay |
| Strings.RemoveChar | src/util/format.cpp:51-56 | the text without the character, in order |
| Addresses.AddressExactness | src/net/ip/v4_address.cpp:36-56 | a text parses to an address exactly when it is the four octets, each behind any zeros, with dots between |
| Addresses.AddressRoundTrip | src/net/ip/v4_address.cpp:28-56 | every address survives printing and parsing |
| Addresses.EndpointRoundTrip | src/net/ip/v4_endpoint.cpp:30-52 | every endpoint survives printing and parsing |
| Addresses.NetworkOrder | src/net/ip/v4_endpoint.cpp:17-60 | in memory the port has its most significant byte first, and the address is the same |
| Addresses.SockaddrRoundTrip | src/net/ip/v4_endpoint.cpp:17-60 | endpoints and socket addresses convert into each other without loss, both ways |
| Addresses.ParseV4Address | src/net/ip/v4_address.cpp:36-56 | the loop over the parts computes the model's parse |
| Addresses.ParseV4Endpoint | src/net/ip/v4_endpoint.cpp:34-52 | address and port, or the error |
| Uri.CutExactness | src/net/uri.cpp:33-45 | reassembling the pieces gives back the text exactly when "://" occurs in it |
| Uri.ParseIsLossless | src/net/uri.cpp:33-53 | with exactly one "://" the text is scheme, authority, path, queries and fragments put together again (RFC 3986, section 3) |
| Uri.AssembleExactness | src/net/uri.cpp:21-45 | cutting an assembled text gives back its pieces exactly when none holds a mark that is looked for before it ends |
| Uri.PrintExactness | src/net/uri.cpp:33-53 | printing components and parsing them gives them back exactly when their text is well-formed |
| Uri.ExtractParts | src/net/uri.cpp:21-27 | remainder and parts joined are the source |
| Uri.ParseText | src/net/uri.cpp:33-53 | the constructor computes the model's parse, or throws |
| Config.PrefixRefinesNames | src/util/config.cpp:91-119 | prefix string and length stack do what a stack of scope names would do, errors included |
| Config.SumOfLengths | src/util/config.cpp:107-113 | the lengths on the stack add up to the prefix |
| Config.PrintedItems | src/util/config.cpp:91-119 | parsing printed items binds their dotted paths in order and comes back to the same scope |
| Config.ReadBackExactness | src/util/config.cpp:99-99 | reading lines from a file gives back the lines it was written from exactly when none holds a line break |
| Config.PrintThenParse | src/util/config.cpp:69-119 | parsing the file a tree is printed to gives the dotted-path dictionary with the first binding of a key winning, and fails exactly when some value is an error |
| Config.BlanksIgnored | src/util/config.cpp:100-104 | lines that differ in blanks only mean the same |
| Config.ClassifyExactness | src/util/config.cpp:26-89 | which values are which booleans, integers, doubles, text, or errors |
| Config.AssignmentExactness | src/util/config.cpp:69-89 | a line binds what stands before its only '=' to the value behind it, unless that is bound, and fails exactly if a side is empty, there is another '=', or the value is an error |
| Config.AddEntry | src/util/config.cpp:69-89 | the binding, its classified value, or the error |
| Config.GetLine | src/util/config.cpp:99-99 | takes the next line off the file, the last one with or without its line break |
| Config.ParseFile | src/util/config.cpp:91-119 | the loop over the lines of the file computes the model's parse |
| Checksum.ChecksumExactness | libnet/packet/ip.hpp:85-98 | the stamped header verifies exactly when the single fold leaves no carry (RFC 791, section 3.1; RFC 1071, section 1) |
| Checksum.SecondFoldSuffices | libnet/packet/ip.hpp:96-97 | a second fold makes every header verify |
| Checksum.SomeDestinationFails | libnet/packet/ip.hpp:96-97 | unless all else is zero, some destination address gets a checksum that does not verify |
| Checksum.CalculateChecksum | libnet/packet/ip.hpp:85-98 | the loop stamps the header as the model does |

## Left out

- Kqueue.GracefulExit: assumes that every manager leaves at some point; whether a peer ever lets it is up to the network.
- Kqueue.SafetyOverRuns: a shutdown request is one step, and LateRequestExactness says what happens when its check and its write are apart; poll errors, which end the loop at once, are not part of the runs; new descriptors are assumed free, and the pipe's add-commands carry descriptors instead of addresses.
- Epoll.AgreementOverRuns: additions from other threads, which epoll does not hand over through the pipe, are not interleaved below the level of one call.
- Epoll.WritersNeverFinish: a manager destroyed while its own event is handled is modelled by its descriptor; the pointer used after that is not (BareReferenceExactness says when it would be).
- Kqueue.BareReferenceExactness: what the handler then does with the object that is gone is not modelled; runs go on with its descriptor.
- UringDatagram.BookkeepingOverRuns: runs end with an error verdict, after which the manager is removed and its queue goes with it.
- StreamOutput.EventuallyDone: in order for writes that stop on a boundary; for others FifoConservation says that order is lost, and DoneExactness what is left of progress.
- StreamOutput.DoneExactness: memory that an iovec still describes is taken to be there, with its length; what other buffers do to it once it was recycled is not modelled.
- Kqueue.Multiplexer.AddManager: init() is failure or success here; what else it does to the multiplexer is in the actions of the runs.
- Epoll.Multiplexer.AddManager: a manager whose init() fails while its descriptor is held by one that does not survive shutdown is not part of the contract; it is registered unwatched then, and removing it is refused, which shuts down again and again without end.
- Dispatcher.ConsumeReaches: when the transport asks for more is a parameter of each datagram sent; EnqueueAsks says when the io_uring transport does, and the two state machines are not run as one.
- Dispatcher.InitialisedOverLibraryRuns: that the multiplexers remove a manager after an error is taken from their code, not derived across modules.
- UringStream.StepExactness: an iovec array that moves while the kernel reads it is not modelled; a write names the buffers it was submitted with.
- Ownership.OwnershipOverRuns: uses of a manager through the bare reference of an event handler are not reference operations and not part of the runs; atomicity of the counter is assumed, memory order is not modelled.
- Serialization.RoundTrip: C arrays, which can be serialized but have no deserializer, and allocation failures on absurd counts are not part of the model.
- Config.PrintThenParse: which doubles the library can read is a parameter, and their numeric value is kept as text.
- Strings.JoinSplit: an empty delimiter, on which splitting does not end, is excluded.
- The io_uring multiplexer's own shutdown, which has epoll's missing negation and removes managers past the running check, and its completion loop.
- The pipe reader and the acceptor on io_uring, and the acceptor's system calls.
- The datagram transport on epoll and kqueue, whose write loop is the simple case of the io_uring one.
- TLS, raw socket wrappers, socket guards, the command line parser, regular-expression formatting, logging and error types.
- UDP, Ethernet and DNS headers, which only assign fields.
- The in-place use of deques, vectors and maps is modelled by fields holding sequences and maps that methods reassign.
