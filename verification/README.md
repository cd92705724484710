# Verification of the runtime of the SFU

A Dafny model of the concurrency, buffer and encoding code that the media
server stands on, and of two functions of the browser adapter, with proofs of
what that code promises. `dafny verify dfyconfig.toml` checks all of it.

Objects whose methods update their fields are classes with those fields; the
loops of the source are loops. Their contracts tie the new state to functions
on values, and what the source promises is proved about these functions, over
all inputs, all runs and all interleavings.

- `Basics.dfy`: an option type, bytes, letters, powers.
- `SendGraph.dfy`: the graph of blocking sends between threads. The search for
  cycles has no visited set; it ends because the graph is acyclic, which the
  search in turn keeps; its deque gets as long as there are paths.
- `DelayedMessages.dfy`, `QueueSpec.dfy`, `QueueRuns.dfy`, `QueueOrder.dfy`,
  `QueueQuit.dfy`, `MessageQueue.dfy`: the message queue of a thread. The heap of delayed
  messages, pushed, popped, compacted and reheaped in place, refines a sorted
  list; the queue refines a ready list with that schedule, under whatever other
  threads do while the lock is free. A post is two atomic steps, the test of the
  quit flag and the push under the lock. Every message is accounted for, none
  comes early or out of its order, and it is settled what quitting guarantees.
- `AsyncInvoker.dfy`: the teardown of an invoker as a state machine of atomic
  steps, sequentially consistent, with closures that are made, posted, run,
  cleared and destroyed on any thread, and the destructor anywhere, inside one
  of the invoker's own functors too.
- `EventLoopSpec.dfy`, `EventLoopRuns.dfy`, `EventLoop.dfy`: the registry of
  dispatchers, its keys, and the interest list of epoll, across batches of
  events whose handlers close, create, enable and delete sockets.
- `CopyOnWrite.dfy`, `CopyOnWriteRuns.dfy`: handles and shared, counted payloads;
  each handle behaves as a byte sequence of its own, over any number of handles
  and any sequence of operations.
- `Buffer.dfy`: the growable block under it, with the history of every cell
  (never touched, written, zeroed) and the cost of growing.
- `DtlsSpec.dfy`, `DtlsAdapter.dfy`: the DTLS adapter. OpenSSL, the wrapped
  stream and the event handlers, which may call the adapter again before they
  return, are a script of answers about which nothing is assumed.
- `Words.dfy`, `Crc32.dfy`: 32-bit words as bits, and the CRC with a table
  against the CRC bit by bit.
- `Word64.dfy`: 64-bit words as numbers of seven bits a digit.
- `IpPrefix.dfy`: prefixes of addresses, and the bit-twiddling that counts the
  bits of a mask.
- `ByteBuffer.dfy`, `Fingerprint.dfy`, `IceCandidate.dfy`: codecs, with their
  round trips.
- `StatsWalk.dfy`: the walk through the graph of statistics against
  reachability.

## What the code does not keep

Four promises turn out to hold under a condition only. The condition is proved
to be exact, and a lemma shows an input outside it.

- The comment at thread.h:281-285 promises that further posts fail once a thread
  is stopped, and that ready posts, and delayed ones whose time has come, are
  delivered before `Get` returns false. A post that tested the flag before the
  quit still enters (`QueueQuit.PassedEntersAfterQuit`), and nothing else does
  (`QueueQuit.OnlyPassedEntersAfterQuit`). A post that enters after the last
  search for messages is left behind (`QueueQuit.PostThenQuitIsMissed`,
  `QueueQuit.PostAcrossQuitIsMissed`); so is a delayed one already due that
  enters after the last scan of the heap, even during the search
  (`QueueQuit.ExpiredPostIsMissed`); and so is one that comes due after that scan,
  in particular in the wait up to the deadline of the call, after which the clock
  is read again and the heap is not (`QueueQuit.ExpiredInWaitIsMissed`). This is
  all that can be left behind (`QueueQuit.QuitDeliversUnless`). If no post takes
  the lock in the last round and the call has no deadline, the promise holds by
  the clock as the call last read it (`QueueQuit.WithoutPostsDelivers`).
- The destructor of an invoker waits for all its closures. If the thread that
  runs it is at that moment in a functor of the invoker, or destroying one, it
  waits for itself (`AsyncInvoker.DestroyedByOwnFunctor`); otherwise it can
  always finish (`AsyncInvoker.FinishesIff`). The rule at async_invoker.h:79-90
  does not exclude this.
- The comment at physical_socket_server.cc:923-925 wants a socket that is closed
  and opened again within a batch to have the right old events. If its new
  interest, told to the kernel on registration, is given up again before the
  batch ends, the kernel keeps it (`EventLoopRuns.InterestLeftBehind`). The
  kernel agrees after `OnEvent` exactly if this did not happen
  (`EventLoopRuns.OnEventAgreesIff`).
- SE_OPEN is to come once. Without client authentication a matching digest that
  arrives after the connection is up posts a second one
  (`DtlsSpec.LateDigestOpensTwice`); it comes at most once exactly if there is
  client authentication or no such digest (`DtlsSpec.OpensOnceIff`), and a
  digest is such exactly if `DtlsSpec.Adapter.SetDigest` says so beforehand.

## Model

| member | source | states |
|---|---|---|
| `SendGraph.ThreadManager.CollectTargets` | server/juansfu/rtc_base/thread.cc:174-183 | the worklist search without a visited set ends on every acyclic graph, with a deque that holds exactly the threads reachable from the target, as many entries as there are paths that leave it |
| `SendGraph.ThreadManager.RegisterSendAndCheckForCycles` | server/juansfu/rtc_base/thread.cc:168-188 | the CHECK passes exactly if no path leads from the target back to the source; then the edge is in, otherwise no edge changed; the graph stays acyclic |
| `SendGraph.ThreadManager.RemoveFromSendGraph` | server/juansfu/rtc_base/thread.cc:157-166 | exactly the edges from and to the thread are gone, and the graph stays acyclic |
| `SendGraph.NewEdgeAcyclicIff` | server/juansfu/rtc_base/thread.cc:185-187 | inserting an edge into an acyclic graph keeps it acyclic if and only if its end does not reach its start |
| `SendGraph.NoGroupWaitsOnlyForItself` | server/juansfu/rtc_base/thread.cc:168-188 | what the check is for: of any group of threads blocked in a send, one waits only for threads outside the group |
| `SendGraph.PathsFrom` | server/juansfu/rtc_base/thread.cc:174-183 | the paths that leave a thread of an acyclic graph are finitely many, and their number is the measure by which the search ends |
| `SendGraph.SearchStep` | server/juansfu/rtc_base/thread.cc:174-183 | handling one entry of the deque keeps it reached-only, expanded, and of the same number of paths |
| `SendGraph.ExpandedIsReachSet` | server/juansfu/rtc_base/thread.cc:174-183 | a deque whose entries are all expanded holds everything reachable |
| `SendGraph.CheckedInsert` | server/juansfu/rtc_base/thread.cc:185-188 | the edge that the check admits keeps the graph acyclic, also with the empty entries that the search created |
| `SendGraph.WalkSplitsAtNewEdge` | server/juansfu/rtc_base/thread.cc:185-188 | a walk that uses a new edge splits into walks of the old graph at its ends |
| `DelayedMessages.PriorityQueue.Push` | server/juansfu/rtc_base/thread.h:528-532 | the pushed message is inserted into the sorted schedule by run time and then number, and the vector is a heap of it |
| `DelayedMessages.PriorityQueue.Pop` | server/juansfu/rtc_base/thread.h:528-532 | the first message of the sorted schedule is removed, and the vector is a heap of the rest |
| `DelayedMessages.PriorityQueue.Reheap` | server/juansfu/rtc_base/thread.h:531 | any vector becomes a heap of the same messages, in place |
| `DelayedMessages.TopIsGreatest` | server/juansfu/rtc_base/thread.h:514-518 | the first element of a heap is not before any other in the order of the operator |
| `DelayedMessages.TopIsFirst` | server/juansfu/rtc_base/thread.h:514-518 | the top of the heap is the first message of the schedule, by run time and then number |
| `DelayedMessages.InsertKeepsSorted` | server/juansfu/rtc_base/thread.h:514-518 | inserting a message with a new number keeps the schedule sorted |
| `DelayedMessages.KeepMembers` | server/juansfu/rtc_base/thread.cc:678-692 | of each message the copies kept are those that do not match |
| `DelayedMessages.KeepNumbered` | server/juansfu/rtc_base/thread.cc:678-692 | what is kept stays in the order of the schedule |
| `QueueRuns.EveryRunIsGood` | server/juansfu/rtc_base/thread.cc:450-551 | after every timed run of flag tests, pushes, clears, quits, gets and peeks from a new queue: each message posted is in exactly one of on its way, pending, peeked, delivered, disposed, cleared and discarded; the schedule is sorted; each delivery was due at the clock then read, neither it nor what is in the peek slot is a dispose message, and nothing else is disposed of |
| `QueueRuns.RunKeepsGood` | server/juansfu/rtc_base/thread.cc:450-551 | the same from any good state, over any run |
| `QueueRuns.StepKeepsGood` | server/juansfu/rtc_base/thread.cc:450-551 | one command keeps the account; a message returned is due and is no dispose message; `Get` hands it over last of all delivered so far, `Peek` leaves it in the slot |
| `QueueRuns.TestKeepsGood` | server/juansfu/rtc_base/thread.cc:559-562 | a post is refused exactly if the queue is quitting, and is otherwise on its way |
| `QueueRuns.ClearEmpties` | server/juansfu/rtc_base/thread.cc:647-693 | clearing for no handler and any identifier leaves nothing, for one handler nothing of that one, for one handler and one identifier nothing of both, and all the rest |
| `QueueRuns.FetchKeepsGood` | server/juansfu/rtc_base/thread.cc:474-551 | `Get`, with whatever other threads do while the lock is free, keeps the account and never returns a message early |
| `QueueRuns.RoundKeepsGood` | server/juansfu/rtc_base/thread.cc:478-549 | one round of `Get` keeps the account |
| `QueueRuns.PassKeepsGood` | server/juansfu/rtc_base/thread.cc:486-518 | the locked pass keeps the account: due messages move over, dispose messages are disposed of |
| `QueueRuns.PromoteMovesDue` | server/juansfu/rtc_base/thread.cc:488-501 | the scan of the heap moves exactly the messages whose time has come, in the order of the schedule, behind the ready ones |
| `QueueRuns.OpKeepsGood` | server/juansfu/rtc_base/thread.cc:553-693 | a flag test, a push, a clear or a quit of any thread keeps the account |
| `QueueRuns.ClearCounts` | server/juansfu/rtc_base/thread.cc:647-693 | of a message that matches, every copy in the queue is removed and none is left; of any other, none is removed |
| `QueueRuns.PeekGetSymmetry` | server/juansfu/rtc_base/thread.cc:450-470 | a peek that finds a message and a get after it are together one get |
| `QueueQuit.QuitDeliversUnless` | server/juansfu/rtc_base/thread.h:281-285 | when a `Get` returns false, a ready message, or one due at any given time, is left in the queue if and only if, in the last round, a post entered it behind the search, or a due one behind the scan, or one came due after the scan, and no later Clear took it out; the clock is read after that scan only if the call ends by its deadline; if its waits succeed, it returns false only when quitting or after its deadline |
| `QueueQuit.LastRoundLeaves` | server/juansfu/rtc_base/thread.cc:478-548 | the same for the last round of the loop, with the last reading of the clock: that of the scan, or the one after the wait by which the deadline is tested |
| `QueueQuit.ReadyLeft` | server/juansfu/rtc_base/thread.cc:553-578 | after any steps of other threads a message is ready exactly if one was and no Clear matched it, or a post slipped one in |
| `QueueQuit.ExpiredLeft` | server/juansfu/rtc_base/thread.cc:598-629 | likewise for delayed messages whose time has come |
| `QueueQuit.WithoutPostsDelivers` | server/juansfu/rtc_base/thread.h:281-285 | if no post takes the lock in the last round, just what came due after its scan is left; a `Get` without a deadline leaves nothing ready, nor due when the clock was last read: then the documented guarantee holds |
| `QueueQuit.NoPushNothingSlips` | server/juansfu/rtc_base/thread.cc:553-578 | if no post takes the lock nothing slips in |
| `QueueQuit.PostThenQuitIsMissed` | server/juansfu/rtc_base/thread.cc:502-522 | a post and a quit after the search: `Get` returns false with the message ready |
| `QueueQuit.PostAcrossQuitIsMissed` | server/juansfu/rtc_base/thread.cc:559-575 | a post that tested the flag before the quit and takes the lock after it: likewise, though the queue was quitting when `Get` began |
| `QueueQuit.ExpiredPostIsMissed` | server/juansfu/rtc_base/thread.cc:486-522 | a delayed post already due that comes while a dispose message is disposed of: `Get` returns false with it in the schedule |
| `QueueQuit.ExpiredInWaitIsMissed` | server/juansfu/rtc_base/thread.cc:540-548 | a message that comes due in the wait up to the deadline, and a quit in it: `Get` reads the clock again and returns false without a further scan, though no post is made |
| `QueueQuit.OnlyPassedEntersAfterQuit` | server/juansfu/rtc_base/thread.cc:553-629 | once quitting, only a post that had found the flag clear before can still enter the queue: of every message, the copies queued or on their way only get fewer |
| `QueueQuit.PassedEntersAfterQuit` | server/juansfu/rtc_base/thread.cc:559-575 | and such a post does enter after the quit |
| `QueueQuit.NeverOversleeps` | server/juansfu/rtc_base/thread.cc:524-533 | a `Get` waits once in every round but perhaps the last, just until the next message then scheduled or the deadline of the call, whichever is first, and without limit only if there is neither |
| `QueueQuit.NoRoundPastDeadline` | server/juansfu/rtc_base/thread.cc:540-548 | every scan of a `Get` but the first comes before its deadline |
| `QueueQuit.GoesOnOnlyIf` | server/juansfu/rtc_base/thread.cc:521-548 | a round is followed by another only if it found nothing, then the quit flag clear, and its wait succeeded and ended before the deadline |
| `QueueQuit.LastFlagCounts` | server/juansfu/rtc_base/thread.cc:437-448 | the queue is quitting exactly if the last step to set the flag was a quit |
| `QueueOrder.FirstInFirstOut` | server/juansfu/rtc_base/thread.cc:575 | over every timed run from a new queue: the undelayed messages delivered, then the one peeked, then those that are ready are in the order in which their posts took the lock, and of these posts just what was disposed of or cleared is missing |
| `QueueOrder.RunKeepsFifo` | server/juansfu/rtc_base/thread.cc:450-578 | the same order and account from any state that has them, over any run |
| `QueueOrder.GetKeepsFifo` | server/juansfu/rtc_base/thread.cc:462-551 | `Get` keeps them, whatever other threads do while the lock is free |
| `QueueOrder.PushKeepsFifo` | server/juansfu/rtc_base/thread.cc:569-576 | a post that takes the lock joins the end of the line |
| `QueueOrder.PromoteKeepsFifo` | server/juansfu/rtc_base/thread.cc:488-501 | messages that come due join it behind the undelayed ones |
| `QueueOrder.DrainKeepsFifo` | server/juansfu/rtc_base/thread.cc:502-518 | the first of the ready messages is taken; dispose messages before it leave the line |
| `QueueOrder.ClearKeepsFifo` | server/juansfu/rtc_base/thread.cc:647-693 | a clear takes messages out of the line and leaves the others in their order |
| `MessageQueue.Thread.TestFlag` | server/juansfu/rtc_base/thread.cc:559-562 | the first step of a post: discarded if quitting, otherwise on its way |
| `MessageQueue.Thread.PushPassed` | server/juansfu/rtc_base/thread.cc:569-576 | the second step, under the lock: the message enters the ready list at its end, or the heap with its number, whatever the flag says by then; the order of these steps is that of `QueueOrder` |
| `MessageQueue.Thread.PostAndBetween` | server/juansfu/rtc_base/thread.cc:598-629 | a whole post, immediate or delayed, with any steps of other threads between its test and its push |
| `MessageQueue.Thread.Quit` | server/juansfu/rtc_base/thread.cc:437-440 | only the quit flag changes |
| `MessageQueue.Thread.Restart` | server/juansfu/rtc_base/thread.cc:446-448 | only the quit flag changes |
| `MessageQueue.Thread.ClearInternal` | server/juansfu/rtc_base/thread.cc:647-693 | the three stores, among them the heap compacted in place and reheaped, become their filtered selves, and the list returned holds exactly what matched, peek first, then ready; the delayed ones in the order of the vector |
| `MessageQueue.Thread.CompactDelayed` | server/juansfu/rtc_base/thread.cc:678-692 | the vector is left with the messages kept, in their order |
| `MessageQueue.Thread.PromoteDue` | server/juansfu/rtc_base/thread.cc:488-501 | the loop over the heap does what the sorted schedule says, and returns the time to the next message |
| `MessageQueue.Thread.TakeReady` | server/juansfu/rtc_base/thread.cc:502-518 | the inner loop does what the model of draining the ready list says, disposing on the way |
| `MessageQueue.Thread.GetOneRound` | server/juansfu/rtc_base/thread.cc:478-549 | one round of the outer loop does what the model says, with the same wait |
| `MessageQueue.Thread.WaitOrStop` | server/juansfu/rtc_base/thread.cc:521-548 | the part of the round after the search does what the model says: the quit flag first, then the wait with the shorter of the two times |
| `MessageQueue.Thread.FetchMessage` | server/juansfu/rtc_base/thread.cc:474-551 | the loops of `Get` return the message, the waits and the queue of the model |
| `MessageQueue.Thread.Get` | server/juansfu/rtc_base/thread.cc:462-551 | `Get` on the heap-based queue is `Get` on the ready list with a sorted schedule |
| `MessageQueue.Thread.Peek` | server/juansfu/rtc_base/thread.cc:450-460 | `Peek` likewise, with the message kept in the slot |
| `AsyncInvoker.NothingTouchesAfterDone` | server/juansfu/rtc_base/async_invoker.cc:23-38 | in every interleaving that obeys the start-of-chain rule of async_invoker.h:79-90, no step touches the invoker after its destructor has finished |
| `AsyncInvoker.PendingCountsClosures` | server/juansfu/rtc_base/async_invoker.cc:84-102 | the counter is the number of closures made and not yet decremented, and none is left at the end |
| `AsyncInvoker.WaitIsNeverStuck` | server/juansfu/rtc_base/async_invoker.cc:29-38 | while the destructor waits on the unsignaled event and its own thread holds no closure, a thread other than its own has a step to take that brings a closure closer to its `Set`; thread and step are returned |
| `AsyncInvoker.FinishesIff` | server/juansfu/rtc_base/async_invoker.cc:23-38 | at any point of the destructor, some run ends it if and only if its own thread holds no closure: no functor of the invoker runs there, and no call or destruction of a closure is in progress there |
| `AsyncInvoker.HomeFreeFromTheStart` | server/juansfu/rtc_base/async_invoker.cc:23-38 | and that is settled when the destructor begins |
| `AsyncInvoker.DestroyedByOwnFunctor` | server/juansfu/rtc_base/async_invoker.cc:29-38 | an invoker destroyed by one of its own functors: the destructor never ends, in no run |
| `AsyncInvoker.NeverDone` | server/juansfu/rtc_base/async_invoker.cc:29-38 | with a closure held by its own thread the destructor does not end |
| `AsyncInvoker.CanFinish` | server/juansfu/rtc_base/async_invoker.cc:23-38 | without one it can: a run to its end is returned |
| `AsyncInvoker.NoNewPostsWhileDestroying` | server/juansfu/rtc_base/async_invoker.cc:53-57 | after the destructor has begun, no invocation newly passes the check of the destroying flag |
| `AsyncInvoker.RunsAtMostOnce` | server/juansfu/rtc_base/async_invoker.cc:84-102 | in every run each functor runs at most once, and not at all once its closure has been cleared |
| `AsyncInvoker.WakesNeedSets` | server/juansfu/rtc_base/event.cc:193-194 | in every run each wait of the destructor that ends takes a `Set` of its own: the event resets itself |
| `AsyncInvoker.StepOnOne` | server/juansfu/rtc_base/async_invoker.cc:40-68 | a step on one closure brings that one closer to its end and changes no other; it runs on the thread that it was posted to |
| `AsyncInvoker.ClearEmptiesQueue` | server/juansfu/rtc_base/async_invoker.cc:23-38 | clearing the queue of a thread dooms every closure in it and changes no other |
| `AsyncInvoker.StepKeepsInv` | server/juansfu/rtc_base/async_invoker.cc:23-102 | every atomic step keeps the invariant |
| `AsyncInvoker.RunKeepsInv` | server/juansfu/rtc_base/async_invoker.cc:23-102 | every run keeps the invariant |
| `AsyncInvoker.StepKeepsCount` | server/juansfu/rtc_base/async_invoker.cc:84-102 | every step keeps the counter equal to the number of closures alive |
| `AsyncInvoker.StepKeepsNested` | server/juansfu/rtc_base/async_invoker.h:79-90 | calls end before the functor that makes them, and outside calls before the destructor begins |
| `AsyncInvoker.StepKeepsWakeup` | server/juansfu/rtc_base/event.cc:96-101 | while the destructor goes on to wait, the event is set or some closure will still set it |
| `AsyncInvoker.ClosureMoves` | server/juansfu/rtc_base/async_invoker.cc:40-68 | every closure that is not gone, queued at the thread of the destructor or held there keeps some other thread, or the destructor, going |
| `EventLoopRuns.FinishAgreesIff` | server/juansfu/rtc_base/physical_socket_server.cc:880-892 | finishing a batch brings the kernel up to date about the socket if and only if no interest was left behind, that is unless the socket was registered anew in the batch with an interest and ends it with none |
| `EventLoopRuns.OnEventAgreesIff` | server/juansfu/rtc_base/physical_socket_server.cc:817-858 | over a whole `OnEvent`, whatever its handlers do, all sockets agree with the kernel afterwards if and only if no interest was left behind |
| `EventLoopRuns.InterestLeftBehind` | server/juansfu/rtc_base/physical_socket_server.cc:922-929 | the case is real: an error on a writable socket whose write handler closes it and creates it again as a datagram socket leaves the kernel polling for a socket that wants nothing |
| `EventLoopRuns.NoCreateAgrees` | server/juansfu/rtc_base/physical_socket_server.cc:922-929 | a whole `OnEvent` none of whose handlers creates the socket of the event anew leaves the kernel in agreement with every socket |
| `EventLoopRuns.EveryRunAgrees` | server/juansfu/rtc_base/physical_socket_server.cc:1118-1167 | over every run of handler operations and passes from a new server: the maps stay inverse, a key given out by any point of the run has stood for one dispatcher all along if it is there at the end, sockets have descriptors of their own, and if no handler creates the socket of its own event anew, the kernel is told of each registered socket exactly what it wants |
| `EventLoopRuns.KeysAreNotReused` | server/juansfu/rtc_base/physical_socket_server.cc:1118-1141 | in every run a key once given out that is gone stays gone, and one that is there later stands for the same dispatcher |
| `EventLoopRuns.EveryRunDelivers` | server/juansfu/rtc_base/physical_socket_server.cc:1486-1501 | after any such run, a pass delivers each event reported to the registration that it was reported for, or to none |
| `EventLoopRuns.FlagsMean` | server/juansfu/rtc_base/physical_socket_server.cc:1213-1256 | which kinds an event is of: accept or read if it is readable without an error and the peer is there, accept exactly if the socket wants to accept; connect or write if it is writable, write exactly if the socket does not want to connect, connect only without an error; close on an error, or if it is readable and the peer is gone; no other |
| `EventLoopRuns.FlagsIff` | server/juansfu/rtc_base/physical_socket_server.cc:1213-1256 | an event is for its receiver exactly if it is readable, writable or an error |
| `EventLoopRuns.InterestMeans` | server/juansfu/rtc_base/physical_socket_server.cc:864-873 | the kernel polls for input for a socket that wants to read or to accept, for output for one that wants to write or to connect, and for nothing else |
| `EventLoopRuns.SignalsOfEvent` | server/juansfu/rtc_base/physical_socket_server.cc:817-858 | an `OnEvent` signals just the kinds of events it is given, each once, to the handlers of that kind and with the interest in it off and all others as before: connect, accept, read, write in this order, and a close last, with no interest at all |
| `EventLoopRuns.OpDoes` | server/juansfu/rtc_base/physical_socket_server.cc:664-680 | what each operation of a handler makes of its socket: new ones are closed, wrapped ones and datagram ones want to read and to write, enabling adds events, closed ones have no descriptor, deleted ones are gone; and every other socket is as before |
| `EventLoopRuns.PassDeliversToPolled` | server/juansfu/rtc_base/physical_socket_server.cc:1486-1501 | in a pass whose handlers add, remove and re-add dispatchers at will, each event goes to the registration it was polled for, as the kinds that it means for what the socket then wants |
| `EventLoopRuns.PassDeliversUnlessRemoved` | server/juansfu/rtc_base/physical_socket_server.cc:1486-1501 | each event that is readable, writable or an error is delivered in its turn, to the holder of its key, as the kinds that it means for what that socket wants then, unless the registration was gone, for good, before its turn |
| `EventLoopRuns.PassAgrees` | server/juansfu/rtc_base/physical_socket_server.cc:1486-1501 | over whole passes the interest in the kernel stays that of the sockets, if no event leaves one behind |
| `EventLoopRuns.OpKeeps` | server/juansfu/rtc_base/physical_socket_server.cc:1118-1167 | everything a handler may do keeps the two maps inverse, the keys below the next one, and the agreement with the kernel, and brings no old key back |
| `EventLoopRuns.OpsKeep` | server/juansfu/rtc_base/physical_socket_server.cc:1118-1167 | any sequence of that does |
| `EventLoopRuns.RegisterKeeps` | server/juansfu/rtc_base/physical_socket_server.cc:1118-1133 | a registration keeps the maps inverse and takes the next key, never used before |
| `EventLoopRuns.UnregisterKeeps` | server/juansfu/rtc_base/physical_socket_server.cc:1135-1151 | an unregistration keeps the maps inverse |
| `EventLoopRuns.CloseKeeps` | server/juansfu/rtc_base/physical_socket_server.cc:914-932 | a close, in a batch or not, keeps the agreement; the socket is unregistered and its descriptor free |
| `EventLoopRuns.SignaledKeeps` | server/juansfu/rtc_base/physical_socket_server.cc:830-854 | all the signals of an event keep everything but the claim about the socket itself |
| `EventLoopRuns.OnEventEndsBatch` | server/juansfu/rtc_base/physical_socket_server.cc:855-857 | no socket is left batching when `OnEvent` returns |
| `EventLoop.PhysicalSocketServer.EpollCtl` | server/juansfu/rtc_base/physical_socket_server.cc:1382-1453 | ADD, MOD and DEL on the interest list of the kernel, with their errors |
| `EventLoop.PhysicalSocketServer.Add` | server/juansfu/rtc_base/physical_socket_server.cc:1118-1133 | a dispatcher not yet known gets the next key in both maps and is added to the interest list; a known one changes nothing |
| `EventLoop.PhysicalSocketServer.AddEpoll` | server/juansfu/rtc_base/physical_socket_server.cc:1382-1403 | the interest list gains the descriptor with the interest of its socket |
| `EventLoop.PhysicalSocketServer.Remove` | server/juansfu/rtc_base/physical_socket_server.cc:1135-1151 | the dispatcher leaves both maps and the interest list |
| `EventLoop.PhysicalSocketServer.RemoveEpoll` | server/juansfu/rtc_base/physical_socket_server.cc:1405-1421 | the descriptor leaves the interest list |
| `EventLoop.PhysicalSocketServer.Update` | server/juansfu/rtc_base/physical_socket_server.cc:1153-1167 | the kernel is told the interest of a registered dispatcher |
| `EventLoop.PhysicalSocketServer.UpdateEpoll` | server/juansfu/rtc_base/physical_socket_server.cc:1423-1453 | the entry becomes the interest of the socket |
| `EventLoop.PhysicalSocketServer.SetEnabledEvents` | server/juansfu/rtc_base/physical_socket_server.cc:894-898 | the events change, and the kernel is told exactly if its interest differs and no batch is going on |
| `EventLoop.PhysicalSocketServer.MaybeUpdateDispatcher` | server/juansfu/rtc_base/physical_socket_server.cc:887-892 | the kernel is told exactly if its interest differs and no batch is going on |
| `EventLoop.PhysicalSocketServer.StartBatchedEventUpdates` | server/juansfu/rtc_base/physical_socket_server.cc:875-878 | the events are remembered, and the kernel is not told until the batch ends |
| `EventLoop.PhysicalSocketServer.FinishBatchedEventUpdates` | server/juansfu/rtc_base/physical_socket_server.cc:880-885 | the kernel is told once what changed over the batch |
| `EventLoop.PhysicalSocketServer.Close` | server/juansfu/rtc_base/physical_socket_server.cc:914-932 | an open socket is unregistered, its descriptor closed and its events cleared; in a batch the remembered events become none |
| `EventLoop.PhysicalSocketServer.CloseDescriptor` | server/juansfu/rtc_base/physical_socket_server.cc:481-491 | the descriptor is given back to the system and the events are cleared |
| `EventLoop.PhysicalSocketServer.Create` | server/juansfu/rtc_base/physical_socket_server.cc:664-680 | the old descriptor is closed; a new one, if the system gives it, is registered |
| `EventLoop.PhysicalSocketServer.OnEvent` | server/juansfu/rtc_base/physical_socket_server.cc:817-858 | each kind of event given, and no other, is disabled and signaled to its handlers, in order, a close last; then the kernel is brought up to date |
| `EventLoop.PhysicalSocketServer.DispatchPolled` | server/juansfu/rtc_base/physical_socket_server.cc:1486-1501 | the loop over polled events does what the model of a pass says |
| `EventLoop.PhysicalSocketServer.TakeOneTurn` | server/juansfu/rtc_base/physical_socket_server.cc:1488-1501 | an event goes to the dispatcher of its key exactly if the key is there and it is readable, writable or an error, as the kinds that it means for what the socket wants |
| `EventLoop.EpollAgreement` | server/juansfu/rtc_base/physical_socket_server.cc:1382-1453 | outside a batch, if all sockets agree, the interest list holds for every registered socket an entry under its key with input exactly if it wants to read or to accept and output exactly if it wants to write or to connect, and no entry if it wants neither |
| `EventLoop.PolledAreRegistered` | server/juansfu/rtc_base/physical_socket_server.cc:1475-1480 | what the kernel can poll are registrations of the moment |
| `CopyOnWrite.CopyOnWriteBuffer.Take` | server/juansfu/rtc_base/ref_counter.h:25-30 | the handle becomes a holder, and the count stays that of the holders |
| `CopyOnWrite.CopyOnWriteBuffer.Drop` | server/juansfu/rtc_base/ref_counter.h:37-52 | the handle is a holder no more; the payload is freed exactly if it was the only one |
| `CopyOnWrite.CountOfOne` | server/juansfu/rtc_base/ref_counter.h:60-66 | the count is one exactly if the handle at hand is the only holder |
| `CopyOnWrite.CopyOnWriteBuffer.Reset` | server/juansfu/api/scoped_refptr.h:121-129 | the handle drops what it held and holds the new payload; all others stand for what they did |
| `CopyOnWrite.CopyOnWriteBuffer.Copy` | server/juansfu/api/scoped_refptr.h:83-86 | the copy shares the payload and stands for the same bytes |
| `CopyOnWrite.CopyOnWriteBuffer.Move` | server/juansfu/api/scoped_refptr.h:95-98 | the new handle takes the payload over, count and all, and the old one is empty |
| `CopyOnWrite.CopyOnWriteBuffer.Swap` | server/juansfu/api/scoped_refptr.h:151-157 | two handles exchange their payloads, counts and all |
| `CopyOnWrite.CopyOnWriteBuffer.Destroy` | server/juansfu/api/scoped_refptr.h:100-103 | a handle goes; its payload is freed exactly when it was the last holder |
| `CopyOnWrite.CopyOnWriteBuffer.AssignCopy` | server/juansfu/rtc_base/copy_on_write_buffer.h:111-118 | the handle stands for the bytes of the other, no other handle changes, also on assignment to itself |
| `CopyOnWrite.CopyOnWriteBuffer.ResetToSame` | server/juansfu/api/scoped_refptr.h:121-129 | assigning the payload a handle already holds changes nothing, since the count is raised first |
| `CopyOnWrite.CopyOnWriteBuffer.AssignMove` | server/juansfu/rtc_base/copy_on_write_buffer.h:120-125 | the handle takes the payload over, and its own is dropped |
| `CopyOnWrite.CopyOnWriteBuffer.CloneDataIfReferenced` | server/juansfu/rtc_base/copy_on_write_buffer.cc:97-105 | afterwards the handle is the only holder, with the same bytes |
| `CopyOnWrite.CopyOnWriteBuffer.SetData` | server/juansfu/rtc_base/copy_on_write_buffer.h:147-158 | the handle stands for the new bytes; every other handle stands for what it did, shared payload or not |
| `CopyOnWrite.CopyOnWriteBuffer.AppendData` | server/juansfu/rtc_base/copy_on_write_buffer.h:179-192 | the handle stands for its bytes with the new ones behind; every other for what it did |
| `CopyOnWrite.CopyOnWriteBuffer.AppendBuffer` | server/juansfu/rtc_base/copy_on_write_buffer.h:202-204 | likewise with the bytes of another handle, even of one that shares the payload |
| `CopyOnWrite.CopyOnWriteBuffer.SetSize` | server/juansfu/rtc_base/copy_on_write_buffer.cc:48-66 | the bytes within both sizes stay; every other handle stands for what it did |
| `CopyOnWrite.CopyOnWriteBuffer.EnsureCapacity` | server/juansfu/rtc_base/copy_on_write_buffer.cc:68-83 | the bytes stay and the capacity suffices; every other handle stands for what it did |
| `CopyOnWrite.CopyOnWriteBuffer.Clear` | server/juansfu/rtc_base/copy_on_write_buffer.cc:85-95 | the handle is empty with its capacity; every other stands for what it did |
| `CopyOnWrite.CopyOnWriteBuffer.Write` | server/juansfu/rtc_base/copy_on_write_buffer.h:133-136 | one byte of this handle changes, and none of any other |
| `CopyOnWrite.CopyOnWriteBuffer.Read` | server/juansfu/rtc_base/copy_on_write_buffer.h:138-141 | the byte of the handle at the index |
| `CopyOnWrite.CopyOnWriteBuffer.Equals` | server/juansfu/rtc_base/copy_on_write_buffer.cc:39-46 | true exactly for one payload, or two payloads of equal bytes; an empty handle without a payload differs from one with |
| `CopyOnWriteRuns.RunAll` | server/juansfu/rtc_base/copy_on_write_buffer.h:28-224 | any number of handles over any sequence of constructions, copies, moves, swaps, writes, appends, resizes, clears and destructions: each stands for what the operations mean for byte sequences that share nothing; every payload there has ever been was freed once if no handle holds it, and not at all if one does |
| `CopyOnWriteRuns.Execute` | server/juansfu/rtc_base/copy_on_write_buffer.h:28-224 | each operation does to the handles what it means for the byte sequences |
| `CopyOnWriteRuns.FreedOnce` | server/juansfu/rtc_base/ref_counter.h:37-52 | a payload has been freed once if no handle holds it any more, and not at all as long as one does |
| `Buffer.RunIsAmortized` | server/juansfu/rtc_base/buffer.h:358-380 | over every run of appends, replacements and size changes from an empty buffer, the elements copied are at most three times the capacity, and the capacity at most half again the largest size asked for |
| `Buffer.RequestKeepsAmortized` | server/juansfu/rtc_base/buffer.h:364-369 | each request keeps both bounds |
| `Buffer.BufferT.EnsureCapacityWithHeadroom` | server/juansfu/rtc_base/buffer.h:358-380 | the contents stay, the block grows only if it must and by half at least if headroom is asked for, and the copying is accounted for |
| `Buffer.BufferT.Reallocate` | server/juansfu/rtc_base/buffer.h:371-380 | the contents move to a fresh block; the old one is given back, zeroed if that is promised |
| `Buffer.BufferT.EnsureCapacity` | server/juansfu/rtc_base/buffer.h:335-339 | the contents stay and the capacity is the larger of the old and the wanted one |
| `Buffer.BufferT.AppendData` | server/juansfu/rtc_base/buffer.h:261-269 | the bytes are appended; no written value is left past the contents; the cost is that of the model |
| `Buffer.BufferT.SetData` | server/juansfu/rtc_base/buffer.h:207-215 | the contents are the bytes; what is left of longer old contents is zeroed |
| `Buffer.BufferT.AppendDataWith` | server/juansfu/rtc_base/buffer.h:306-317 | the bytes that the setter reports are appended, and nothing it wrote is past the contents |
| `Buffer.BufferT.SetDataWith` | server/juansfu/rtc_base/buffer.h:245-254 | the contents are what the setter reports; the rest of the old contents is zeroed |
| `Buffer.BufferT.SetSize` | server/juansfu/rtc_base/buffer.h:323-330 | the contents within both sizes stay, and what is given up is zeroed |
| `Buffer.BufferT.Clear` | server/juansfu/rtc_base/buffer.h:343-347 | empty, with the block kept and, if promised, zeroed |
| `Buffer.BufferT.Destroy` | server/juansfu/rtc_base/buffer.h:118 | every block ever given back was zeroed, if that is promised |
| `Buffer.BufferT.MoveFrom` | server/juansfu/rtc_base/buffer.h:154-164 | the block of the other buffer is taken over, the own one zeroed and given back, the other left empty |
| `Buffer.BufferT.ZeroTrailingData` | server/juansfu/rtc_base/buffer.h:393-397 | the cells past the contents are zeroed and the contents stay |
| `Buffer.BufferT.Write` | server/juansfu/rtc_base/buffer.h:185-188 | one element changes |
| `DtlsSpec.EveryRunIsSafe` | server/juansfu/rtc_base/openssl_stream_adapter.cc:520-710 | in every run, whatever OpenSSL answers and whatever the event handlers call re-entrantly: no clear text passes once negotiation has started, and with client authentication application data reaches OpenSSL only after the peer presented a certificate with a digest the application gave, and with or without it none does once a digest was set that is not that of the certificate presented last |
| `DtlsSpec.OpensOnceIff` | server/juansfu/rtc_base/openssl_stream_adapter.cc:331-382 | after the start of negotiation SE_OPEN is signaled or posted at most once if and only if there is client authentication or no digest that matched came after the connection was up |
| `DtlsSpec.LateDigestOpensTwice` | server/juansfu/rtc_base/openssl_stream_adapter.cc:331-382 | without client authentication, a certificate presented in the handshake and its digest set afterwards give two SE_OPEN |
| `DtlsSpec.OpenMeansAuthenticated` | server/juansfu/rtc_base/openssl_stream_adapter.cc:906-925 | with client authentication SE_OPEN means that the peer is authenticated |
| `DtlsSpec.StateTellsWhatDataDoes` | server/juansfu/rtc_base/openssl_stream_adapter.cc:743-757 | the stream state is open exactly when a read or a write reaches OpenSSL, and opening exactly when each blocks without effect |
| `DtlsSpec.SafeAtEveryPoint` | server/juansfu/rtc_base/openssl_stream_adapter.cc:520-710 | a safe history was safe at every earlier point |
| `DtlsSpec.Adapter.Make` | server/juansfu/rtc_base/openssl_stream_adapter.cc:520-1016 | every call, event, timer and posted task keeps the invariant, and negotiation never goes back |
| `DtlsSpec.Adapter.MakeAll` | server/juansfu/rtc_base/openssl_stream_adapter.cc:520-1016 | any number of them do |
| `DtlsSpec.Adapter.SetDigest` | server/juansfu/rtc_base/openssl_stream_adapter.cc:331-382 | which error comes out exactly when: unknown algorithm, a length other than that of the algorithm, or a digest that is not that of the first certificate presented; that leaves the adapter in error with code -1 and posts nothing, the other two change nothing; otherwise the digest is kept, the peer is verified if it has presented a certificate, and an SE_OPEN is posted if the connection is up then |
| `DtlsSpec.FirstCertificateDecides` | server/juansfu/rtc_base/openssl_stream_adapter.cc:1116-1145 | what is compared is the digest of the first certificate of the chain |
| `DtlsSpec.DigestSizes` | server/juansfu/rtc_base/message_digest.cc:23-40 | the algorithms known and the sizes of their digests, as in FIPS 180-4 and RFC 1321 |
| `DtlsSpec.PostedAreDelivered` | server/juansfu/rtc_base/openssl_stream_adapter.cc:822-825 | in every run each event posted is delivered once, or is still to be |
| `DtlsSpec.ReadOutcome` | server/juansfu/rtc_base/openssl_stream_adapter.cc:655-709 | what a read that reaches OpenSSL returns for each of its answers, and what becomes of the connection: bytes, a message too long for what was asked, blocked, in need of writing first, end of stream and closed, or in error with the code |
| `DtlsSpec.WriteOutcome` | server/juansfu/rtc_base/openssl_stream_adapter.cc:592-625 | the same of a write |
| `DtlsSpec.IdleOutcome` | server/juansfu/rtc_base/openssl_stream_adapter.cc:559-654 | data calls in all other states: passed through before the start, blocked while negotiating or unverified, end of stream or the error after the end |
| `DtlsSpec.StartOutcome` | server/juansfu/rtc_base/openssl_stream_adapter.cc:520-538 | negotiation starts once; then it waits for the stream, goes on, or has failed with the error returned |
| `DtlsSpec.SetupOutcome` | server/juansfu/rtc_base/openssl_stream_adapter.cc:854-897 | the setup is three steps, each of which can fail; then negotiation goes on |
| `DtlsSpec.NegotiationOutcome` | server/juansfu/rtc_base/openssl_stream_adapter.cc:899-957 | what follows from each answer of OpenSSL to the handshake: up and signaled open unless the peer is still to be verified, a timer or none, or an error signaled and returned |
| `DtlsSpec.EventOutcome` | server/juansfu/rtc_base/openssl_stream_adapter.cc:759-820 | what an event of the wrapped stream lets the application know: before the start what it says; while connected also readable if a read waits for the stream to be writable, and writable if a write waits for it to be readable; otherwise only a close, with the error |
| `DtlsSpec.NegotiatingEventOutcome` | server/juansfu/rtc_base/openssl_stream_adapter.cc:780-791 | an event on which negotiation fails ends the connection with its error and a close with it, whatever else the event says |
| `DtlsSpec.OpeningEventOutcome` | server/juansfu/rtc_base/openssl_stream_adapter.cc:766-778 | so does the opening of the stream if negotiation cannot begin |
| `DtlsSpec.PresentOutcome` | server/juansfu/rtc_base/openssl_stream_adapter.cc:1152-1204 | a chain presented is kept, and verifies the peer exactly if its digest is known and is that of the first certificate |
| `DtlsSpec.Adapter.ContinueSSL` | server/juansfu/rtc_base/openssl_stream_adapter.cc:899-957 | keeps the invariant for every answer of OpenSSL |
| `DtlsSpec.Adapter.OnEvent` | server/juansfu/rtc_base/openssl_stream_adapter.cc:759-820 | keeps the invariant for every event of the wrapped stream, which opens only before negotiation |
| `DtlsSpec.Adapter.SslRead` | server/juansfu/rtc_base/openssl_stream_adapter.cc:655-709 | keeps the invariant for every answer of OpenSSL, and reaches it |
| `DtlsSpec.Adapter.SslWrite` | server/juansfu/rtc_base/openssl_stream_adapter.cc:592-625 | keeps the invariant for every answer of OpenSSL, and reaches it |
| `DtlsSpec.Adapter.FlushInput` | server/juansfu/rtc_base/openssl_stream_adapter.cc:712-732 | ends after every answer, and keeps the invariant |
| `DtlsSpec.Adapter.Present` | server/juansfu/rtc_base/openssl_stream_adapter.cc:1152-1204 | keeps the invariant: a peer is verified only by a digest that matches the chain presented |
| `DtlsAdapter.OpenSSLStreamAdapter.StartSSL` | server/juansfu/rtc_base/openssl_stream_adapter.cc:520-538 | the adapter does what the model says: refused with -1 exactly if started before, waiting if the stream is not open, otherwise connecting, or in error with the error returned |
| `DtlsAdapter.OpenSSLStreamAdapter.BeginSSL` | server/juansfu/rtc_base/openssl_stream_adapter.cc:854-897 | what the model says, with a setup that can fail at three points |
| `DtlsAdapter.OpenSSLStreamAdapter.ContinueSSL` | server/juansfu/rtc_base/openssl_stream_adapter.cc:899-957 | what the model says; its own check that the state is connecting never fails |
| `DtlsAdapter.OpenSSLStreamAdapter.OnEvent` | server/juansfu/rtc_base/openssl_stream_adapter.cc:759-820 | what the model says, with the handlers of each signal run in place |
| `DtlsAdapter.OpenSSLStreamAdapter.TimerFires` | server/juansfu/rtc_base/openssl_stream_adapter.cc:827-852 | what the model says; an error of the handshake is dropped |
| `DtlsAdapter.OpenSSLStreamAdapter.SetPeerCertificateDigest` | server/juansfu/rtc_base/openssl_stream_adapter.cc:331-382 | true exactly if there is no error; which error exactly when, and after a digest that does not match in error with code -1 and nothing posted |
| `DtlsAdapter.OpenSSLStreamAdapter.VerifyPeerCertificate` | server/juansfu/rtc_base/openssl_stream_adapter.cc:1116-1145 | true exactly if a digest is set and is that of the first certificate of the chain; then the peer is verified for good |
| `DtlsAdapter.OpenSSLStreamAdapter.VerifyCallback` | server/juansfu/rtc_base/openssl_stream_adapter.cc:1181-1204 | the chain is kept; accepted if no digest is known yet or if it matches |
| `DtlsAdapter.OpenSSLStreamAdapter.Read` | server/juansfu/rtc_base/openssl_stream_adapter.cc:628-710 | the result and the new state of the model, in every state and for every answer |
| `DtlsAdapter.OpenSSLStreamAdapter.Write` | server/juansfu/rtc_base/openssl_stream_adapter.cc:559-626 | the result and the new state of the model, in every state and for every answer |
| `DtlsAdapter.OpenSSLStreamAdapter.FlushInput` | server/juansfu/rtc_base/openssl_stream_adapter.cc:712-732 | the loop does what the model says |
| `DtlsAdapter.OpenSSLStreamAdapter.Close` | server/juansfu/rtc_base/openssl_stream_adapter.cc:734-741 | closed, or still in error; no SSL object, chain or timer is left |
| `DtlsAdapter.OpenSSLStreamAdapter.Error` | server/juansfu/rtc_base/openssl_stream_adapter.cc:959-971 | in error with the code; no SSL object, chain or timer is left |
| `DtlsAdapter.OpenSSLStreamAdapter.Cleanup` | server/juansfu/rtc_base/openssl_stream_adapter.cc:973-1016 | closed unless in error; no SSL object, chain or timer is left |
| `DtlsAdapter.OpenSSLStreamAdapter.GetState` | server/juansfu/rtc_base/openssl_stream_adapter.cc:743-757 | the stream state of the model |
| `DtlsAdapter.OpenSSLStreamAdapter.MakeAll` | server/juansfu/rtc_base/openssl_stream_adapter.cc:520-1016 | any calls in a row, and those their handlers make, do what the model says, and leave a safe history |
| `DtlsAdapter.Live` | server/juansfu/rtc_base/openssl_stream_adapter.cc:520-1016 | over the whole life of an adapter object: no clear text passes after the start, with client authentication no data before a matching certificate nor an SE_OPEN, no data after a digest that did not match, each event posted delivered once or still to be, and SE_OPEN comes at most once exactly if there is client authentication or no late matching digest |
| `Crc32.UpdateCrc32` | server/juansfu/rtc_base/crc32.cc:38-48 | the checksum by table is the CRC computed bit by bit with the CRC-32 polynomial, register complemented before and after, as in section 8 of RFC 1952 |
| `Crc32.LoadCrc32Table` | server/juansfu/rtc_base/crc32.cc:23-36 | entry b of the table is the byte b after eight steps of the bitwise register |
| `Crc32.TableEntry` | server/juansfu/rtc_base/crc32.cc:26-33 | the inner loop takes eight steps of the bitwise register |
| `Crc32.LookUp` | server/juansfu/rtc_base/crc32.cc:43-45 | one look-up does what the eight bits of a byte do |
| `Crc32.PolynomialOfConstant` | server/juansfu/rtc_base/crc32.cc:21 | the constant is the polynomial with the exponents 32, 26, 23, 22, 16, 12, 11, 10, 8, 7, 5, 4, 2, 1 and 0, in reversed form |
| `Crc32.UpdateInParts` | server/juansfu/rtc_base/crc32.h:20-22 | updating with a and then with b is one pass over a and b |
| `Crc32.WindowIsNoticed` | server/juansfu/rtc_base/crc32.cc:38-48 | two messages of one length that differ only within four consecutive bytes always have different checksums |
| `Crc32.BurstIsNoticed` | server/juansfu/rtc_base/crc32.cc:38-48 | two messages of one length that differ only within 32 consecutive bits never end in the same register |
| `Crc32.FeedOfWord` | server/juansfu/rtc_base/crc32.cc:43-45 | up to 32 message bits enter the register as one word |
| `Crc32.StepsMove` | server/juansfu/rtc_base/crc32.cc:43-45 | what lies above the lowest bits only moves down: why a look-up may treat the low byte alone |
| `StatsWalk.FilterStats` | webrtc-client/p2p/adapter-latest.js:2696-2716 | the result holds exactly the stats that an RTP stat of the track reaches through its Id and Ids properties, and nothing without a track |
| `StatsWalk.WalkStats` | webrtc-client/p2p/adapter-latest.js:2679-2694 | ends on every graph; adds only what the stat reaches, with each added stat everything it refers to |
| `StatsWalk.WalkAll` | webrtc-client/p2p/adapter-latest.js:2688-2691 | the same for each id of a list |
| `StatsWalk.WalkProperty` | webrtc-client/p2p/adapter-latest.js:2684-2693 | the same for one property |
| `StatsWalk.WalkRtpStats` | webrtc-client/p2p/adapter-latest.js:2708-2714 | every RTP stat of the track stat is walked, over what earlier walks left in the shared result |
| `StatsWalk.TrackStats` | webrtc-client/p2p/adapter-latest.js:2702-2707 | exactly the stats of the track |
| `StatsWalk.FirstNamed` | webrtc-client/p2p/adapter-latest.js:2702-2707 | a property is the first of its name |
| `StatsWalk.LinksIff` | webrtc-client/p2p/adapter-latest.js:2684-2693 | a property refers to its text if its name ends in Id, to each of its list if it ends in Ids, and to nothing otherwise |
| `StatsWalk.ClosedHoldsReachable` | webrtc-client/p2p/adapter-latest.js:2679-2694 | a set closed under references holds all that its members reach |
| `StatsWalk.WalkedFromRoot` | webrtc-client/p2p/adapter-latest.js:2683-2693 | the walks of all references of a stat are together the walk of the stat |
| `ByteBuffer.RoundTrip` | server/juansfu/rtc_base/byte_buffer.h:38-76 | any sequence of typed writes, read back with the same types, gives the values, those of 24 bits modulo 2^24, and leaves no byte |
| `ByteBuffer.ValidRanges` | server/juansfu/rtc_base/byte_buffer.h:41-58 | the values that are written are those of the unsigned types of 8, 16, 32 and 64 bits |
| `ByteBuffer.ItemRoundTrip` | server/juansfu/rtc_base/byte_buffer.h:38-76 | one item read back from whatever follows it, taking exactly its bytes |
| `ByteBuffer.VarintRoundTrip` | server/juansfu/rtc_base/byte_buffer.h:62-72 | a varint ends with its first byte below 128, and its value comes back |
| `ByteBuffer.VarintLength` | server/juansfu/rtc_base/byte_buffer.h:62-72 | n bytes suffice exactly for values of at most 7n bits |
| `ByteBuffer.TenBytesAreEnough` | server/juansfu/rtc_base/byte_buffer.h:59-72 | a varint of 64 bits takes at most ten bytes |
| `ByteBuffer.PrefixFree` | server/juansfu/rtc_base/byte_buffer.h:62-72 | no varint begins another |
| `ByteBuffer.ReencodingIsNoLonger` | server/juansfu/rtc_base/byte_buffer.cc:107-128 | writing the value of any accepted varint takes no more bytes than were read |
| `ByteBuffer.HighByteFirst` | server/juansfu/rtc_base/byte_buffer.h:41-58 | the first byte weighs most |
| `ByteBuffer.BigEndianRoundTrip` | server/juansfu/rtc_base/byte_buffer.h:41-58 | the low bytes in network order give the value modulo 256 to their number |
| `ByteBuffer.ByteBufferWriter.WriteUInt` | server/juansfu/rtc_base/byte_buffer.h:38-58 | the low bytes of the value are appended in network order |
| `ByteBuffer.ByteBufferWriter.WriteUVarint` | server/juansfu/rtc_base/byte_buffer.h:62-72 | the loop appends the varint of the value |
| `ByteBuffer.ByteBufferReader.ReadBytes` | server/juansfu/rtc_base/byte_buffer.cc:143-151 | the next bytes, or nothing taken if there are too few |
| `ByteBuffer.ByteBufferReader.ReadUInt` | server/juansfu/rtc_base/byte_buffer.cc:45-105 | the number that the next bytes are in network order, or nothing taken |
| `ByteBuffer.ByteBufferReader.ReadUVarint` | server/juansfu/rtc_base/byte_buffer.cc:107-128 | the loop accepts exactly a varint that ends within ten bytes, with its value modulo 2^64, and otherwise consumes what it looked at |
| `ByteBuffer.OrShifted` | server/juansfu/rtc_base/byte_buffer.cc:119-120 | the shift and the or on 64-bit words give the value of one byte more modulo 2^64: seven bits of it, and one of the tenth byte |
| `Word64.OrShiftedAdds` | server/juansfu/rtc_base/byte_buffer.cc:120 | or-ing seven bits in where nothing is set from there on adds them to the number, without a loss up to the ninth byte, and the lowest of them in the tenth |
| `ByteBuffer.WriteAndRead` | server/juansfu/rtc_base/byte_buffer.h:38-76 | a writer and a reader object: any list of items written into a buffer is read back, and nothing is left |
| `ByteBuffer.ReadAll` | server/juansfu/rtc_base/byte_buffer.cc:45-151 | reads in a row take what the model of reading says |
| `IpPrefix.TruncateIP` | server/juansfu/rtc_base/ip_address.cc:364-404 | the result is of the same family, its first bits are those of the address, all others zero; no address for a negative length |
| `IpPrefix.TruncateV6` | server/juansfu/rtc_base/ip_address.cc:381-402 | each word is cut off where the length falls in it, at word boundaries too |
| `IpPrefix.TruncateV4` | server/juansfu/rtc_base/ip_address.cc:368-380 | the word is cut off after the length |
| `IpPrefix.TruncatedTwice` | server/juansfu/rtc_base/ip_address.cc:364-404 | truncating after m and then n bits is truncating after the fewer |
| `IpPrefix.TruncatedIsUnique` | server/juansfu/rtc_base/ip_address.cc:364-404 | the bits determine the truncated address |
| `IpPrefix.MaskCuts` | server/juansfu/rtc_base/ip_address.cc:375-379 | the shifted mask keeps exactly the first bits of a word |
| `IpPrefix.CountIPMaskBits` | server/juansfu/rtc_base/ip_address.cc:406-457 | the bits of full words, and of the first word that is not full those up to its last set bit |
| `IpPrefix.CountTrailingZeros` | server/juansfu/rtc_base/ip_address.cc:437-455 | the tests on the lowest set bit count the trailing zeros of any word but zero |
| `IpPrefix.ZeroesOfLowest` | server/juansfu/rtc_base/ip_address.cc:441-455 | the same for the numbers the tests add up |
| `IpPrefix.TrailingZerosAreBits` | server/juansfu/rtc_base/ip_address.cc:437-455 | the bit at that place is set and those below are not |
| `IpPrefix.CountOfPrefixMask` | server/juansfu/rtc_base/ip_address.cc:406-457 | counting the bits of the mask of any legal prefix length, of 4 or 16 bytes, gives the length |
| `Fingerprint.HexEncodeInto` | server/juansfu/rtc_base/string_encode.cc:53-76 | the buffer begins with the encoding, delimiters between bytes only, and nothing else of it changes |
| `Fingerprint.HexEncodeWithDelimiter` | server/juansfu/rtc_base/string_encode.cc:88-94 | a string of exactly the computed length that is an encoding of the bytes, with lower-case digits |
| `Fingerprint.EncodingLength` | server/juansfu/rtc_base/string_encode.cc:47-49 | the length computed for encoding is that of every encoding, and the room computed for decoding is its number of bytes |
| `Fingerprint.EncodedIsEncoding` | server/juansfu/rtc_base/string_encode.cc:53-76 | what is written is an encoding of the bytes, for every delimiter |
| `Fingerprint.DecodedIff` | server/juansfu/rtc_base/string_encode.cc:103-142 | decoding accepts exactly the encodings, in either case of the digits, and yields the bytes encoded |
| `Fingerprint.HexDecodeWithDelimiter` | server/juansfu/rtc_base/string_encode.cc:103-142 | the number of bytes of the encoding, with the bytes in the buffer, or 0 if the text encodes none that fit; nothing is written past the computed room, whatever the text |
| `Fingerprint.DecodeLoop` | server/juansfu/rtc_base/string_encode.cc:120-141 | the loop decodes what the definition says, within the computed room |
| `Fingerprint.GetRfc4572Fingerprint` | server/juansfu/rtc_base/ssl_fingerprint.cc:110-115 | an encoding of the digest with colons and without a lower-case digit, as in section 5 of RFC 4572 |
| `Fingerprint.UpperIsEncoding` | server/juansfu/rtc_base/ssl_fingerprint.cc:110-115 | the upper-case text is an encoding of the same bytes |
| `Fingerprint.CreateUniqueFromRfc4572` | server/juansfu/rtc_base/ssl_fingerprint.cc:59-77 | a fingerprint comes out exactly if the digests of the algorithm, as the adapter knows them, have 20, 28, 32, 48 or 64 bytes, and the text encodes 1 to 64 bytes, which are its digest |
| `Fingerprint.FipsIffSized` | server/juansfu/rtc_base/message_digest.cc:42-51 | the list of FIPS 180 algorithms is that of all the algorithms with which a digest of the peer can be set, by the sizes of FIPS 180-4, and these are all but md5 |
| `Fingerprint.RoundTrip` | server/juansfu/rtc_base/ssl_fingerprint.cc:59-77 | writing and reading restores every digest of 1 to 64 bytes of such an algorithm, and refuses every other; of the digests that can be set for a peer it restores all but those of md5 |
| `IceCandidate.RoundTrip` | webrtc-client/p2p/adapter-latest.js:2775-2859 | parsing what is written returns the same candidate, with or without the prefix a=, for candidates of space-free tokens, lower-case protocol and optional properties only where the writer shows them |
| `IceCandidate.TokensRoundTrip` | webrtc-client/p2p/adapter-latest.js:2775-2859 | the tokens written for a candidate mean the candidate |
| `IceCandidate.SplitOfTokens` | webrtc-client/p2p/adapter-latest.js:2858 | if no value has a space in it the tokens survive joining and splitting at spaces |
| `IceCandidate.JoinOfSplit` | webrtc-client/p2p/adapter-latest.js:2775-2783 | the parts of a text have no space in them and make up the text, one space between them |
| `IceCandidate.ParseCandidate` | webrtc-client/p2p/adapter-latest.js:2775-2820 | the loop over names and values builds the candidate that the parts mean; none exactly if there are fewer than three parts |
| `IceCandidate.LastCounts` | webrtc-client/p2p/adapter-latest.js:2796-2810 | raddr, rport, tcptype and ufrag each set their property to what is behind them, ufrag two, and the last one counts |
| `IceCandidate.FirstCounts` | webrtc-client/p2p/adapter-latest.js:2811-2817 | any other name sets the property of its name if there is none yet, so that the first one counts |
| `IceCandidate.NothingOverwrites` | webrtc-client/p2p/adapter-latest.js:2796-2818 | a property is left as it is by every name that is not for it, and one that is defined by extensions of its name |
| `IceCandidate.WriteCandidate` | webrtc-client/p2p/adapter-latest.js:2824-2859 | the line has the parts that describe the candidate, one space between them: the protocol in capitals, the component as its number, the address or else the ip, raddr with rport, tcptype and ufrag at their places and only when there is what to show; if no value has a space in it these are the parts that the line splits into |
| `IceCandidate.TokensDescribe` | webrtc-client/p2p/adapter-latest.js:2824-2858 | the parts of a line at their places, for every candidate with a protocol |
| `IceCandidate.ParseIntTakes` | webrtc-client/p2p/adapter-latest.js:2788-2791 | of blanks, a sign, digits and something else behind them the number is taken |
| `IceCandidate.NumberRoundTrip` | webrtc-client/p2p/adapter-latest.js:2788-2791 | parsing the decimal digits of a number gives the number |
| `IceCandidate.ExtrasRoundTrip` | webrtc-client/p2p/adapter-latest.js:2796-2818 | the optional tokens set exactly the optional properties |

## Left out

- The operating system and libraries: sockets, the timing of `epoll_wait`, `select` and `poll` (so `WaitSelect` and `WaitPoll`), pthreads, OpenSSL, certificates, logging, tracing. `epoll_ctl` is an interest list with its errors; the answers of OpenSSL and of the clock are inputs.
- Weak memory: the atomics of the invoker, the counters and the quit flag are sequentially consistent.
- Fairness: that a thread which can take a step does take it, and that functors end. `AsyncInvoker.WaitIsNeverStuck` gives the step, and `AsyncInvoker.CanFinish` the run that ends the destructor.
- `AsyncInvoker.WaitIsNeverStuck`: not for a destructor whose own thread holds a closure of the invoker, a case that the start-of-chain rule admits; there the destructor never ends.
- The AsyncInvoker's delayed invocations: for the teardown they are queued closures like the others.
- Destroying an adapter, a thread or a dispatcher from within its own event handler.
- Integer widths: sizes, lengths, times, keys and counts are unbounded. Message numbers are below 2^32, as the check at thread.cc:626 demands. Words, varints and 24-bit integers have their widths.
- The standard library's heap functions: they are the textbook binary heap; only that the vector is a heap is used.
- Sockets are records found by address instead of objects, so that an address can be freed and used again; their methods are methods of the server.
- `EventLoop.PhysicalSocketServer.DispatchPolled`: what a handler does is a list of operations fixed beforehand, not a program that reads the state; any list is allowed.
- `MessageQueue.Thread.Get`: other threads act at the points where the lock is free, in any number of atomic steps: the flag test of a post, a push, a clear, a quit or a restart under the lock.
- `QueueQuit.WithoutPostsDelivers`: for a `Get` without a deadline, due means due when the clock was last read; what comes due later is in `QueueQuit.QuitDeliversUnless`, which is for any time.
- Raw pointers kept from `CopyOnWriteBuffer::data()` across later calls, and source data that lies in the payload that is written.
- The block of a shared payload is a byte sequence with a capacity; its cells and their zeroing are in `Buffer`.
- `CopyOnWriteRuns.RunAll`: handles are made empty, copied or moved, not from bytes or a size; and no handle is appended to itself, where the source would read bytes that it may have moved.
- A non-empty `CopyOnWriteBuffer` view of a part of another buffer (slices), and the typed overloads of the buffers: elements are bytes.
- `CopyOnWrite.CopyOnWriteBuffer.Equals`: not equality of contents, because the source tells a buffer without a payload from an empty one.
- `Buffer.BufferT.MoveFrom`: the moved-from buffer is empty, as in a build without debug checks, which scramble its fields on purpose.
- The amortized bound with exact `EnsureCapacity` calls mixed in, for which it does not hold.
- `Buffer.BufferT.AppendDataWith`: the setter is the bytes it reports; one that writes past what it reports is excluded, as the comment in the source asks.
- Client authentication is fixed for an adapter; the setter for it is for tests.
- `DtlsSpec.OpensOnceIff`: the wrapped stream opens only before negotiation, and a digest is set once, as the debug checks of the source demand.
- The delivery of a posted SE_OPEN is not counted again; the count is of signals and posts.
- `Word64.Number`: the number of a word is defined digit by digit; that this is Dafny's own conversion of words to integers is not shown.
- `Crc32.UpdateCrc32`: the table is built for each call, not once.
- Property names of `Object.prototype` in stats and candidates, numbers beyond 2^53, and upper and lower case outside ASCII.
- `StatsWalk.WalkStats`: a property named in `Ids` is a list, as the statistics API has it; anything else there raises an error in the source. A report is keyed by the ids of its stats.
- `IpPrefix.CountIPMaskBits`: for masks that are not contiguous it says what is counted, not that this is a prefix length.
- `IceCandidate.RoundTrip`: the condition on candidates is sufficient; that it is necessary is not shown.
- Base64, time conversion, session cache, cipher tables, `strcpyn`, UUIDs, network constants, and the browser shims: easy members or calls into the browser.
