# Verification of the reactor web server and its logger

A Dafny model of the server's concurrent core: the epoll reactor with its connections and timers, the
cross-thread functor queue, the worker pool, and the double-buffered logger, with the loops under them.

| file | what it is about |
|---|---|
| `ThreadPool.dfy` | the task ring, its condition variable, and the two ways of shutting down |
| `EventLoop.dfy` | functors queued from any thread, the eventfd, and the loop that may block in `epoll_wait` |
| `Connection.dfy` | what one delivered event does to one connection, as a function |
| `Service.dfy` | what a client gets: the handlers call by call, and requests with their responses end to end |
| `Polling.dfy` | what epoll reports, which connections it concerns, and when `poll` returns, as functions |
| `Reactor.dfy` | connections, timer nodes, descriptor tables and the kernel's registrations, as objects, over whole runs |
| `Deadline.dfy`, `Sweep.dfy` | the wrapping millisecond stamps that timers compare, and what a sweep over a queue of deadlines closes on any clock |
| `AsyncLogging.dfy` | the logger: rotation, swap, overload drop, writing and recycling of buffers |
| `FixedBuffer.dfy`, `LogStream.dfy`, `Decimal.dfy`, `AppendFile.dfy` | log lines, integer formatting, the log file |
| `PartialIo.dfy` | `readn` and `writen` under partial, interrupted and failing system calls |
| `Headers.dfy`, `HeaderStatus.dfy` | the header parser on a whole block, and what its three answers mean |

How it is done:

- Two protocols are given twice. First as a state with atomic events, over which an invariant is proved for
  every interleaving (`ThreadPool.Next`, `EventLoop.Next`); then as a class with the source's fields, whose
  methods are proved to take exactly those steps. Events are critical sections, system calls and wakeups.
- The logger's methods are its critical sections and the writer's steps. Other threads may append between any
  two of them, so the class invariant holds in every reachable state. Buffers are heap objects with storage of
  their own; a ledger gives every buffer one holder, which is what excludes aliasing.
- The reactor's connections, timer nodes and tables are heap objects. A run is any sequence of iterations; reads,
  writes, parser results, `epoll_ctl` results, clock readings, delivered events and accepted descriptors are
  arbitrary. `Epoll.Valid()` is what every iteration keeps, and `BetweenRounds` spells it out.
- Histories (`accepted`, `taken`, `queued`, `executed`, `appended`, `sent`, `produced`, `closes`) are compared
  with the real fields; nothing the code does depends on them, nor on the ghost fields that say where a thread
  stands. `Epoll.kernel`, `Loop.eventFd` and `Loop.debts` are the system's and the other threads' side.

Three lines of the source are read as the code around them means them:

- `WebServer/ThreadPool.cpp:146` locks the mutex a second time where its own message says "unlock"; it is read as the unlock.
- `WebServer/base/LogStream.cpp:25` assigns in `if(value = 0)`; it is read as `value < 0`.
- `WebServer/HttpData.cpp:457` compares in `m_state == H_VALUE;`; it is read as `m_hState = H_VALUE`.

Where the code does less than one would expect of it, the exact extent is stated and proved:

- A timer whose stored deadline passes 10000 seconds never expires (`Deadline.NeverExpires`, an if-and-only-if).
- The draining branch of `handleConn` sets a mask that is never registered, so a response can be left behind
  (`Connection.DrainingKeepsItsMask`); the connection hears that it can write exactly if it already waited for
  that (`Reactor.Epoll.DrainingHearsOut`). It is also the one open state without a timer. Nothing is ever reported
  for such a connection if and only if its one-shot registration is spent (`Reactor.Epoll.DrainingIsStuck`), and
  then no run ever touches it again (`Reactor.Epoll.Run`).
- Stamps wrap, so the clock a sweep reads may step back, and then a sweep may leave a timer that an earlier
  reading had reached (`Sweep.LeftBehind`, with numbers). A sweep closes exactly what its readings have reached,
  whatever the deadlines, if and only if the clock never steps back (`Sweep.ExactIffSteady`). On any clock it
  closes nothing that no reading has reached, and leaves nothing that its last reading has.
- `writen` sends bytes twice if and only if a call fails after an earlier one has taken part of the buffer
  (`PartialIo.WritenAccounting`, and `PartialIo.OneByteTwice` for two calls that do it).
- Timers are examined only after an event: when `epoll_wait` times out, `poll` just waits again. It returns if and
  only if a connection or one of the loop's own channels has an event (`Polling.PollHasACause`), and an iteration
  that has not returned from it reads no clock and touches no connection (`Reactor.Epoll.Round`).
- A `quit` from before `loop()` is forgotten (`EventLoop.QuitBeforeLoopIsLost`); in every run the loop leaves at a
  test of the flag if and only if somebody has called quit since it started (`EventLoop.LeavesIffQuitSinceEnter`).
- A functor queued by the loop thread while timers expire is left unannounced if and only if nothing else is
  outstanding then (`EventLoop.QueueingWhileExpiringIsLost`); the repository queues functors only from handlers and
  functors, and for those nothing is missed.
- A second `threadpool_destroy` is refused, and leaves with the mutex locked; a shutdown sees all workers off if
  and only if no second one is called before they have exited (`ThreadPool.EndsUnlessCutOff`).
- A connection can be registered for writing with nothing left to send (`Service.WritingWithNothingLeft`): writing
  is asked for if and only if some write of the event left something, even if a later one sent it
  (`Service.AskedIffLeft`).
- The header parser swallows the first character after the blank line, and does not look at the first character
  of a value (`Headers.AcceptsExactlyBlocks`).
- The logger gives up the third and later buffers of a batch of more than 25, and nothing else
  (`AsyncLogging.SurvivingLines`); a line of 4096000 characters or more is dropped (`AsyncLogging.AsyncLogging.Append`).

## Model

| member | source | states |
|---|---|---|
| ThreadPool.NextInv | WebServer/ThreadPool.cpp:52-158 | every critical section, wakeup and task return keeps the invariant: ring within bounds, accepted = taken + queued, every taken task finished or in exactly one worker's hands, no lost signal, orderly exits |
| ThreadPool.RunInv | WebServer/ThreadPool.cpp:52-158 | the invariant holds after every interleaving of callers and workers |
| ThreadPool.NextSleepers | WebServer/ThreadPool.cpp:59-77 | while any worker sleeps there are at least as many awake workers heading for the predicate test as queued tasks, across signals, spurious wakeups and stolen tasks; after shutdown nobody sleeps |
| ThreadPool.NextOnce | WebServer/ThreadPool.cpp:140-150 | no task is executed twice or lost: a ticket is finished or in the hands of exactly one worker |
| ThreadPool.NextExits | WebServer/ThreadPool.cpp:133-139 | no worker leaves a serving pool, nor a gracefully stopping one that still has a queued task |
| ThreadPool.NoTaskIsStranded | WebServer/ThreadPool.cpp:59-150 | in every reachable state a non-empty queue has an awake worker unless the stop is immediate, tasks leave in the order they were accepted, and at most `queue_size` wait |
| ThreadPool.WorkAfterShutdown | WebServer/ThreadPool.cpp:84-158 | after shutdown no task is accepted, every worker step decreases twice the queue plus executing plus not-exited workers, and an immediate stop takes no further task |
| ThreadPool.WorkWhileServing | WebServer/ThreadPool.cpp:125-150 | while the pool serves, every worker step brings the work at hand nearer to its end, and only a spurious wakeup adds to it |
| ThreadPool.ServesEverything | WebServer/ThreadPool.cpp:125-150 | in every run without new tasks, spurious wakeups apart, a bounded number of worker steps is left; some worker can step until every accepted task has been taken, in order, and has returned |
| ThreadPool.ShutdownDrains | WebServer/ThreadPool.cpp:84-158 | over every run after shutdown the number of worker steps is bounded, some worker can step until all have exited unless a second shutdown has kept the mutex, and a graceful stop ends only with every accepted task taken in order and returned |
| ThreadPool.SecondShutdownBlocks | WebServer/ThreadPool.cpp:90-94 | after a refused second shutdown no worker leaves, takes a task or sleeps in any run, and nobody else gets the mutex |
| ThreadPool.EndsUnlessCutOff | WebServer/ThreadPool.cpp:84-158 | a shutdown run to its end has seen all workers off if and only if no second one was called before they had exited |
| ThreadPool.AtIsModulo | WebServer/ThreadPool.cpp:60-72 | ring positions computed with one subtraction are the ones the source computes modulo the queue size |
| ThreadPool.Pool.TailFollowsHead | WebServer/ThreadPool.cpp:59-72 | tail == (head + count) mod queue_size and 0 <= count <= queue_size |
| ThreadPool.Pool.constructor | WebServer/ThreadPool.cpp:18-50 | a thread or queue count out of range selects 4 threads and 1024 slots; the pool starts in the protocol's initial state |
| ThreadPool.Pool.Add | WebServer/ThreadPool.cpp:52-82 | full is reported before shut down; otherwise the task is accepted and the ring takes exactly the protocol's step; a refused call changes neither history nor ring |
| ThreadPool.Pool.Put | WebServer/ThreadPool.cpp:60-72 | the slot at the tail is empty, so no waiting task is overwritten, and the new task is last in the ring's contents |
| ThreadPool.Pool.Take | WebServer/ThreadPool.cpp:140-145 | the first waiting task is returned and the others keep their order across wrap-around |
| ThreadPool.Pool.Test | WebServer/ThreadPool.cpp:128-149 | with a task queued and no immediate stop, the worker takes the first one and executes it; otherwise it sleeps in a serving pool and exits from a stopping one |
| ThreadPool.Pool.Finish | WebServer/ThreadPool.cpp:150-151 | the task's ticket is finished and the worker goes round its loop |
| ThreadPool.Pool.Destroy | WebServer/ThreadPool.cpp:84-100 | the first call sets shutdown and wakes every sleeper; any later one is refused with THREADPOOL_SHUTDOWN, changes nothing, and keeps the mutex |
| EventLoop.NextInv | WebServer/EventLoop.cpp:42-115 | every atomic action of the loop or of another thread keeps order conservation and the announcement invariant |
| EventLoop.NextAnnounced | WebServer/EventLoop.cpp:77-102 | except between a poll and the swap after it, pending functors imply a deliverable eventfd event or an outstanding wakeup; the same for quit at poll |
| EventLoop.RunInv | WebServer/EventLoop.cpp:42-115 | the invariant holds after every interleaving |
| EventLoop.NoMissedWakeup | WebServer/EventLoop.cpp:42-115 | a loop blocked in poll with functors pending or quit set has its eventfd event waiting or some thread between push and wakeup; queued == executed + batch + pending |
| EventLoop.QueuedFunctorsGetExecuted | WebServer/EventLoop.cpp:42-60 | from a blocked poll without outstanding wakeups, the loop can return and its next round executes everything queued, in order |
| EventLoop.SnapshotIsExecuted | WebServer/EventLoop.cpp:104-115 | between the swap and the end of the batch exactly the swap-time snapshot is executed, whatever is queued meanwhile |
| EventLoop.QueueingWhileExpiringIsLost | WebServer/EventLoop.cpp:56-85 | in the expiring phase, one push by the loop thread ends as an unannounced functor of a loop blocked in poll if and only if no quit, no owed wakeup and no deliverable event is outstanding |
| EventLoop.QuitBeforeLoopIsLost | WebServer/EventLoop.cpp:42-46 | whatever other threads have done before loop() starts, quit included, the loop goes to poll |
| EventLoop.QuitIsKept | WebServer/EventLoop.cpp:42-67 | once the loop has started, the flag is set if and only if it was or somebody has called quit, whatever else happens |
| EventLoop.LeavesIffQuitSinceEnter | WebServer/EventLoop.cpp:42-67 | in every run, a test of the flag leaves the loop if and only if some quit came after loop() started |
| EventLoop.Loop.QueueInLoop | WebServer/EventLoop.cpp:77-85 | appends under the mutex and asks for a wakeup unless the loop thread calls it outside the pending functors |
| EventLoop.Loop.Quit | WebServer/EventLoop.cpp:62-67 | sets the flag, and owes a wakeup only when another thread calls |
| EventLoop.Loop.Wakeup | WebServer/EventLoop.cpp:87-93 | one more on the eventfd, unless it is full, when its event is pending anyway |
| EventLoop.Loop.HandleRead | WebServer/EventLoop.cpp:95-102 | one read empties the counter, and the channel asks for edge-triggered reading again |
| EventLoop.Loop.HandleConn | WebServer/EventLoop.cpp:117-119 | by then the wanted mask is the registered one, so the registration is never touched |
| EventLoop.Loop.SwapFunctors | WebServer/EventLoop.cpp:104-110 | the critical section takes the whole queue and sets the calling flag |
| EventLoop.Loop.DoPendingFunctors | WebServer/EventLoop.cpp:104-115 | executes the functors found at the swap, each once and in order; what was queued meanwhile is still queued |
| EventLoop.Loop.Run | WebServer/EventLoop.cpp:42-60 | clears the quit flag, keeps the invariant over every iteration in the order drain, swap, run, expire, poll; leaves at the first test after a quit and at no other; nothing queued is lost or reordered, and one iteration executes everything queued before it |
| Connection.WriteKeeps | WebServer/HttpData.cpp:269-282 | without error sent + outBuffer stays what was produced, and OUT is asked for whenever output is left over |
| Connection.ParseKeeps | WebServer/HttpData.cpp:166-250 | reading and parsing send and append responses without breaking sent + outBuffer == produced, and never undo an error or the peer's end of stream |
| Connection.ReadKeeps | WebServer/HttpData.cpp:165-267 | the same through the recursion of handleRead for any reads and parser results, with OUT asked for whenever output is left over; responses are only appended |
| Connection.Reregistered | WebServer/HttpData.cpp:287-314 | a connected, error-free connection is registered OUT and edge-triggered if and only if its handlers asked for OUT, else IN and edge-triggered, for 300000, 150000 or 2000 ms by keep-alive and whether anything was asked for; a peer-closed one drains if and only if OUT was asked for; all else is closed |
| Connection.Concluded | WebServer/HttpData.cpp:284-315 | handleConn updates only connected connections, drains only disconnecting ones, and closes only after an error or with nothing left to write |
| Connection.HandledConnection | WebServer/Channel.h:68-89 | a delivered event leaves the connection accounted for and asking for the right mask, or draining, or closed for a reason; and untouched if and only if it is a descriptor error or a hang-up without input |
| Service.WriteExactly | WebServer/HttpData.cpp:269-282 | handleWrite sends just what the calls before the first blocking or failing one take; what is left stays and is asked for; if a call fails first, that is the error |
| Service.ParseExactly | WebServer/HttpData.cpp:166-250 | by the read calls themselves: failing, finding the end of the stream with or without data, and delivering data each take their branch, with every field determined |
| Service.ReadTrace | WebServer/HttpData.cpp:252-267 | handleRead goes on exactly as long as finished requests leave input behind, and asks for IN if its last pass finished one and used up the input |
| Service.AskedIffLeft | WebServer/HttpData.cpp:252-282 | without an error OUT is asked for if and only if one of the writes left something |
| Service.AllAnswered | WebServer/HttpData.cpp:165-267 | requests that arrive together are all answered by one call, in order, all responses are sent if the socket takes them, and keep-alive is remembered |
| Service.RequestsAreAnswered | WebServer/Channel.h:68-89 | end to end: everything ever produced has been sent, and the connection is registered for reading with the deadline its keep-alive asks for |
| Service.EverythingIsSent | WebServer/Channel.h:68-89 | end to end for any input: on a socket that takes what it is given, without an error sent == produced after every event |
| Service.WritableIsUsed | WebServer/Channel.h:85-87 | a writable event sends just what the calls take |
| Service.WritingWithNothingLeft | WebServer/HttpData.cpp:255-298 | concrete input: two pipelined requests, the first write blocks, the second sends all, and the connection waits for writing |
| Connection.DrainingKeepsItsMask | WebServer/HttpData.cpp:309-311 | concrete input on which a response waits in a draining connection that is registered for reading only |
| Reactor.TimerNode.ClearReq | WebServer/Timer.cpp:50-53 | the node forgets its connection and is marked |
| Reactor.TimerNode.IsValid | WebServer/Timer.cpp:37-48 | true exactly before the deadline; marks the node otherwise |
| Reactor.HttpData.SeparateTimer | WebServer/HttpData.cpp:146-152 | the linked node is cleared and unlinked |
| Reactor.HttpData.EqualAndUpdateLastEvents | WebServer/Channel.h:62-66 | tells whether the cached mask equals the wanted one, and caches the wanted one |
| Reactor.HttpData.HandleWrite | WebServer/HttpData.cpp:269-282 | over the real partial-write loop: sent grows by the prefix the leading calls take, error if and only if a call fails before the rest is out, outBuffer keeps exactly the rest, OUT is asked for if and only if there is one |
| Reactor.HttpData.ReadAndParse | WebServer/HttpData.cpp:166-250 | over the real readn loop, every field for each way the reads can go: nothing while disconnecting, an error page, the peer's closing, and the parsed request |
| Reactor.HttpData.HandleRead | WebServer/HttpData.cpp:165-267 | the recursive method is the function of which ReadTrace, AllAnswered and ReadKeeps are proved; its timer is cleared if and only if a request was finished without error |
| Reactor.Epoll.AddTimer | WebServer/Timer.cpp:63-68 | one new node, linked, with deadline now + timeout; every other connection's deadline is unchanged |
| Reactor.Epoll.EpollAdd | WebServer/Epoll.cpp:29-49 | timer, table entry and kernel registration appear together; a refused call leaves the timer but no entry |
| Reactor.Epoll.EpollMod | WebServer/Epoll.cpp:51-68 | skipping the call for an equal mask leaves the kernel as a successful call would; a spent one-shot registration is always really modified |
| Reactor.Epoll.HandleClose | WebServer/HttpData.cpp:154-158 | disconnected, one more close, entry gone even when the delete call fails |
| Reactor.Epoll.NewEvent | WebServer/HttpData.cpp:160-163 | the loop's invariant survives taking on a connection; it is armed with the default timeout and, if the system agrees, registered one-shot |
| Reactor.Epoll.HandleConn | WebServer/HttpData.cpp:284-315 | re-armed with 300000, 150000 or 2000 ms from now and registered for OUT or IN as the handlers asked, or draining without a timer, or closed exactly once and otherwise as its handlers left it; everybody else keeps deadline and registration |
| Reactor.Epoll.HandleEvents | WebServer/Channel.h:68-89 | the same for a whole delivered event, from handlers to handleConn; with HandledConnection, a close comes only after an error or with nothing left to write; nothing happens on a bare hang-up or an error |
| Polling.OnlyAllowed | WebServer/Epoll.cpp:88-90 | only happenings that armed registrations ask for are reported, once a descriptor; a report spends a one-shot registration and changes nothing else |
| Polling.AllAllowed | WebServer/Epoll.cpp:88-90 | everything that happens is reported if the registrations allow it |
| Polling.NothingSwallowed | WebServer/Epoll.cpp:88-90 | a descriptor whose registration allows one of the happenings is reported, whatever else happens |
| Polling.BatchBelongs | WebServer/Epoll.cpp:102-117 | every collected connection is registered for a reported descriptor, with that report's events |
| Polling.BatchCovers | WebServer/Epoll.cpp:102-117 | every reported descriptor that is registered has its connection collected |
| Polling.BatchInOrder | WebServer/Epoll.cpp:102-117 | connections are collected in the order of the reports |
| Polling.PollHasACause | WebServer/Epoll.cpp:86-100 | poll returns if and only if some connection or one of the loop's own channels has an event; the connections returned have events of one attempt, on registrations that still delivered |
| Polling.PollAtOnce | WebServer/Epoll.cpp:86-100 | what the registrations allow of the first attempt is returned at once if anything of it concerns the loop |
| Reactor.Epoll.Wait | WebServer/Epoll.cpp:88-90 | the reports and registrations of which OnlyAllowed and AllAllowed are proved |
| Reactor.Epoll.Poll | WebServer/Epoll.cpp:86-100 | the loop returns just the batch of which PollHasACause and PollAtOnce are proved, with masks cleared, and touches nobody else |
| Reactor.Epoll.GetEvents | WebServer/Epoll.cpp:102-117 | exactly the registered connections of the reported descriptors, in order, with masks cleared; others are passed over |
| Reactor.Epoll.BatchIsReady | WebServer/Epoll.cpp:102-117 | every collected connection is registered, collected once, and its events are allowed by its cached mask |
| Reactor.Epoll.HandleAll | WebServer/EventLoop.cpp:52-54 | every connection of the batch has the view, deadline and registration its own event asks for, undisturbed by the others, and nobody else is touched |
| Reactor.Epoll.Destroy | WebServer/Timer.cpp:19-23 | a node that still has its connection closes it; a cleared one does nothing |
| Reactor.Epoll.Discard | WebServer/Timer.cpp:73-74 | popping a marked node never closes anything |
| Reactor.Epoll.Expire | WebServer/Timer.cpp:75-80 | an expired node closes exactly its own connection; a valid one stays and nothing changes |
| Reactor.Epoll.HandleExpired | WebServer/Timer.cpp:70-82 | on any clock: connections are closed in the order of their linked deadlines, one reading each, and only if that reading has reached the deadline; all others are untouched, and the last reading has reached no deadline that is left. With a clock that never steps back: exactly the reached ones are closed, so the queue refines a filter on the map from connections to deadlines |
| Sweep.EitherWay | WebServer/Timer.cpp:70-82 | on any clock, what a sweep closed was reached by a reading, and what it left was not reached by the last one |
| Sweep.SteadyIsExact | WebServer/Timer.cpp:70-82 | on a clock that never steps back, exactly the reached deadlines are closed |
| Sweep.ExactIffSteady | WebServer/Timer.cpp:37-82 | sweeps are exact for all deadlines if and only if the clock never steps back |
| Sweep.LeftBehind | WebServer/Timer.cpp:37-82 | concrete input: deadlines 2000 and 2005, readings 3000 and 2001; every sweep closes just the first |
| Sweep.SteadySweep | WebServer/Timer.cpp:70-82 | on such a clock what is left is exactly the map restricted to deadlines beyond the last reading |
| Sweep.SweepInOneWindow | WebServer/Timer.cpp:9-82 | with every arming and reading in one 10000-second window, a sweep closes exactly the timers whose elapsed whole milliseconds have reached their timeout at its last reading |
| Reactor.SomeNodeIsLeast | WebServer/Timer.h:31-36 | a non-empty queue has a node of least deadline for top to return |
| Reactor.AdmittedAreFree | WebServer/Server.cpp:42-63 | only arrivals at free descriptors are taken on, at most one for each |
| Reactor.FreeAreAdmitted | WebServer/Server.cpp:42-63 | and one for each free descriptor that is accepted |
| Reactor.Epoll.FreeFd | WebServer/HttpData.cpp:154-158 | a descriptor counts as taken if and only if some connection is registered for it or still has a timer |
| Reactor.Epoll.TakeOn | WebServer/Server.cpp:36-65 | every accepted free descriptor gets exactly one new connection, armed with now + 2000, asking for one edge-triggered read event and registered for it if the system agrees; no existing connection is touched |
| Reactor.Epoll.Round | WebServer/EventLoop.cpp:48-58 | the connections handled are those poll returns for what happened; after the iteration each is as its handlers left it, or closed because a reading reached the deadline they gave it; every other one is untouched, or closed because a reading reached its deadline; exactly the arrivals at descriptors free by then are taken on, likewise; the last reading has reached no deadline left; without a return from poll nothing changes; closed and stuck connections never change again |
| Reactor.Epoll.Run | WebServer/EventLoop.cpp:42-60 | the invariant holds after any number of iterations with arbitrary peers, system and clock; closed is final; a connection to whose descriptor nothing happens in the whole run is untouched, or closed because a reading of some iteration reached the deadline it had; a draining connection whose registration is spent stays as it is for good |
| Reactor.Epoll.BetweenRounds | WebServer/HttpData.cpp:132-163 | closed at most once; connected exactly if one uncleared node in the queue, the linked one, has it; draining is the only open state without timer; cached mask = kernel mask; pending output of a connected, registered connection is registered OUT and edge-triggered; sent + outBuffer == produced |
| Reactor.Epoll.DrainingHearsOut | WebServer/HttpData.cpp:309-311 | the kernel can report a draining connection writable if and only if it was already registered for that |
| Reactor.Epoll.HearsInput | WebServer/HttpData.cpp:287-308 | the kernel can report input for a registered connection if and only if it is not registered for writing and its registration is not spent |
| Reactor.Epoll.DrainingIsStuck | WebServer/HttpData.cpp:309-311 | nothing can ever be reported for a draining connection if and only if its one-shot registration is spent |
| Deadline.StampIsMillis | WebServer/Timer.cpp:15-16 | the stamp is the clock's milliseconds within its 10000-second window |
| Deadline.InvalidWhenElapsed | WebServer/Timer.cpp:37-48 | within a window a node is invalid if and only if the elapsed whole milliseconds reach its timeout |
| Deadline.WithinAMillisecond | WebServer/Timer.cpp:37-48 | less than a millisecond early in real time, never late |
| Deadline.NeverExpires | WebServer/Timer.cpp:15-48 | a node stays valid for ever if and only if its stored deadline is 10000000 or more |
| Deadline.StuckConnection | WebServer/Timer.cpp:15-48 | concrete instance: a default timeout armed in the last two seconds of a window |
| Deadline.ValidAgainInTheNextWindow | WebServer/Timer.cpp:37-48 | a node not examined within its window is valid until the stamp comes round again |
| AsyncLogging.WrittenInOrder | WebServer/base/AsyncLogging.cpp:77-82 | the lines written are a subsequence of the lines appended, for any batches |
| AsyncLogging.MissingLines | WebServer/base/AsyncLogging.cpp:77-79 | lines are missing if and only if a batch of more than 25 had lines beyond its second buffer, and exactly as many as those buffers held |
| AsyncLogging.SurvivingLines | WebServer/base/AsyncLogging.cpp:25-104 | what has reached the file or will is everything appended, in order, minus exactly the lines given up |
| AsyncLogging.SurvivingText | WebServer/base/AsyncLogging.cpp:61-82 | written text + rest of the batch + queued buffers + current buffer is the text of the surviving lines |
| AsyncLogging.MovesKeepLines | WebServer/base/AsyncLogging.cpp:30-73 | rotating, swapping and retiring move lines without losing or reordering any |
| AsyncLogging.RotateOwned | WebServer/base/AsyncLogging.cpp:30-36 | rotation keeps every buffer with one holder and next missing exactly while buffers are queued |
| AsyncLogging.SwapOwned | WebServer/base/AsyncLogging.cpp:60-79 | so does the swap with the overload cut, which leaves the writer enough buffers to refill its spares |
| AsyncLogging.RecycleOwned | WebServer/base/AsyncLogging.cpp:83-100 | so does recycling, after which both spares are there and empty |
| AsyncLogging.HoldersAreDistinct | WebServer/base/AsyncLogging.cpp:26-100 | all holders are different buffers, and 3 + max(1, queued) are live at the writer's loop head |
| AsyncLogging.AsyncLogging.constructor | WebServer/base/AsyncLogging.cpp:8-53 | four fresh empty buffers establish the invariant |
| AsyncLogging.AsyncLogging.Append | WebServer/base/AsyncLogging.cpp:25-40 | a line that fits goes to the current buffer and nothing moves; else the full buffer is queued, next or a new one becomes current and holds just the line; kept if and only if it is shorter than a whole buffer |
| AsyncLogging.AsyncLogging.Rotate | WebServer/base/AsyncLogging.cpp:30-36 | the full buffer is queued and an empty one, next or new, becomes current |
| AsyncLogging.AsyncLogging.Swap | WebServer/base/AsyncLogging.cpp:60-79 | the batch is all queued buffers and the current one, or the first two of more than 25; the spares step in as current and, if missing, as next; the invariant is kept |
| AsyncLogging.AsyncLogging.WriteNext | WebServer/base/AsyncLogging.cpp:80-82 | the next buffer's text reaches the file through the partial-write loop, or the file has failed |
| AsyncLogging.AsyncLogging.Recycle | WebServer/base/AsyncLogging.cpp:83-100 | the asserted non-empty batch is there, and the spares are the last of its first two buffers and, if missing, the other one, emptied |
| AsyncLogging.AsyncLogging.TakeBatch | WebServer/base/AsyncLogging.cpp:56-79 | all asserts up to the swap hold with appends in between, and everything appended before is in the batch or in earlier ones |
| AsyncLogging.AsyncLogging.WriteBatch | WebServer/base/AsyncLogging.cpp:80-82 | the whole batch is written while others append, and the batch itself does not change |
| AsyncLogging.AsyncLogging.OneRound | WebServer/base/AsyncLogging.cpp:55-102 | everything appended before the round is dealt with when it ends |
| AsyncLogging.AsyncLogging.ThreadFunc | WebServer/base/AsyncLogging.cpp:42-104 | the same over any number of rounds |
| AsyncLogging.AsyncLogging.Conservation | WebServer/base/AsyncLogging.cpp:25-104 | in every reachable state without file error, file + unwritten batch + queued + current buffers are the surviving lines, whole and in order |
| AsyncLogging.AsyncLogging.FileAtLoopHead | WebServer/base/AsyncLogging.cpp:55-102 | at the loop head the file holds exactly the kept lines of the batches dealt with, all of them if none was overlong |
| AsyncLogging.AsyncLogging.NoAliasing | WebServer/base/AsyncLogging.cpp:26-100 | no two holders share a buffer or its storage |
| Buffers.FixedBuffer.Append | WebServer/base/LogStream.h:22-27 | a line goes in whole if more than its length is left, else not at all |
| Buffers.FixedBuffer.Reset | WebServer/base/LogStream.h:36 | the buffer is empty again |
| AppendFiles.AppendFile.Append | WebServer/base/FileUtil.cpp:19-34 | however fwrite splits it, the whole text is appended in order, or a prefix of it and then the stream has failed |
| LogStream.LineStaysShort | WebServer/base/LogStream.h:22-34 | after any insertions a line has fewer than 4096 characters |
| LogStream.ShortLinesAreComplete | WebServer/base/LogStream.cpp:98-105 | nothing is dropped from a line that leaves the 32 reserved characters free |
| LogStream.IntegerWidth | WebServer/base/LogStream.cpp:98-105 | at most 20 characters for any 64-bit value |
| LogStream.Stream.Insert | WebServer/base/LogStream.h:48-98 | for each overload, the exact text appended and the exact room it needs: 32 characters free for a number, whose digits parse back to it, more than its length for anything else |
| LogStream.Stream.FormatInteger | WebServer/base/LogStream.cpp:98-105 | the number is formatted at the cursor if 32 characters are free, and dropped otherwise |
| LogStream.Stream.FormatFloat | WebServer/base/LogStream.cpp:79-93 | the same for the text of a floating-point number |
| LogStream.Stream.InsertAll | WebServer/base/LogStream.h:44-112 | a sequence of insertions yields the line of which LineStaysShort and ShortLinesAreComplete are proved |
| Decimal.Convert | WebServer/base/LogStream.cpp:14-31 | for every signed or unsigned 64-bit value the text written parses back to it, is canonical, has at most 20 characters and a NUL, and nothing else is overwritten |
| Decimal.PutBackwards | WebServer/base/LogStream.cpp:16-27 | truncating remainders through the mirrored table yield the digits backwards for either sign, including the minimum |
| Decimal.MirroredTable | WebServer/base/LogStream.cpp:10-22 | the table gives the last digit of the magnitude whatever the sign |
| Decimal.ReverseRange | WebServer/base/LogStream.cpp:29 | the range is reversed in place and nothing else changes |
| Decimal.TextRoundTrip | WebServer/base/LogStream.cpp:14-31 | parsing the text of a value gives the value |
| Decimal.ParseRoundTrip | WebServer/base/LogStream.cpp:14-31 | formatting what a canonical text parses to gives the text |
| PartialIo.InterruptedWrites | WebServer/Util.cpp:122-125 | EINTR makes no difference to a write |
| PartialIo.InterruptedReads | WebServer/Util.cpp:48-50 | EINTR makes no difference to a read |
| PartialIo.BrokenWhenFailing | WebServer/Util.cpp:120-137 | a write ends in an error if and only if some call fails while earlier ones made progress or were interrupted and left something to write; the bytes sent are those the earlier calls took |
| PartialIo.WritesExactly | WebServer/Util.cpp:91-144 | a write sends what the leading calls take up to all there is, and if that is not all, the next call says whether it is an error |
| PartialIo.ReadsExactly | WebServer/Util.cpp:42-65 | a read gets what the leading calls get, in pieces of at most 4096; the next call says whether it is the end of the stream, an error, or nothing more for now |
| PartialIo.WritenString | WebServer/Util.cpp:115-144 | by the calls themselves: what is sent, the exact count, and the exact rest; -1 and the buffer untouched if and only if a call fails before all is out; sent + rest == original if and only if no call fails midway |
| PartialIo.WritenAccounting | WebServer/Util.cpp:128-141 | sent + rest == original if and only if no call fails after earlier ones took some but not all bytes |
| PartialIo.OneByteTwice | WebServer/Util.cpp:128-141 | concrete input: of two bytes one is taken, then a call fails |
| PartialIo.Writen | WebServer/Util.cpp:91-113 | the raw version, for which a call that takes nothing is not the end: the prefix the leading calls take, its length, or -1 if and only if a call fails before all is out |
| PartialIo.ReadnString | WebServer/Util.cpp:42-65 | by the calls themselves: appends exactly the bytes got, in order; -1 if and only if the call after them fails, `zero` set if and only if it finds the end of the stream, the count otherwise |
| Headers.PrintedHeadersParse | WebServer/HttpData.cpp:419-516 | any non-empty list of well-formed headers (field syntax of section 3.2 of RFC 7230, keys without CR or LF) printed as a block parses with success, is consumed whole, and leaves the last-wins map |
| Headers.LastFieldWins | WebServer/HttpData.cpp:476-478 | the stored value of a key is that of its last field |
| Headers.AcceptsExactlyBlocks | WebServer/HttpData.cpp:419-516 | parsing succeeds if and only if the text is a block of tolerated headers, and then stores them and drops the first character of the body |
| Headers.BlockIsAccepted | WebServer/HttpData.cpp:425-513 | every tolerated block is accepted, stored over earlier headers, and consumed |
| Headers.HttpHeaders.Step | WebServer/HttpData.cpp:426-508 | one turn of the switch, with its indices into the buffer, is one step of the automaton |
| Headers.HttpHeaders.ParseHeaders | WebServer/HttpData.cpp:419-516 | status, remaining buffer and headers are those of the automaton for every buffer, of which AcceptsExactlyBlocks and ThreeAnswers are proved |
| HeaderStatus.ThreeAnswers | WebServer/HttpData.cpp:419-516 | success if and only if the text begins with a block; AGAIN if and only if it does not, but something can be added so that it does; ERROR if and only if nothing can; after ERROR the buffer is the whole text, after AGAIN the text from the last line begin on, with the complete lines stored |
| HeaderStatus.Completion | WebServer/HttpData.cpp:425-508 | in every state that is not an error some continuation is accepted |
| HeaderStatus.FailedForGood | WebServer/HttpData.cpp:437-498 | after an error no continuation is accepted |

## Left out

- Socket set-up, `accept`, signals, argument parsing and the test client. `Server::handNewConn` appears only as a producer of newEvent functors for descriptors that are not open.
- `AsyncLogging::stop`: the last buffer that was never swapped is not flushed by it; only what holds in every reachable state is claimed. `LogFile`'s locking and its empty `rollFile` are not modelled.
- AppendFiles.AppendFile.Append: a stream that takes nothing without raising its error flag for ever would make the loop spin; the model gives every run finitely many such answers.
- Reactor.HttpData.HandleRead: the request parser is abstract. After the real reads it waits, answers or rejects, and leaves any input, so the enum mix-up and the unfinished transitions at `WebServer/HttpData.cpp:209-223`, file serving, MIME types and the text of error pages are not modelled; error pages appear as bytes sent.
- Headers.HttpHeaders.ParseHeaders: only from H_START on a whole block; resuming after AGAIN, where the indices are lost between calls, is not modelled, nor are `parseURI` and POST bodies.
- Reactor.Epoll.Top: the heap inside `std::priority_queue` is taken by its contract, some node of least deadline, for any choice among equals.
- Reactor.Epoll.HandleExpired: deadlines and clock readings are arbitrary numbers; how the wrapping stamp produces them is the subject of `Deadline` and `Sweep.SweepInOneWindow`. Across a wrap no more is claimed than on any clock that steps back.
- Reactor.Epoll.BetweenRounds: a connection whose registration the system refused has a timer but no table entry, so the clause on pending output speaks of registered connections only.
- Reactor.HttpData: the masks of Channel are fields of the connection, a mask is the set of its flags, and `m_fd2chan` and `m_fd2http`, always set and reset together, are one map; a lapsed weak pointer is null.
- EventLoop.Loop.Run: the event handlers are those of `Reactor`; here they only queue functors and quit. The `m_looping` assert and a second call of `loop()` are not modelled.
- Reactor.Epoll.Poll: epoll_wait's own error return and its 10-second timeout look the same to the loop as a return with no events.
- PartialIo.ReadnString: the two-argument `readn`, whose `errno = EAGAIN` turns every error into AGAIN, and the raw one are not modelled; lengths are unbounded, so the `int` casts at 2^31 are not captured.
- ThreadPool.Pool.Destroy: failing pthread calls and failing thread creation are not modelled; joining is the condition that all workers have exited, and freeing the mutex afterwards is left out.
- `TimerNode::update` and its copy constructor, which are never called.
- LogStream.Stream.Insert: a floating-point number is the text snprintf makes of it, of at most 31 characters; the digits are not modelled. Inserting a pointer is declared in the source and never defined.
- Time formatting, allocation failure, `bzero`.
- Thread start-up, latches, thread-local ids and the round-robin choice of a loop: they would only add easy members.
