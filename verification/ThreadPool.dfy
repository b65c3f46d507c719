/**
  The worker pool: a bounded ring of tasks, one mutex, one condition variable and two
  ways of shutting down.

  Everything a worker or a caller does while it holds the mutex is one event here, so a
  run is an arbitrary interleaving of critical sections, task bodies and wakeups.  The
  first half is the protocol on values, with its invariant proved over every run.  The
  second half is the code: a class over the ring array, whose methods are proved to take
  exactly the protocol's steps.
 */
module ThreadPool {

  /** A queued call: which function, on which argument. */
  datatype Task = Task(fun: nat, args: nat)

  datatype Shutdown = Running | Immediate | Graceful

  /** Where a worker is.
      - Heading: awake, on its way to the mutex and the predicate test;
      - Sleeping: blocked on the condition variable;
      - Executing: running a task, without the mutex; `ticket` counts the tasks taken before it;
      - Exited: left the loop. */
  datatype Worker = Heading | Sleeping | Executing(task: Task, ticket: nat) | Exited

  /** `locked` says that somebody has gone away without unlocking the mutex.
      `accepted`, `taken` and `finished` are histories: every task ever accepted, every task
      ever taken off the ring, and the tickets of the tasks that have returned. */
  datatype State = State(
    size: nat,
    queue: seq<Task>,
    shutdown: Shutdown,
    locked: bool,
    workers: seq<Worker>,
    accepted: seq<Task>,
    taken: seq<Task>,
    finished: set<nat>)

  /** The atomic steps.
      - Add: one call of threadpool_add; the signal reaches worker `woken` when someone sleeps;
      - Destroy: the critical section of threadpool_destroy, with its broadcast; a call after the first
        is refused, and leaves without unlocking;
      - Test: a worker gets the mutex and goes through the predicate test;
      - SpuriousWake: a sleeping worker wakes although nobody signalled it;
      - Finish: a task body returns. */
  datatype Event =
    | Add(task: Task, woken: nat)
    | Destroy(option: Shutdown)
    | Test(worker: nat)
    | SpuriousWake(worker: nat)
    | Finish(worker: nat)
  {
    predicate ByWorker() { Test? || Finish? }
  }

  predicate SomeSleeps(ws: seq<Worker>) {
    exists i :: 0 <= i < |ws| && ws[i].Sleeping?
  }

  predicate Enabled(s: State, e: Event) {
    match e
    case Add(_, woken) => !s.locked && (SomeSleeps(s.workers) ==> woken < |s.workers| && s.workers[woken].Sleeping?)
    case Destroy(option) => !s.locked && !option.Running?
    case Test(w) => !s.locked && w < |s.workers| && s.workers[w].Heading?
    case SpuriousWake(w) => w < |s.workers| && s.workers[w].Sleeping?
    case Finish(w) => w < |s.workers| && s.workers[w].Executing?
  }

  /** A broadcast: every sleeper heads for the predicate test. */
  function WakeAll(ws: seq<Worker>): (r: seq<Worker>)
    ensures |r| == |ws|
    ensures forall i :: 0 <= i < |ws| ==> r[i] == if ws[i].Sleeping? then Heading else ws[i]
  {
    seq(|ws|, i requires 0 <= i < |ws| => if ws[i].Sleeping? then Heading else ws[i])
  }

  function Next(s: State, e: Event): State
    requires Enabled(s, e)
  {
    match e
    case Add(task, woken) =>
      if |s.queue| == s.size || !s.shutdown.Running? then s
      else s.(queue := s.queue + [task],
              accepted := s.accepted + [task],
              workers := if SomeSleeps(s.workers) then s.workers[woken := Heading] else s.workers)
    case Destroy(option) =>
      if s.shutdown.Running? then s.(shutdown := option, workers := WakeAll(s.workers)) else s.(locked := true)
    case Test(w) =>
      if s.queue == [] && s.shutdown.Running? then s.(workers := s.workers[w := Sleeping])
      else if s.shutdown.Immediate? || s.queue == [] then s.(workers := s.workers[w := Exited])
      else s.(queue := s.queue[1..],
              taken := s.taken + [s.queue[0]],
              workers := s.workers[w := Executing(s.queue[0], |s.taken|)])
    case SpuriousWake(w) => s.(workers := s.workers[w := Heading])
    case Finish(w) =>
      s.(workers := s.workers[w := Heading], finished := s.finished + {s.workers[w].ticket})
  }

  function Init(size: nat, threads: nat): State {
    State(size, [], Running, false, seq(threads, _ => Heading), [], [], {})
  }

  // ----- Counting workers -----

  function Headers(ws: seq<Worker>): nat {
    if ws == [] then 0 else (if ws[0].Heading? then 1 else 0) + Headers(ws[1..])
  }

  /** What the shutdown measure charges each worker: one until it exits, one more while it executes. */
  function Pending(ws: seq<Worker>): nat {
    if ws == [] then 0 else Cost(ws[0]) + Pending(ws[1..])
  }

  function Cost(w: Worker): nat {
    match w
    case Exited => 0
    case Executing(_, _) => 2
    case _ => 1
  }

  lemma {:induction false} Moved(ws: seq<Worker>, i: nat, w: Worker)
    requires i < |ws|
    ensures Headers(ws[i := w]) + (if ws[i].Heading? then 1 else 0) == Headers(ws) + (if w.Heading? then 1 else 0)
    ensures Pending(ws[i := w]) + Cost(ws[i]) == Pending(ws) + Cost(w)
  {
    if i == 0 {
      assert ws[i := w][1..] == ws[1..];
    } else {
      assert ws[i := w][1..] == ws[1..][i - 1 := w];
      Moved(ws[1..], i - 1, w);
    }
  }

  lemma {:induction false} SomeoneHeads(ws: seq<Worker>)
    requires Headers(ws) > 0
    ensures exists i :: 0 <= i < |ws| && ws[i].Heading?
  {
    if ws[0].Heading? {
    } else {
      SomeoneHeads(ws[1..]);
      var i :| 0 <= i < |ws[1..]| && ws[1..][i].Heading?;
      assert ws[i + 1].Heading?;
    }
  }

  // ----- The invariant -----

  /** While anyone sleeps, every queued task has its own awake worker on the way to the test. */
  predicate NoLostSignal(s: State) {
    SomeSleeps(s.workers) ==> |s.queue| <= Headers(s.workers)
  }

  /** Every task ever taken is either finished or in the hands of exactly one worker. */
  predicate OnceEach(s: State) {
    && (forall i :: 0 <= i < |s.workers| && s.workers[i].Executing? ==>
          Carries(s.workers[i], s))
    && (forall i, j :: 0 <= i < j < |s.workers| && s.workers[i].Executing? && s.workers[j].Executing? ==>
          s.workers[i].ticket != s.workers[j].ticket)
    && (forall k :: 0 <= k < |s.taken| ==> k in s.finished || InHand(s.workers, k))
    && (forall k :: k in s.finished ==> 0 <= k < |s.taken|)
  }

  predicate Carries(w: Worker, s: State)
    requires w.Executing?
  {
    w.ticket < |s.taken| && s.taken[w.ticket] == w.task && w.ticket !in s.finished
  }

  predicate InHand(ws: seq<Worker>, k: nat) {
    exists i :: 0 <= i < |ws| && ws[i].Executing? && ws[i].ticket == k
  }

  predicate Inv(s: State) {
    && 0 < s.size && |s.queue| <= s.size && 0 < |s.workers|
    && s.accepted == s.taken + s.queue
    && OnceEach(s)
    && NoLostSignal(s)
    && (!s.shutdown.Running? ==> !SomeSleeps(s.workers))
    && ExitsInOrder(s)
  }

  /** Nobody leaves a pool that serves, nor one that drains and still has a task queued. */
  predicate ExitsInOrder(s: State) {
    forall i :: 0 <= i < |s.workers| && s.workers[i].Exited? ==>
      s.shutdown.Immediate? || (s.shutdown.Graceful? && s.queue == [])
  }

  lemma InitInv(size: nat, threads: nat)
    requires 0 < size && 0 < threads
    ensures Inv(Init(size, threads))
  {
  }

  lemma NextInv(s: State, e: Event)
    requires Inv(s) && Enabled(s, e)
    ensures Inv(Next(s, e))
  {
    NextOnce(s, e);
    NextSleepers(s, e);
    NextExits(s, e);
  }

  lemma NextExits(s: State, e: Event)
    requires Inv(s) && Enabled(s, e)
    ensures ExitsInOrder(Next(s, e))
  {
    var t := Next(s, e);
    forall i | 0 <= i < |t.workers| && t.workers[i].Exited?
      ensures t.shutdown.Immediate? || (t.shutdown.Graceful? && t.queue == [])
    {
      assert s.workers[i].Exited? || (e.Test? && i == e.worker);
    }
  }

  lemma NextSleepers(s: State, e: Event)
    requires Inv(s) && Enabled(s, e)
    ensures NoLostSignal(Next(s, e))
    ensures !Next(s, e).shutdown.Running? ==> !SomeSleeps(Next(s, e).workers)
  {
    var t := Next(s, e);
    match e {
      case Add(_, woken) =>
        if SomeSleeps(s.workers) { Moved(s.workers, woken, Heading); }
      case Destroy(_) =>
      case _ =>
        Moved(s.workers, e.worker, t.workers[e.worker]);
    }
    if SomeSleeps(t.workers) {
      var i :| 0 <= i < |t.workers| && t.workers[i].Sleeping?;
      assert s.workers[i].Sleeping? || (e.Test? && s.queue == []);
    }
  }

  lemma NextOnce(s: State, e: Event)
    requires Inv(s) && Enabled(s, e)
    ensures OnceEach(Next(s, e))
  {
    var t := Next(s, e);
    forall k | 0 <= k < |t.taken|
      ensures k in t.finished || InHand(t.workers, k)
    {
      if k == |s.taken| {
        assert t.workers[e.worker].Executing? && t.workers[e.worker].ticket == k;
      } else if k !in s.finished {
        var i :| 0 <= i < |s.workers| && s.workers[i].Executing? && s.workers[i].ticket == k;
        assert t.workers[i] == s.workers[i] || k in t.finished;
      }
    }
  }

  // ----- Runs -----

  predicate IsRun(s: State, es: seq<Event>)
    decreases |es|
  {
    es == [] || (Enabled(s, es[0]) && IsRun(Next(s, es[0]), es[1..]))
  }

  function After(s: State, es: seq<Event>): State
    requires IsRun(s, es)
    decreases |es|
  {
    if es == [] then s else After(Next(s, es[0]), es[1..])
  }

  lemma {:induction false} RunInv(s: State, es: seq<Event>)
    requires Inv(s) && IsRun(s, es)
    ensures Inv(After(s, es))
    decreases |es|
  {
    if es != [] {
      NextInv(s, es[0]);
      RunInv(Next(s, es[0]), es[1..]);
    }
  }

  predicate Awake(w: Worker) { w.Heading? || w.Executing? }

  /** In every reachable state of every run: sleepers never strand a task, a non-empty queue
      always has an awake worker unless the pool was told to stop at once, nobody has left
      a pool that still serves, and tasks leave in the order they were accepted. */
  lemma NoTaskIsStranded(size: nat, threads: nat, es: seq<Event>)
    requires 0 < size && 0 < threads && IsRun(Init(size, threads), es)
    ensures var s := After(Init(size, threads), es);
      && NoLostSignal(s)
      && (s.queue != [] && !s.shutdown.Immediate? ==>
            exists i :: 0 <= i < |s.workers| && Awake(s.workers[i]))
      && (s.shutdown.Running? ==> forall i :: 0 <= i < |s.workers| ==> !s.workers[i].Exited?)
      && s.taken <= s.accepted
      && |s.accepted| - |s.taken| <= size
  {
    InitInv(size, threads);
    RunInv(Init(size, threads), es);
    SizeIsFixed(Init(size, threads), es);
    var s := After(Init(size, threads), es);
    if s.queue != [] && !s.shutdown.Immediate? {
      if SomeSleeps(s.workers) {
        SomeoneHeads(s.workers);
      } else {
        assert Awake(s.workers[0]);
      }
    }
  }

  lemma {:induction false} SizeIsFixed(s: State, es: seq<Event>)
    requires IsRun(s, es)
    ensures After(s, es).size == s.size && |After(s, es).workers| == |s.workers|
    decreases |es|
  {
    if es != [] { SizeIsFixed(Next(s, es[0]), es[1..]); }
  }

  // ----- Shutdown -----

  /** Twice the queue, plus one for every worker that has not exited, plus one for every task in hand. */
  function Measure(s: State): nat { 2 * |s.queue| + Pending(s.workers) }

  lemma WorkAfterShutdown(s: State, e: Event)
    requires Inv(s) && Enabled(s, e) && !s.shutdown.Running?
    ensures var t := Next(s, e);
      && t.shutdown == s.shutdown
      && t.accepted == s.accepted
      && (e.ByWorker() ==> Measure(t) < Measure(s))
      && (!e.ByWorker() ==> t == s.(locked := t.locked))
      && (s.shutdown.Immediate? ==> t.taken == s.taken)
  {
    if e.ByWorker() {
      Moved(s.workers, e.worker, Next(s, e).workers[e.worker]);
    }
  }

  function WorkerSteps(es: seq<Event>): nat {
    if es == [] then 0 else (if es[0].ByWorker() then 1 else 0) + WorkerSteps(es[1..])
  }

  ghost predicate AllRun(s: State) {
    && s.queue == [] && s.taken == s.accepted
    && (forall k: int :: k in s.finished <==> 0 <= k < |s.accepted|)
  }

  predicate AllExited(s: State) {
    forall i :: 0 <= i < |s.workers| ==> s.workers[i].Exited?
  }

  /** Once the pool is shut down no worker can go on for ever, and none is ever stuck: at most
      `Measure` worker steps remain, and until the last worker has left, some worker can step, unless
      a second shutdown has taken the mutex away.
      Nothing is accepted any more.  Told to stop at once, no further task is started; told to
      drain, the workers are all gone only when every accepted task was taken, in order, and its
      one run has returned. */
  lemma {:induction false} ShutdownDrains(s: State, es: seq<Event>)
    requires Inv(s) && IsRun(s, es) && !s.shutdown.Running?
    ensures var t := After(s, es);
      && WorkerSteps(es) + Measure(t) <= Measure(s)
      && t.accepted == s.accepted
      && (s.shutdown.Immediate? ==> t.taken == s.taken)
      && (!AllExited(t) && !t.locked ==> exists w: nat :: w < |t.workers| && (Enabled(t, Test(w)) || Enabled(t, Finish(w))))
      && (s.shutdown.Graceful? && AllExited(t) ==> AllRun(t))
    decreases |es|
  {
    if es == [] {
      if AllExited(s) {
        assert s.workers[0].Exited?;
        assert s.shutdown.Graceful? ==> s.taken + [] == s.taken;
      } else if !s.locked {
        var i :| 0 <= i < |s.workers| && !s.workers[i].Exited?;
        assert !s.workers[i].Sleeping?;
        assert Enabled(s, Test(i)) || Enabled(s, Finish(i));
      }
    } else {
      NextInv(s, es[0]);
      WorkAfterShutdown(s, es[0]);
      ShutdownDrains(Next(s, es[0]), es[1..]);
    }
  }

  /** A second shutdown before the workers are gone keeps them from going: in no run after it does a worker
      leave, take a task or begin to sleep, and nobody else gets the mutex either. */
  lemma {:induction false} SecondShutdownBlocks(s: State, es: seq<Event>)
    requires s.locked && IsRun(s, es)
    ensures var t := After(s, es);
      && t.locked && t.queue == s.queue && t.accepted == s.accepted && t.taken == s.taken && t.shutdown == s.shutdown
      && |t.workers| == |s.workers|
      && (forall i :: 0 <= i < |s.workers| ==> t.workers[i].Exited? == s.workers[i].Exited?)
      && (AllExited(t) <==> AllExited(s))
    decreases |es|
  {
    if es != [] {
      assert es[0].SpuriousWake? || es[0].Finish?;
      SecondShutdownBlocks(Next(s, es[0]), es[1..]);
    }
  }

  /** A second shutdown is called while some worker has not exited. */
  predicate CutOff(s: State, es: seq<Event>)
    requires IsRun(s, es)
    decreases |es|
  {
    es != [] && ((es[0].Destroy? && !AllExited(s)) || CutOff(Next(s, es[0]), es[1..]))
  }

  /** A shutdown, run until no worker can step any more, has seen all workers off if and only if nobody called for
      a second one before they had all exited. */
  lemma {:induction false} EndsUnlessCutOff(s: State, es: seq<Event>)
    requires Inv(s) && !s.shutdown.Running? && !s.locked && IsRun(s, es)
    requires var t := After(s, es); forall w: nat :: w < |t.workers| ==> !Enabled(t, Test(w)) && !Enabled(t, Finish(w))
    ensures AllExited(After(s, es)) <==> !CutOff(s, es)
    decreases |es|
  {
    if es == [] {
      ShutdownDrains(s, es);
    } else {
      var m := Next(s, es[0]);
      NextInv(s, es[0]);
      if es[0].Destroy? {
        SecondShutdownBlocks(m, es[1..]);
        OnlyOnce(m, es[1..]);
      } else {
        EndsUnlessCutOff(m, es[1..]);
      }
    }
  }

  lemma {:induction false} OnlyOnce(s: State, es: seq<Event>)
    requires s.locked && IsRun(s, es)
    ensures !CutOff(s, es)
    decreases |es|
  {
    if es != [] { OnlyOnce(Next(s, es[0]), es[1..]); }
  }

  // ----- While it serves -----

  /** What the pool still has to do for the tasks it has: two steps for each task that waits, two for each worker
      that executes, one for each on its way to the test. */
  function Load(s: State): nat { 2 * |s.queue| + Effort(s.workers) }

  function Effort(ws: seq<Worker>): nat {
    if ws == [] then 0 else (if ws[0].Executing? then 2 else if ws[0].Heading? then 1 else 0) + Effort(ws[1..])
  }

  lemma {:induction false} EffortMoved(ws: seq<Worker>, i: nat, w: Worker)
    requires i < |ws|
    ensures Effort(ws[i := w]) + Effort([ws[i]]) == Effort(ws) + Effort([w])
  {
    assert [ws[i]][1..] == [] && [w][1..] == [];
    if i == 0 {
      assert ws[i := w][1..] == ws[1..];
    } else {
      assert ws[i := w][1..] == ws[1..][i - 1 := w];
      EffortMoved(ws[1..], i - 1, w);
    }
  }

  function SpuriousWakes(es: seq<Event>): nat {
    if es == [] then 0 else (if es[0].SpuriousWake? then 1 else 0) + SpuriousWakes(es[1..])
  }

  lemma WorkWhileServing(s: State, e: Event)
    requires Inv(s) && s.shutdown.Running? && !s.locked && Enabled(s, e) && !e.Add? && !e.Destroy?
    ensures var t := Next(s, e);
      && t.shutdown.Running? && !t.locked && t.accepted == s.accepted
      && (e.ByWorker() ==> Load(t) < Load(s))
      && (!e.ByWorker() ==> Load(t) == Load(s) + 1)
  {
    var w := e.worker;
    var u := Next(s, e).workers[w];
    EffortMoved(s.workers, w, u);
    assert [s.workers[w]][1..] == [] && [u][1..] == [];
  }

  /** A pool that serves gets its work done: as long as nothing new arrives, spurious wakeups apart, only a bounded
      number of worker steps is left; while a task waits or is executed, some worker can step; and when none can,
      every accepted task has been taken, in order, and its one run has returned. */
  lemma {:induction false} ServesEverything(s: State, es: seq<Event>)
    requires Inv(s) && s.shutdown.Running? && !s.locked && IsRun(s, es)
    requires forall i :: 0 <= i < |es| ==> !es[i].Add? && !es[i].Destroy?
    ensures var t := After(s, es);
      && t.accepted == s.accepted
      && WorkerSteps(es) + Load(t) <= Load(s) + SpuriousWakes(es)
      && (!AllRun(t) ==> exists w: nat :: w < |t.workers| && (Enabled(t, Test(w)) || Enabled(t, Finish(w))))
    decreases |es|
  {
    if es == [] {
      SomethingLeft(s);
    } else {
      NextInv(s, es[0]);
      WorkWhileServing(s, es[0]);
      ServesEverything(Next(s, es[0]), es[1..]);
    }
  }

  lemma SomethingLeft(s: State)
    requires Inv(s) && s.shutdown.Running? && !s.locked
    ensures AllRun(s) || exists w: nat :: w < |s.workers| && (Enabled(s, Test(w)) || Enabled(s, Finish(w)))
  {
    if i: nat :| i < |s.workers| && s.workers[i].Executing? {
      assert Enabled(s, Finish(i));
    } else if s.queue == [] {
      assert s.taken + [] == s.taken;
      assert forall k :: 0 <= k < |s.taken| ==> k in s.finished;
      assert AllRun(s);
    } else if SomeSleeps(s.workers) {
      SomeoneHeads(s.workers);
      var i: nat :| i < |s.workers| && s.workers[i].Heading?;
      assert Enabled(s, Test(i));
    } else {
      assert s.workers[0].Heading?;
      assert Enabled(s, Test(0));
    }
  }

  // ----- The code -----

  const OK := 0
  const QUEUE_FULL := -3
  const SHUT_DOWN := -4
  const MAX_THREADS := 1024
  const MAX_QUEUE := 65535

  datatype Slot = Vacant | Holds(task: Task)

  /** Position of the i-th waiting task in a ring of `size` slots that starts at `head`. */
  function At(head: nat, i: nat, size: nat): (p: nat)
    requires head < size && i <= size
    ensures p < size && (p == head + i || p == head + i - size)
  {
    if head + i < size then head + i else head + i - size
  }

  lemma AtIsModulo(head: nat, i: nat, size: nat)
    requires head < size && i <= size
    ensures At(head, i, size) == (head + i) % size
  {
    var x := head + i;
    if x >= size {
      var q := x / size;
      assert x == size * q + x % size;
      if q >= 2 { Scale(size, 2, q); assert false; }
      if q <= 0 { Scale(size, q, 0); assert false; }
    } else {
      var q := x / size;
      assert x == size * q + x % size;
      if q >= 1 { Scale(size, 1, q); assert false; }
    }
  }

  lemma Scale(size: nat, a: int, b: int)
    requires a <= b
    ensures size * a <= size * b
  {
    assert size * (b - a) >= 0;
  }

  lemma NextSlot(head: nat, i: nat, size: nat)
    requires head < size && i < size
    ensures (At(head, i, size) + 1) % size == At(head, i + 1, size)
  {
    AtIsModulo(At(head, i, size), 1, size);
  }

  class Pool {
    var queue: array<Slot>
    var head: nat
    var tail: nat
    var count: nat
    var shutdown: Shutdown
    var started: nat
    // the mutex, between critical sections
    var locked: bool
    /** Where each worker thread stands; the condition variable's sleepers are among them. */
    ghost var workers: seq<Worker>
    ghost var waiting: seq<Task>
    ghost var accepted: seq<Task>
    ghost var taken: seq<Task>
    ghost var finished: set<nat>

    ghost predicate RingValid()
      reads this, queue
    {
      && 0 < queue.Length && head < queue.Length && count == |waiting| <= queue.Length
      && tail == At(head, count, queue.Length)
      && (forall i {:trigger At(head, i, queue.Length)} :: 0 <= i < queue.Length ==>
            queue[At(head, i, queue.Length)] == if i < count then Holds(waiting[i]) else Vacant)
    }

    ghost predicate Valid()
      reads this, queue
    {
      RingValid() && started == |workers| - ExitedCount(workers) && Inv(Abs())
    }

    /** The index arithmetic the ring relies on. */
    lemma TailFollowsHead()
      requires RingValid()
      ensures tail == (head + count) % queue.Length && 0 <= count <= queue.Length
    {
      AtIsModulo(head, count, queue.Length);
    }

    ghost function Abs(): State
      reads this, queue
    {
      State(queue.Length, waiting, shutdown, locked, workers, accepted, taken, finished)
    }

    /** threadpool_create: a thread or queue count out of range selects the defaults for both. */
    constructor (threadCount: int, queueSize: int)
      ensures Valid() && fresh(queue)
      ensures var bad := threadCount <= 0 || threadCount > 1024 || queueSize <= 0 || queueSize > 65535;
        Abs() == if bad then Init(1024, 4) else Init(queueSize, threadCount)
    {
      var threads, size := threadCount, queueSize;
      if threads <= 0 || threads > MAX_THREADS || size <= 0 || size > MAX_QUEUE {
        threads, size := 4, 1024;
      }
      queue := new Slot[size](_ => Vacant);
      head, tail, count := 0, 0, 0;
      shutdown, started, locked := Running, threads, false;
      workers := seq(threads, _ => Heading);
      waiting, accepted, taken, finished := [], [], [], {};
      new;
      InitInv(size, threads);
      NoneExited(workers);
    }

    /** threadpool_add.  `woken` is the sleeper the signal reaches, whichever the system picks. */
    method Add(task: Task, woken: nat) returns (err: int)
      requires Valid() && Enabled(Abs(), Event.Add(task, woken))
      modifies this, queue
      ensures Valid() && queue == old(queue)
      ensures Abs() == Next(old(Abs()), Event.Add(task, woken))
      ensures err == if old(count) == queue.Length then -3 else if !old(shutdown).Running? then -4 else 0
      ensures err == OK <==> accepted == old(accepted) + [task]
      ensures waiting == old(waiting) + (if err == OK then [task] else []) && shutdown == old(shutdown) && taken == old(taken)
      ensures workers == if err == OK && SomeSleeps(old(workers)) then old(workers)[woken := Heading] else old(workers)
      ensures err != OK ==> accepted == old(accepted) && queue[..] == old(queue[..])
    {
      ghost var before := Abs();
      NextInv(before, Event.Add(task, woken));
      if count == queue.Length {
        return QUEUE_FULL;
      }
      if !shutdown.Running? {
        return SHUT_DOWN;
      }
      Put(task);
      accepted := accepted + [task];
      Signal(woken);
      return OK;
    }

    /** Writes a task into the slot at the tail, which is empty: no task that still waits is overwritten. */
    method Put(task: Task)
      requires RingValid() && count < queue.Length
      modifies this`tail, this`count, this`waiting, queue
      ensures RingValid() && waiting == old(waiting) + [task]
    {
      var next := (tail + 1) % queue.Length;
      NextSlot(head, count, queue.Length);
      assert queue[tail] == Vacant;
      queue[tail] := Holds(task);
      tail := next;
      count := count + 1;
      waiting := waiting + [task];
    }

    /** pthread_cond_signal: wakes the given sleeper if anybody sleeps. */
    ghost method Signal(woken: nat)
      requires SomeSleeps(workers) ==> woken < |workers| && workers[woken].Sleeping?
      modifies this`workers
      ensures workers == if SomeSleeps(old(workers)) then old(workers)[woken := Heading] else old(workers)
      ensures ExitedCount(workers) == ExitedCount(old(workers))
    {
      if exists i :: 0 <= i < |workers| && workers[i].Sleeping? {
        Move(woken, Heading);
      }
    }

    /** Takes the task at the head of the ring and empties its slot. */
    method Take() returns (task: Task)
      requires RingValid() && count > 0
      modifies this`head, this`count, this`waiting, queue
      ensures RingValid()
      ensures old(waiting) == [task] + waiting
    {
      assert At(head, 0, queue.Length) == head;
      task := queue[head].task;
      queue[head] := Vacant;
      ghost var was := head;
      NextSlot(head, 0, queue.Length);
      head := (head + 1) % queue.Length;
      forall i | 0 <= i < queue.Length
        ensures At(head, i, queue.Length) == if i + 1 < queue.Length then At(was, i + 1, queue.Length) else was
      {
      }
      count := count - 1;
      waiting := waiting[1..];
    }

    /** The critical section of a worker: the predicate test of the wait loop, then the exit test,
        then the take.  Returns the task to execute, if there is one. */
    method Test(w: nat) returns (task: Slot)
      requires Valid() && Enabled(Abs(), Event.Test(w))
      modifies this, queue
      ensures Valid() && queue == old(queue)
      ensures Abs() == Next(old(Abs()), Event.Test(w))
      ensures if old(count) > 0 && !old(shutdown).Immediate?
        then task == Holds(old(waiting)[0]) && taken == old(taken) + [old(waiting)[0]] && waiting == old(waiting)[1..]
             && workers == old(workers)[w := Executing(old(waiting)[0], |old(taken)|)]
        else task == Vacant && taken == old(taken) && waiting == old(waiting)
             && workers == old(workers)[w := if old(shutdown).Running? then Sleeping else Exited]
      ensures shutdown == old(shutdown) && accepted == old(accepted) && finished == old(finished)
    {
      NextInv(Abs(), Event.Test(w));
      task := Step(w);
    }

    method Step(w: nat) returns (task: Slot)
      requires RingValid() && started == |workers| - ExitedCount(workers) && Enabled(Abs(), Event.Test(w))
      modifies this, queue
      ensures RingValid() && started == |workers| - ExitedCount(workers) && queue == old(queue)
      ensures Abs() == Next(old(Abs()), Event.Test(w))
      ensures task == if |taken| == old(|taken|) then Vacant else Holds(taken[old(|taken|)])
    {
      if count == 0 && shutdown.Running? {
        Move(w, Sleeping);
        return Vacant;
      }
      if shutdown.Immediate? || (shutdown.Graceful? && count == 0) {
        Move(w, Exited);
        ExitedAtMost(workers);
        started := started - 1;
        return Vacant;
      }
      var next := Take();
      Move(w, Executing(next, |taken|));
      taken := taken + [next];
      task := Holds(next);
    }

    /** Worker w's control state changes. */
    ghost method Move(w: nat, to: Worker)
      requires w < |workers|
      modifies this`workers
      ensures workers == old(workers)[w := to]
      ensures ExitedCount(workers) + (if old(workers)[w].Exited? then 1 else 0)
           == ExitedCount(old(workers)) + (if to.Exited? then 1 else 0)
    {
      ExitedMoved(workers, w, to);
      workers := workers[w := to];
    }

    /** The task body of worker w returns and the worker goes round its loop. */
    method Finish(w: nat)
      requires Valid() && Enabled(Abs(), Event.Finish(w))
      modifies this
      ensures Valid() && queue == old(queue)
      ensures Abs() == Next(old(Abs()), Event.Finish(w))
      ensures workers == old(workers)[w := Heading] && finished == old(finished) + {old(workers)[w].ticket}
    {
      NextInv(Abs(), Event.Finish(w));
      finished := finished + {workers[w].ticket};
      Move(w, Heading);
    }

    /** The critical section of threadpool_destroy.  A second call is refused, and keeps the mutex. */
    method Destroy(option: Shutdown) returns (err: int)
      requires Valid() && Enabled(Abs(), Event.Destroy(option))
      modifies this
      ensures Valid() && queue == old(queue) && queue[..] == old(queue[..])
      ensures Abs() == Next(old(Abs()), Event.Destroy(option))
      ensures err == if old(shutdown).Running? then OK else SHUT_DOWN
      ensures shutdown == (if err == OK then option else old(shutdown)) && locked == (err != OK)
      ensures waiting == old(waiting) && accepted == old(accepted) && taken == old(taken) && finished == old(finished)
      ensures |workers| == |old(workers)| && forall i :: 0 <= i < |workers| ==>
        workers[i] == if err == OK && old(workers)[i].Sleeping? then Heading else old(workers)[i]
    {
      NextInv(Abs(), Event.Destroy(option));
      if !shutdown.Running? {
        locked := true;
        return SHUT_DOWN;
      }
      shutdown := option;
      ExitedSurviveBroadcast(workers);
      workers := WakeAll(workers);  // pthread_cond_broadcast
      err := OK;
    }
  }

  function ExitedCount(ws: seq<Worker>): nat {
    if ws == [] then 0 else (if ws[0].Exited? then 1 else 0) + ExitedCount(ws[1..])
  }

  lemma {:induction false} ExitedMoved(ws: seq<Worker>, i: nat, w: Worker)
    requires i < |ws|
    ensures ExitedCount(ws[i := w]) + (if ws[i].Exited? then 1 else 0) == ExitedCount(ws) + (if w.Exited? then 1 else 0)
  {
    if i == 0 {
      assert ws[i := w][1..] == ws[1..];
    } else {
      assert ws[i := w][1..] == ws[1..][i - 1 := w];
      ExitedMoved(ws[1..], i - 1, w);
    }
  }

  lemma {:induction false} ExitedAtMost(ws: seq<Worker>)
    ensures ExitedCount(ws) <= |ws|
  {
    if ws != [] { ExitedAtMost(ws[1..]); }
  }

  lemma {:induction false} NoneExited(ws: seq<Worker>)
    requires forall i :: 0 <= i < |ws| ==> !ws[i].Exited?
    ensures ExitedCount(ws) == 0
  {
    if ws != [] { NoneExited(ws[1..]); }
  }

  lemma {:induction false} ExitedSurviveBroadcast(ws: seq<Worker>)
    ensures ExitedCount(WakeAll(ws)) == ExitedCount(ws)
  {
    if ws != [] {
      assert WakeAll(ws)[1..] == WakeAll(ws[1..]);
      ExitedSurviveBroadcast(ws[1..]);
    }
  }
}
