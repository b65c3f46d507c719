/**
  The reactor's event loop as other threads see it: a mutex-protected queue of functors, an
  edge-triggered eventfd, and a loop thread that may block in epoll_wait.

  An event below is one atomic action: a critical section, one system call, or one local move
  of the loop thread.  The invariant is proved over every interleaving of the loop thread with
  any number of other threads; the class at the end is the code, step for step.
 */
module EventLoop {
  import opened Connection

  /** Functors are opaque closures; only their identity matters here. */
  type Functor = nat

  /** The largest value an eventfd can hold. */
  const COUNTER_MAX := 0xffff_ffff_ffff_fffe

  /** Where the loop thread is.
      - Starting: loop() has not been called yet;
      - Head: about to test the quit flag;
      - Polling: in epoll_wait;
      - Dispatching: running event handlers; `wakeup` tells whether the eventfd's own handler is
        still to run in this round;
      - Between: inside doPendingFunctors, not inside a functor;
      - Inside: executing a functor;
      - Expiring: in handleExpired;
      - Done: left the loop. */
  datatype Phase = Starting | Head | Polling | Dispatching(wakeup: bool) | Between | Inside | Expiring | Done

  /** The eventfd and its epoll entry.  `edge` says that the kernel has an event queued for it
      which epoll_wait has not returned yet. */
  datatype EventFd = EventFd(counter: nat, edge: bool)
  {
    predicate Deliverable() { edge && counter > 0 }

    /** write(1): refused with EAGAIN when the counter is full. */
    function Written(): EventFd {
      if counter + 1 > COUNTER_MAX then this else EventFd(counter + 1, true)
    }
  }

  /** `debts` counts the threads other than the loop's that have pushed a functor, or set the quit
      flag, and have not done their wakeup yet; `ownDebt` is the same for the loop thread.
      `queued` and `executed` are histories. */
  datatype State = State(
    phase: Phase,
    quit: bool,
    calling: bool,
    pending: seq<Functor>,
    batch: seq<Functor>,
    fd: EventFd,
    debts: nat,
    ownDebt: bool,
    queued: seq<Functor>,
    executed: seq<Functor>)

  datatype Event =
    | Push(f: Functor)          // another thread: the critical section of queueInLoop
    | Quit                      // another thread: sets m_quit
    | Wake                      // another thread: the write of wakeup
    | OwnPush(f: Functor)       // the loop thread calls queueInLoop from a handler or a functor
    | OwnWake                   // and its wakeup, when m_callingPendingFunctors says so
    | OwnQuit                   // the loop thread calls quit
    | Enter                     // loop() starts, and clears the quit flag
    | TestQuit                  // while (!m_quit)
    | PollReturns(wakeup: bool) // epoll_wait returns at least one event; is the eventfd among them?
    | ReadEventFd               // EventLoop::handleRead
    | Swap                      // doPendingFunctors takes the queue
    | Begin                     // the next functor of the batch starts
    | End                       // and returns
    | EndBatch                  // doPendingFunctors returns
    | Expired                   // handleExpired returns
  {
    predicate ByOthers() { Push? || Quit? || Wake? }
  }

  predicate Enabled(s: State, e: Event) {
    match e
    case Push(_) => true
    case Quit => true
    case Wake => s.debts > 0
    case OwnPush(_) => (s.phase.Dispatching? || s.phase.Inside?) && !s.ownDebt
    case OwnWake => s.ownDebt
    case OwnQuit => (s.phase.Dispatching? || s.phase.Inside? || s.phase.Expiring?) && !s.ownDebt
    case Enter => s.phase.Starting?
    case TestQuit => s.phase.Head?
    case PollReturns(wakeup) => s.phase.Polling? && (wakeup ==> s.fd.Deliverable())
    case ReadEventFd => s.phase == Dispatching(true) && !s.ownDebt
    case Swap => s.phase == Dispatching(false) && !s.ownDebt
    case Begin => s.phase.Between? && s.batch != []
    case End => s.phase.Inside? && !s.ownDebt
    case EndBatch => s.phase.Between? && s.batch == []
    case Expired => s.phase.Expiring?
  }

  function Next(s: State, e: Event): State
    requires Enabled(s, e)
  {
    match e
    case Push(f) => s.(pending := s.pending + [f], queued := s.queued + [f], debts := s.debts + 1)
    case Quit => s.(quit := true, debts := s.debts + 1)
    case Wake => s.(debts := s.debts - 1, fd := s.fd.Written())
    case OwnPush(f) => s.(pending := s.pending + [f], queued := s.queued + [f], ownDebt := s.calling)
    case OwnWake => s.(ownDebt := false, fd := s.fd.Written())
    case OwnQuit => s.(quit := true)
    case Enter => s.(phase := Head, quit := false)
    case TestQuit => s.(phase := if s.quit then Done else Polling)
    case PollReturns(wakeup) =>
      s.(phase := Dispatching(wakeup), fd := if wakeup then s.fd.(edge := false) else s.fd)
    case ReadEventFd => s.(phase := Dispatching(false), fd := s.fd.(counter := 0))
    case Swap => s.(phase := Between, calling := true, batch := s.pending, pending := [])
    case Begin => s.(phase := Inside, executed := s.executed + [s.batch[0]], batch := s.batch[1..])
    case End => s.(phase := Between)
    case EndBatch => s.(phase := Expiring, calling := false)
    case Expired => s.(phase := Head)
  }

  const INIT := State(Starting, false, false, [], [], EventFd(0, false), 0, false, [], [])

  // ----- The invariant -----

  /** The loop is not between a poll and the swap that follows it. */
  predicate PastSwap(p: Phase) { p.Starting? || p.Between? || p.Inside? || p.Expiring? || p.Head? || p.Polling? }

  /** Somebody still owes the eventfd a write. */
  predicate WakeOwed(s: State) { s.debts > 0 || s.ownDebt }

  /** Functors are executed in queue order: what ran, what is about to run and what waits is
      exactly what was queued. */
  predicate Conserved(s: State) {
    s.queued == s.executed + s.batch + s.pending
  }

  predicate Inv(s: State) { Conserved(s) && Announced(s) }

  predicate Announced(s: State) {
    && (s.batch != [] ==> s.phase.Between? || s.phase.Inside?)
    && (s.calling <==> s.phase.Between? || s.phase.Inside?)
    && (s.ownDebt ==> s.phase.Inside?)
    && (s.fd.counter > 0 ==> s.fd.edge || s.phase == Dispatching(true))
    && (PastSwap(s.phase) && s.pending != [] ==> s.fd.Deliverable() || WakeOwed(s))
    && (s.phase.Polling? && s.quit ==> s.fd.Deliverable() || WakeOwed(s))
  }

  lemma NextInv(s: State, e: Event)
    requires Inv(s) && Enabled(s, e)
    ensures Inv(Next(s, e))
  {
    NextConserved(s, e);
    NextAnnounced(s, e);
  }

  lemma NextConserved(s: State, e: Event)
    requires Conserved(s) && Enabled(s, e) && (e.Swap? ==> s.batch == [])
    ensures Conserved(Next(s, e))
  {
    if e.Begin? {
      assert s.executed + s.batch == s.executed + [s.batch[0]] + s.batch[1..];
    }
  }

  lemma NextAnnounced(s: State, e: Event)
    requires Announced(s) && Enabled(s, e)
    ensures Announced(Next(s, e))
  {
    if e.ByOthers() { AnnouncedByOthers(s, e); } else { AnnouncedByLoop(s, e); }
  }

  lemma AnnouncedByOthers(s: State, e: Event)
    requires Announced(s) && Enabled(s, e) && e.ByOthers()
    ensures Announced(Next(s, e))
  {
  }

  lemma AnnouncedByLoop(s: State, e: Event)
    requires Announced(s) && Enabled(s, e) && !e.ByOthers()
    ensures Announced(Next(s, e))
  {
  }

  predicate IsRun(s: State, es: seq<Event>)
    decreases |es|
  {
    es == [] || (Enabled(s, es[0]) && IsRun(Next(s, es[0]), es[1..]))
  }

  function After(s: State, es: seq<Event>): State
    requires IsRun(s, es)
    decreases |es|
  {
    if es == [] then s else After(Next(s, es[0]), es[1..])
  }

  lemma {:induction false} RunInv(s: State, es: seq<Event>)
    requires Inv(s) && IsRun(s, es)
    ensures Inv(After(s, es))
    decreases |es|
  {
    if es != [] {
      NextInv(s, es[0]);
      RunInv(Next(s, es[0]), es[1..]);
    }
  }

  /** No missed wakeup: whatever the interleaving, a loop that sits in epoll_wait while functors
      are queued, or while somebody has told it to quit, has the eventfd's event waiting for it,
      or another thread is between its push and its wakeup.  And functors run in queue order,
      each at most once, none skipped. */
  lemma NoMissedWakeup(es: seq<Event>)
    requires IsRun(INIT, es)
    ensures var s := After(INIT, es);
      && (s.phase.Polling? && (s.pending != [] || s.quit) ==> s.fd.Deliverable() || s.debts > 0)
      && s.queued == s.executed + s.batch + s.pending
  {
    RunInv(INIT, es);
  }

  /** A quit from before loop() is forgotten: whatever other threads have done until then, a loop that starts
      next goes to poll. */
  lemma {:induction false} QuitBeforeLoopIsLost(s: State, es: seq<Event>)
    requires s.phase.Starting? && IsRun(s, es) && forall i :: 0 <= i < |es| ==> es[i].ByOthers()
    ensures var t := After(s, es);
      t.phase.Starting? && var u := Next(t, Enter); !u.quit && Next(u, TestQuit).phase.Polling?
    decreases |es|
  {
    if es != [] {
      assert es[0].ByOthers();
      QuitBeforeLoopIsLost(Next(s, es[0]), es[1..]);
    }
  }

  /** A quit from after the start of loop() is kept. */
  lemma {:induction false} QuitIsKept(s: State, es: seq<Event>)
    requires !s.phase.Starting? && IsRun(s, es)
    ensures !After(s, es).phase.Starting?
    ensures After(s, es).quit <==> s.quit || Quit in es || OwnQuit in es
    decreases |es|
  {
    if es != [] {
      QuitIsKept(Next(s, es[0]), es[1..]);
    }
  }

  /** In any run, the loop leaves at a test of the flag if and only if somebody has called quit since loop()
      started; quits from before make no difference. */
  lemma LeavesIffQuitSinceEnter(before: seq<Event>, after: seq<Event>)
    requires IsRun(INIT, before + [Enter] + after) && After(INIT, before + [Enter] + after).phase.Head?
    ensures Next(After(INIT, before + [Enter] + after), TestQuit).phase.Done? <==> Quit in after || OwnQuit in after
  {
    RunSplits(INIT, before + [Enter], after);
    RunSplits(INIT, before, [Enter]);
    var s := After(INIT, before);
    assert After(s, [Enter]) == Next(s, Enter) by {
      assert [Enter][1..] == [];
    }
    QuitIsKept(Next(s, Enter), after);
  }

  lemma {:induction false} RunSplits(s: State, a: seq<Event>, b: seq<Event>)
    requires IsRun(s, a + b)
    ensures IsRun(s, a) && IsRun(After(s, a), b) && After(s, a + b) == After(After(s, a), b)
    decreases |a|
  {
    if a == [] {
      assert a + b == b;
    } else {
      assert (a + b)[0] == a[0] && (a + b)[1..] == a[1..] + b;
      RunSplits(Next(s, a[0]), a[1..], b);
    }
  }

  // ----- Progress -----

  lemma {:induction false} RunsCompose(s: State, a: seq<Event>, b: seq<Event>)
    requires IsRun(s, a) && IsRun(After(s, a), b)
    ensures IsRun(s, a + b) && After(s, a + b) == After(After(s, a), b)
    decreases |a|
  {
    if a == [] {
      assert a + b == b;
    } else {
      assert (a + b)[0] == a[0] && (a + b)[1..] == a[1..] + b;
      RunsCompose(Next(s, a[0]), a[1..], b);
    }
  }

  /** The loop thread alone works off its batch. */
  function WorkOff(n: nat): seq<Event> {
    if n == 0 then [] else [Begin, End] + WorkOff(n - 1)
  }

  lemma {:induction false} BatchRuns(s: State)
    requires Inv(s) && s.phase.Between?
    ensures IsRun(s, WorkOff(|s.batch|))
    ensures After(s, WorkOff(|s.batch|)) == s.(batch := [], executed := s.executed + s.batch)
    decreases |s.batch|
  {
    if s.batch == [] {
      assert s.executed + s.batch == s.executed;
    } else {
      var m := Next(s, Begin);
      NextInv(s, Begin);
      NextInv(m, End);
      var t := Next(m, End);
      BatchRuns(t);
      var es := WorkOff(|s.batch|);
      assert es[0] == Begin && es[1..][0] == End && es[1..][1..] == WorkOff(|t.batch|);
      assert t.executed + t.batch == s.executed + s.batch;
    }
  }

  /** The steps of the loop thread from a blocked epoll_wait to the end of doPendingFunctors. */
  function Round(n: nat): seq<Event> { [PollReturns(true), ReadEventFd, Swap] + WorkOff(n) + [EndBatch] }

  /** A queued functor needs nobody's further help: with no wakeup outstanding the loop can leave
      epoll_wait, and its next round executes everything queued so far, in order. */
  lemma QueuedFunctorsGetExecuted(es: seq<Event>)
    requires IsRun(INIT, es)
    requires var s := After(INIT, es); s.phase.Polling? && s.pending != [] && s.debts == 0
    ensures var s := After(INIT, es);
      && IsRun(s, Round(|s.pending|))
      && After(s, Round(|s.pending|)).executed == s.queued
      && After(s, Round(|s.pending|)).pending == []
  {
    RunInv(INIT, es);
    var s := After(INIT, es);
    assert Inv(s);
    var n := |s.pending|;
    var start := [PollReturns(true), ReadEventFd, Swap];
    var s1 := Next(s, PollReturns(true));
    var s2 := Next(s1, ReadEventFd);
    var s3 := Next(s2, Swap);
    assert start[1..] == [ReadEventFd, Swap] && start[1..][1..] == [Swap] && start[1..][1..][1..] == [];
    assert IsRun(s3, []) && IsRun(s2, [Swap]) && IsRun(s1, [ReadEventFd, Swap]);
    assert IsRun(s, start) && After(s, start) == s3;
    RunInv(s, start);
    BatchRuns(s3);
    RunsCompose(s, start, WorkOff(n));
    var s4 := After(s3, WorkOff(n));
    assert [EndBatch][1..] == [];
    assert IsRun(Next(s4, EndBatch), []);
    assert IsRun(s4, [EndBatch]) && After(s4, [EndBatch]) == Next(s4, EndBatch);
    RunsCompose(s, start + WorkOff(n), [EndBatch]);
    assert s.executed + s.batch + s.pending == s.executed + s.pending;
  }

  /** Why the loop thread must not queue functors from handleExpired, where neither a wakeup is
      sent nor a drain follows: such a push leaves the loop in epoll_wait with a functor that nothing
      will announce, if and only if nothing else is outstanding at the time. */
  lemma QueueingWhileExpiringIsLost(s: State, f: Functor)
    requires Inv(s) && s.phase.Expiring?
    ensures var pushed := s.(pending := s.pending + [f], queued := s.queued + [f], ownDebt := s.calling);
      && IsRun(pushed, [Expired, TestQuit])
      && var t := After(pushed, [Expired, TestQuit]);
         (t.phase.Polling? && t.pending != [] && !t.fd.Deliverable() && !WakeOwed(t)
          <==> !s.quit && s.debts == 0 && !s.fd.Deliverable())
  {
    var pushed := s.(pending := s.pending + [f], queued := s.queued + [f], ownDebt := s.calling);
    var es := [Expired, TestQuit];
    assert es[1..] == [TestQuit] && es[1..][1..] == [];
    var m := Next(pushed, Expired);
    assert IsRun(Next(m, TestQuit), []);
    assert IsRun(m, [TestQuit]);
  }

  // ----- One call of doPendingFunctors -----

  predicate Draining(p: Phase) { p.Between? || p.Inside? }

  lemma DrainingStep(s: State, e: Event)
    requires Inv(s) && Draining(s.phase) && Enabled(s, e) && !e.EndBatch?
    ensures var t := Next(s, e); Draining(t.phase) && t.executed + t.batch == s.executed + s.batch && s.queued <= t.queued
  {
  }

  /** From the swap to the end of the batch the functors executed are exactly the swap-time
      snapshot, whatever other threads and the functors themselves queue meanwhile. */
  lemma {:induction false} SnapshotIsExecuted(s: State, es: seq<Event>)
    requires Inv(s) && Draining(s.phase) && IsRun(s, es) && EndBatch !in es
    ensures var t := After(s, es);
      && Draining(t.phase)
      && t.executed + t.batch == s.executed + s.batch
      && (Enabled(t, EndBatch) ==> t.executed == s.executed + s.batch)
      && s.queued <= t.queued
      && t.pending == t.queued[|s.executed| + |s.batch|..]
    decreases |es|
  {
    if es == [] {
      assert s.executed + [] == s.executed;
    } else {
      var m := Next(s, es[0]);
      NextInv(s, es[0]);
      DrainingStep(s, es[0]);
      SnapshotIsExecuted(m, es[1..]);
    }
  }

  // ----- The code -----

  /** The choices of one iteration of the loop that are not the loop's own: what other threads do
      while it tests the flag, polls, drains and expires, what the handlers and the functors call,
      and whether the eventfd is among the events returned. */
  datatype Iteration = Iteration(
    testing: seq<Event>,
    polling: seq<Event>,
    wakeup: bool,
    handlers: seq<Event>,
    bodies: seq<seq<Event>>,
    expiring: seq<Event>)

  class Loop {
    var m_quit: bool
    var callingPendingFunctors: bool
    var pendingFunctors: seq<Functor>
    // the masks of the channel around the eventfd
    var events: Mask
    var lastEvents: Mask
    // the system's side, and the other threads that still owe it a write
    var eventFd: EventFd
    var debts: nat
    // where the loop thread is, and the histories
    ghost var phase: Phase
    ghost var ownDebt: bool
    ghost var batch: seq<Functor>
    /** Somebody has called quit since loop() started. */
    ghost var asked: bool
    ghost var queued: seq<Functor>
    ghost var executed: seq<Functor>

    ghost function Abs(): State
      reads this
    {
      State(phase, m_quit, callingPendingFunctors, pendingFunctors, batch, eventFd, debts, ownDebt, queued, executed)
    }

    /** The eventfd stays registered for edge-triggered reading, and its channel asks for that again whenever
        it has been asked for nothing. */
    ghost predicate Watched()
      reads this
    {
      && lastEvents == READING && (phase != Dispatching(true) ==> events == READING)
      && (!phase.Starting? ==> (m_quit <==> asked))
    }

    ghost predicate Valid()
      reads this
    {
      Inv(Abs()) && Watched()
    }

    constructor ()
      ensures Valid() && Abs() == INIT
    {
      m_quit, callingPendingFunctors, pendingFunctors := false, false, [];
      events, lastEvents := {In, Et}, {In, Et};
      eventFd, phase, debts, ownDebt := EventFd(0, false), Starting, 0, false;
      batch, asked, queued, executed := [], false, [], [];
    }

    /** queueInLoop: the critical section, and the decision whether a wakeup follows. */
    method QueueInLoop(f: Functor, inLoopThread: bool) returns (wake: bool)
      requires Valid()
      requires inLoopThread ==> Enabled(Abs(), OwnPush(f))
      modifies this
      ensures Valid()
      ensures Abs() == Next(old(Abs()), if inLoopThread then OwnPush(f) else Push(f))
      ensures wake <==> !inLoopThread || callingPendingFunctors
      ensures pendingFunctors == old(pendingFunctors) + [f] && queued == old(queued) + [f]
      ensures m_quit == old(m_quit) && eventFd == old(eventFd) && phase == old(phase) && executed == old(executed)
      ensures if inLoopThread then debts == old(debts) && ownDebt == wake else debts == old(debts) + 1 && ownDebt == old(ownDebt)
      ensures asked == old(asked)
    {
      NextInv(Abs(), if inLoopThread then OwnPush(f) else Push(f));
      pendingFunctors := pendingFunctors + [f];
      queued := queued + [f];
      wake := !inLoopThread || callingPendingFunctors;
      if inLoopThread { ownDebt := wake; } else { debts := debts + 1; }
    }

    /** quit: sets the flag; only another thread goes on to wake the loop. */
    method Quit(inLoopThread: bool)
      requires Valid()
      requires inLoopThread ==> Enabled(Abs(), OwnQuit)
      modifies this
      ensures Valid()
      ensures Abs() == Next(old(Abs()), if inLoopThread then OwnQuit else Event.Quit)
      ensures m_quit && asked && pendingFunctors == old(pendingFunctors) && eventFd == old(eventFd) && phase == old(phase)
      ensures debts == old(debts) + if inLoopThread then 0 else 1
    {
      NextInv(Abs(), if inLoopThread then OwnQuit else Event.Quit);
      m_quit, asked := true, true;
      if !inLoopThread { debts := debts + 1; }
    }

    /** wakeup: adds one to the eventfd, unless it is full. */
    method Wakeup(inLoopThread: bool)
      requires Valid()
      requires Enabled(Abs(), if inLoopThread then OwnWake else Wake)
      modifies this
      ensures Valid()
      ensures Abs() == Next(old(Abs()), if inLoopThread then OwnWake else Wake)
      ensures if old(eventFd).counter < 0xffff_ffff_ffff_fffe
        then eventFd.counter == old(eventFd).counter + 1 && eventFd.edge
        else eventFd == old(eventFd)
      ensures m_quit == old(m_quit) && pendingFunctors == old(pendingFunctors) && phase == old(phase)
      ensures asked == old(asked)
    {
      NextInv(Abs(), if inLoopThread then OwnWake else Wake);
      eventFd := eventFd.Written();
      if inLoopThread { ownDebt := false; } else { debts := debts - 1; }
    }

    /** handleRead: one successful read empties the counter, and the channel asks for reading again. */
    method HandleRead()
      requires Valid()
      requires Enabled(Abs(), ReadEventFd)
      modifies this
      ensures Valid()
      ensures Abs() == Next(old(Abs()), ReadEventFd)
      ensures eventFd == old(eventFd).(counter := 0) && events == {In, Et} && phase == Dispatching(false)
      ensures m_quit == old(m_quit) && pendingFunctors == old(pendingFunctors)
      ensures asked == old(asked)
    {
      NextInv(Abs(), ReadEventFd);
      eventFd := eventFd.(counter := 0);
      events := {In, Et};
      phase := Dispatching(false);
    }

    /** handleConn, through epoll_mod: the mask is the registered one, so the system is not called. */
    method HandleConn() returns (called: bool)
      requires Valid() && phase == Dispatching(false)
      modifies this`lastEvents
      ensures Valid() && Abs() == old(Abs()) && !called
    {
      called := lastEvents != events;
      lastEvents := events;
    }

    /** Something another thread does or, where the loop thread runs foreign code, something that
        code asks of the loop.  A wakeup nobody owes is skipped. */
    method Interfere(e: Event, foreign: bool)
      requires Valid() && !ownDebt && (foreign <==> phase.Dispatching? || phase.Inside?)
      modifies this
      ensures Valid() && !ownDebt
      ensures phase == old(phase) && batch == old(batch) && executed == old(executed)
      ensures callingPendingFunctors == old(callingPendingFunctors)
      ensures old(queued) <= queued
      ensures old(asked) ==> asked
    {
      match e {
        case Push(f) =>
          var _ := QueueInLoop(f, false);
        case Quit =>
          Quit(false);
        case Wake =>
          if debts > 0 {
            Wakeup(false);
          }
        case OwnPush(f) =>
          if foreign {
            var wake := QueueInLoop(f, true);
            if wake {
              Wakeup(true);
            }
          }
        case OwnQuit =>
          if foreign {
            Quit(true);
          }
        case _ =>
      }
    }

    method Interleave(es: seq<Event>, foreign: bool)
      requires Valid() && !ownDebt && (foreign <==> phase.Dispatching? || phase.Inside?)
      modifies this
      ensures Valid() && !ownDebt
      ensures phase == old(phase) && batch == old(batch) && executed == old(executed)
      ensures callingPendingFunctors == old(callingPendingFunctors)
      ensures old(queued) <= queued
      ensures old(asked) ==> asked
    {
      for i := 0 to |es|
        invariant Valid() && !ownDebt
        invariant phase == old(phase) && batch == old(batch) && executed == old(executed)
        invariant callingPendingFunctors == old(callingPendingFunctors) && (old(asked) ==> asked)
        invariant old(queued) <= queued
      {
        Interfere(es[i], foreign);
      }
    }

    /** The critical section of doPendingFunctors. */
    method SwapFunctors() returns (functors: seq<Functor>)
      requires Valid() && Enabled(Abs(), Swap)
      modifies this
      ensures Abs() == Next(old(Abs()), Swap) && Valid()
      ensures functors == old(pendingFunctors) == batch && pendingFunctors == [] && callingPendingFunctors
      ensures m_quit == old(m_quit) && eventFd == old(eventFd) && phase == Between && executed == old(executed)
      ensures asked == old(asked)
    {
      NextInv(Abs(), Swap);
      callingPendingFunctors, phase := true, Between;
      functors := pendingFunctors;
      pendingFunctors := [];
      batch := functors;
    }

    /** functors[i](), with what its body does and what runs beside it. */
    method Execute(f: Functor, body: seq<Event>)
      requires Valid() && Enabled(Abs(), Begin) && !ownDebt && f == batch[0]
      modifies this
      ensures Valid() && phase.Between? && !ownDebt
      ensures executed == old(executed) + [f] && batch == old(batch)[1..]
      ensures old(queued) <= queued
      ensures old(asked) ==> asked
    {
      NextInv(Abs(), Begin);
      phase, executed, batch := Inside, executed + [f], batch[1..];
      Interleave(body, true);
      NextInv(Abs(), End);
      phase := Between;
    }

    /** Executes the functors found in the queue at the swap, each once and in order, and nothing
        else; what is queued meanwhile is still queued afterwards. */
    method DoPendingFunctors(bodies: seq<seq<Event>>)
      requires Valid() && Enabled(Abs(), Swap)
      modifies this
      ensures Valid() && phase.Expiring? && !ownDebt
      ensures executed == old(executed) + old(pendingFunctors)
      ensures old(queued) <= queued && pendingFunctors == queued[|old(queued)|..]
      ensures old(asked) ==> asked
    {
      hide Announced;
      BatchIsDone();
      var functors := SwapFunctors();
      ExecuteAll(functors, bodies);
      NextInv(Abs(), EndBatch);
      callingPendingFunctors, phase := false, Expiring;
      BatchIsDone();
    }

    /** The loop over the functors taken. */
    method ExecuteAll(functors: seq<Functor>, bodies: seq<seq<Event>>)
      requires Valid() && phase.Between? && !ownDebt && batch == functors
      modifies this
      ensures Valid() && phase.Between? && !ownDebt
      ensures batch == [] && executed == old(executed) + functors
      ensures old(queued) <= queued
      ensures old(asked) ==> asked
    {
      hide Inv, Next;
      var i := 0;
      while i < |functors|
        invariant 0 <= i <= |functors|
        invariant Valid() && phase.Between? && !ownDebt
        invariant batch == functors[i..] && executed == old(executed) + functors[..i]
        invariant old(queued) <= queued && (old(asked) ==> asked)
      {
        Execute(functors[i], if i < |bodies| then bodies[i] else []);
        i := i + 1;
      }
      assert functors[..i] == functors;
    }

    /** From the test of the quit flag through epoll_wait to the end of the event handlers. */
    method PollAndDispatch(it: Iteration)
      requires Valid() && phase.Head? && !ownDebt && !m_quit
      modifies this
      ensures Valid() && Enabled(Abs(), Swap)
      ensures executed == old(executed) && old(queued) <= queued
      ensures old(asked) ==> asked
    {
      NextInv(Abs(), TestQuit);
      phase := Polling;
      Interleave(it.polling, false);
      var wakeup := it.wakeup && eventFd.edge && eventFd.counter > 0;
      PollReturn(wakeup);
      Interleave(it.handlers, true);
      if wakeup {
        HandleRead();
        var _ := HandleConn();
      }
    }

    /** epoll_wait returns; with the eventfd among its events, the kernel's edge is spent and the channel's mask
        is cleared. */
    method PollReturn(wakeup: bool)
      requires Valid() && Enabled(Abs(), PollReturns(wakeup))
      modifies this
      ensures Abs() == Next(old(Abs()), PollReturns(wakeup)) && Valid()
      ensures asked == old(asked)
    {
      NextInv(Abs(), PollReturns(wakeup));
      phase := Dispatching(wakeup);
      if wakeup {
        eventFd := eventFd.(edge := false);
        events := {};
      }
    }

    /** loop(): clears the quit flag, then runs until it finds the flag set or the given iterations are used up.
        It leaves at the first test that comes after a quit, and at no other: `found[i]` is whether anybody had
        called quit since the start when test i was made.  One iteration is enough to execute everything that
        was queued before it. */
    method Run(iterations: seq<Iteration>) returns (n: nat, ghost found: seq<bool>)
      requires Valid() && phase.Starting? && !ownDebt
      modifies this
      ensures Valid() && n <= |iterations|
      ensures phase.Done? <==> n < |iterations|
      ensures |found| == (if phase.Done? then n + 1 else n) && forall i :: 0 <= i < |found| ==> (found[i] <==> i == n)
      ensures phase.Done? ==> m_quit && asked
      ensures queued == executed + pendingFunctors
      ensures old(queued) <= queued && old(executed) <= executed
      ensures n > 0 ==> old(queued) <= executed
    {
      hide Announced;
      NextInv(Abs(), Enter);
      m_quit, phase, asked := false, Head, false;
      n, found := 0, [];
      while n < |iterations|
        invariant 0 <= n <= |iterations| && |found| == n
        invariant Valid() && phase.Head? && !ownDebt
        invariant forall i :: 0 <= i < n ==> !found[i]
        invariant old(queued) <= queued && old(executed) <= executed
        invariant n > 0 ==> old(queued) <= executed
      {
        var it := iterations[n];
        Interleave(it.testing, false);
        found := found + [asked];
        if m_quit {
          NextInv(Abs(), TestQuit);
          phase := Done;
          BatchIsDone();
          return;
        }
        Iterate(it);
        n := n + 1;
      }
      BatchIsDone();
    }

    /** The body of the loop. */
    method Iterate(it: Iteration)
      requires Valid() && phase.Head? && !ownDebt && !m_quit
      modifies this
      ensures Valid() && phase.Head? && !ownDebt
      ensures old(queued) <= queued && old(executed) <= executed && old(queued) <= executed
      ensures old(asked) ==> asked
    {
      hide Announced;
      PollAndDispatch(it);
      BatchIsDone();
      DoPendingFunctors(it.bodies);
      Interleave(it.expiring, false);
      NextInv(Abs(), Expired);
      phase := Head;
    }

    lemma BatchIsDone()
      requires Valid() && !phase.Between? && !phase.Inside?
      ensures queued == executed + pendingFunctors
    {
    }
  }
}
