/**
  The objects behind one event loop: connections (an HttpData with its Channel), timer nodes, and the
  poller with its descriptor tables, its timer queue and the kernel's side of epoll.

  A timer node holds on to its connection and closes it when it is destroyed, unless it was cleared
  before.  Re-arming clears the linked node and leaves it in the queue, so the queue is full of stale
  nodes; the invariant says which nodes still count.
 */
module Reactor {
  import opened PartialIo
  import opened Connection
  import opened Sweep
  import opened Polling
  import opened Service

  class TimerNode {
    const expiredTime: nat
    var deleted: bool
    var req: HttpData?

    constructor (req: HttpData, expiredTime: nat)
      ensures this.req == req && this.expiredTime == expiredTime && !deleted
    {
      this.req, this.expiredTime, deleted := req, expiredTime, false;
    }

    method ClearReq()
      modifies this
      ensures req == null && deleted
    {
      req := null;
      deleted := true;
    }

    /** isValid: compares a clock reading with the deadline, and marks the node when it has passed. */
    method IsValid(now: nat) returns (valid: bool)
      modifies this`deleted
      ensures valid <==> now < expiredTime
      ensures deleted == (old(deleted) || !valid)
    {
      valid := now < expiredTime;
      if !valid { deleted := true; }
    }
  }

  class HttpData {
    const fd: int
    var error: bool
    var state: ConnectionState
    var keepAlive: bool
    var inBuffer: string
    var outBuffer: string
    // the channel's masks
    var events: Mask
    var lastEvents: Mask
    /** A weak pointer: null once the node is destroyed. */
    var timer: TimerNode?
    ghost var sent: string
    ghost var produced: string
    /** How often handleClose has run. */
    ghost var closes: nat

    constructor (fd: int)
      ensures this.fd == fd && New()
    {
      this.fd := fd;
      error, state, keepAlive, inBuffer, outBuffer := false, Connected, false, "", "";
      events, lastEvents, timer := {}, {}, null;
      sent, produced, closes := "", "", 0;
    }

    /** As constructed, and not yet known to any loop. */
    ghost predicate New()
      reads this
    {
      View() == Conn(false, Connected, false, "", "", {}, "", "") && lastEvents == {} && timer == null && closes == 0
    }

    ghost function View(): Conn
      reads this
    {
      Conn(error, state, keepAlive, inBuffer, outBuffer, events, sent, produced)
    }

    /** The deadline of the linked timer, if there is one. */
    ghost function Due(): set<nat>
      reads this
    {
      if timer == null then {} else {timer.expiredTime}
    }

    ghost function Now(): Before
      reads this
    {
      Before(View(), Due())
    }

    /** seperateTimer: the linked node will not close this connection any more. */
    method SeparateTimer()
      modifies this`timer, timer
      ensures timer == null
      ensures old(timer) != null ==> old(timer).req == null && old(timer).deleted
    {
      if timer != null {
        timer.ClearReq();
        timer := null;
      }
    }

    /** EqualAndUpdateLastEvents */
    method EqualAndUpdateLastEvents() returns (equal: bool)
      modifies this`lastEvents
      ensures equal <==> old(lastEvents) == events
      ensures lastEvents == events
    {
      equal := lastEvents == events;
      lastEvents := events;
    }

    /** handleWrite; `script` is how the socket behaves meanwhile, and m is how many of its calls let the write go
        on.  What these take is sent; the output buffer is empty if and only if that is all of it; and it is an
        error if and only if a call fails before. */
    method HandleWrite(script: seq<Syscall>) returns (ghost m: nat)
      modifies this`error, this`outBuffer, this`events, this`sent
      ensures View() == Connection.HandleWrite(old(View()), script)
      ensures Leading(script, true, m)
      ensures old(error) || old(state).Disconnected? ==> View() == old(View())
      ensures !old(error) && !old(state).Disconnected? ==>
        var n := Min(|old(outBuffer)|, Taken(script[..m]));
        && sent == old(sent) + old(outBuffer)[..n]
        && (error <==> exists k: nat :: FailsAt(|old(outBuffer)|, script, k))
        && outBuffer == (if error then old(outBuffer) else old(outBuffer)[n..])
        && events == (if error then {} else old(events)) + (if outBuffer == "" then {} else {Out})
    {
      hide Connection.HandleWrite, FailsAt, Taken, Leading, Cut;
      m := SomeLeading(script, true);
      WriteExactly(View(), script, m);
      if !error && !state.Disconnected? {
        BrokenWhenFailing(|outBuffer|, script);
        CutIsBroken(|outBuffer|, script, m);
        var socket := new Descriptor("", script);
        var size, rest, k := WritenString(socket, outBuffer);
        OneEnd(script, true, m, k);
        sent, outBuffer := sent + socket.sent, rest;
        if size < 0 {
          events, error := {}, true;
        }
        if outBuffer != [] {
          events := events + {Out};
        }
      }
    }

    /** The loop body of handleRead: reads, then parses; tells whether a request was finished. */
    method ReadAndParse(p: Pass) returns (finished: bool, ghost m: nat)
      modifies this`error, this`state, this`keepAlive, this`inBuffer, this`outBuffer, this`sent, this`produced
      ensures View() == Connection.ReadAndParse(old(View()), p)
      ensures finished <==> Finishes(old(View()), p)
      ensures LeadingReads(|p.incoming|, p.calls, m)
      ensures old(state).Disconnecting? ==> View() == old(View()).(inBuffer := "") && !finished
      ensures !old(state).Disconnecting? && ReadFails(p, m) ==>
        !finished && View() == old(View()).(inBuffer := old(inBuffer) + Data(p, m), error := true, sent := old(sent) + p.page)
      ensures !old(state).Disconnecting? && ReadEnds(p, m) && Data(p, m) == "" ==>
        !finished && View() == old(View()).(state := Disconnecting)
      ensures !old(state).Disconnecting? && !ReadFails(p, m) && !(ReadEnds(p, m) && Data(p, m) == "") ==>
        && (finished <==> p.parsed.Answered?) && inBuffer == p.parsed.rest && events == old(events)
        && state == (if ReadEnds(p, m) then Disconnecting else old(state))
        && produced == old(produced) + (if p.parsed.Answered? then p.parsed.response else "")
        && error == (old(error) || p.parsed.Rejected?) && sent == old(sent) + (if p.parsed.Rejected? then p.parsed.page else "")
        && keepAlive == (old(keepAlive) || (p.parsed.Answered? && p.parsed.keepAlive))
        && outBuffer == match p.parsed
                        case Waiting(_) => old(outBuffer)
                        case Answered(response, _, _) => old(outBuffer) + response
                        case Rejected(out, _, _) => out
    {
      hide LeadingReads, Got, Reads, Connection.ReadAndParse, Finishes;
      m := SomeLeadingReads(|p.incoming|, p.calls, 0);
      InRange(|p.incoming|, p.calls, m);
      ParseExactly(View(), p, m);
      var socket := new Descriptor(p.incoming, p.calls);
      var readNum, buffer, zero, k := ReadnString(socket, inBuffer, false);
      OneLeading(|p.incoming|, p.calls, m, k);
      inBuffer := buffer;
      if state.Disconnecting? {
        inBuffer := "";
        return false, m;
      }
      if readNum < 0 {
        error, sent := true, sent + p.page;
        return false, m;
      }
      if zero {
        state := Disconnecting;
        if readNum == 0 { return false, m; }
      }
      inBuffer := p.parsed.rest;
      match p.parsed
        case Waiting(_) =>
          finished := false;
        case Answered(response, alive, _) =>
          outBuffer, produced := outBuffer + response, produced + response;
          if alive { keepAlive := true; }
          finished := true;
        case Rejected(out, page, _) =>
          error, outBuffer, sent := true, out, sent + page;
          finished := false;
    }

    /** handleRead */
    method HandleRead(passes: seq<Pass>)
      modifies this`error, this`state, this`keepAlive, this`inBuffer, this`outBuffer, this`events, this`sent, this`produced,
               this`timer, timer
      ensures View() == Connection.HandleRead(old(View()), passes)
      ensures timer == if Resets(old(View()), passes) then null else old(timer)
      ensures old(timer) != null ==>
        if timer == null then old(timer).req == null && old(timer).deleted
        else old(timer).req == old(timer.req) && old(timer).deleted == old(timer.deleted)
      decreases |passes|
    {
      hide Connection.ReadAndParse, Finishes, LeadingReads, ReadFails, ReadEnds, Data, Taken, Leading, FailsAt;
      var p := if passes == [] then Pass("", [], "", Waiting(inBuffer), []) else passes[0];
      var finished, _ := ReadAndParse(p);
      if !error {
        var _ := HandleWrite(p.writes);
      }
      if !error && finished {
        SeparateTimer();  // reset
        if |inBuffer| > 0 {
          if !state.Disconnecting? {
            HandleRead(passes[1..]);
          }
        } else if !error && !state.Disconnected? {
          events := events + {In};
        }
      }
    }
  }

  /** A connection as an event finds it. */
  datatype Before = Before(view: Conn, due: set<nat>)
  {
    /** The deadline it has afterwards. */
    function DueAfter(action: Action, p: Play): set<nat> {
      match action
      case Update(timeout) => {p.now + timeout}
      case Skip => due
      case _ => {}
    }
  }

  /** How one delivered event plays out: what is read and written, the clock, the answer of epoll_ctl. */
  datatype Play = Play(passes: seq<Pass>, writes: seq<Syscall>, now: nat, ok: bool)

  datatype Arrival = Arrival(fd: int, now: nat, ok: bool)

  /** What one iteration did: whether poll returned, the connections handled and taken on, the clock readings. */
  datatype Log = Log(returned: bool, batch: seq<(HttpData, Mask)>, begun: seq<HttpData>, readings: nat)

  /** All that happens around one iteration of the loop. */
  datatype Turn = Turn(
    attempts: seq<Attempt>,
    plays: nat -> Play,
    accepted: seq<Arrival>,
    clock: nat -> nat,
    oks: nat -> bool)

  /** The arrivals whose descriptor nobody uses yet. */
  function Admitted(accepted: seq<Arrival>, taken: set<int>): seq<Arrival>
    decreases |accepted|
  {
    if accepted == [] then []
    else if accepted[0].fd in taken then Admitted(accepted[1..], taken)
    else [accepted[0]] + Admitted(accepted[1..], taken + {accepted[0].fd})
  }

  /** Those are, at most one for each descriptor, arrivals at free descriptors. */
  lemma {:induction false} AdmittedAreFree(accepted: seq<Arrival>, taken: set<int>)
    ensures var admitted := Admitted(accepted, taken);
      && (forall a :: a in admitted ==> a in accepted && a.fd !in taken)
      && (forall i, j :: 0 <= i < j < |admitted| ==> admitted[i].fd != admitted[j].fd)
    decreases |accepted|
  {
    if accepted != [] {
      AdmittedAreFree(accepted[1..], if accepted[0].fd in taken then taken else taken + {accepted[0].fd});
    }
  }

  /** And there is one for each free descriptor that is accepted. */
  lemma {:induction false} FreeAreAdmitted(accepted: seq<Arrival>, taken: set<int>, a: Arrival)
    requires a in accepted && a.fd !in taken
    ensures exists k :: 0 <= k < |Admitted(accepted, taken)| && Admitted(accepted, taken)[k].fd == a.fd
    decreases |accepted|
  {
    var fd, rest, admitted := accepted[0].fd, accepted[1..], Admitted(accepted, taken);
    if fd in taken {
      FreeAreAdmitted(rest, taken, a);
    } else if a.fd == fd {
      assert admitted[0].fd == fd;
    } else {
      FreeAreAdmitted(rest, taken + {fd}, a);
      var k :| 0 <= k < |Admitted(rest, taken + {fd})| && Admitted(rest, taken + {fd})[k].fd == a.fd;
      assert admitted[k + 1].fd == a.fd;
    }
  }

  lemma AdmittedStep(accepted: seq<Arrival>, i: nat, taken: set<int>)
    requires i < |accepted|
    ensures var fd := accepted[i].fd;
      Admitted(accepted[i..], taken) ==
        if fd in taken then Admitted(accepted[i + 1..], taken) else [accepted[i]] + Admitted(accepted[i + 1..], taken + {fd})
  {
    assert accepted[i..][1..] == accepted[i + 1..];
  }

  ghost predicate Among(c: HttpData, batch: seq<(HttpData, Mask)>) {
    exists b :: b in batch && b.0 == c
  }

  class Epoll {
    /** m_fd2chan and m_fd2http, which are always set and reset together. */
    var fd2chan: map<int, HttpData>
    /** The timer queue; only a node of least deadline is ever taken from it. */
    var queue: set<TimerNode>
    // the system's side
    var kernel: map<int, Interest>
    // history: every connection this loop has ever been given
    ghost var conns: set<HttpData>

    constructor ()
      ensures Valid() && conns == {}
    {
      fd2chan, queue, kernel, conns := map[], {}, map[], {};
    }

    predicate Registered(c: HttpData)
      reads this`fd2chan
    {
      c.fd in fd2chan && fd2chan[c.fd] == c
    }

    /** Somebody still holds the connection, so its descriptor is not reused. */
    ghost predicate InUse(c: HttpData)
      reads this`fd2chan, c`timer
    {
      Registered(c) || c.timer != null
    }

    /** The nodes that still count are exactly those their own connection links to. */
    ghost predicate Timers()
      reads this`queue, this`conns, conns`timer, queue
    {
      && (forall n :: n in queue ==> if n.req == null then n.deleted else n.req in conns && n.req.timer == n)
      && (forall c :: c in conns && c.timer != null ==> c.timer in queue && c.timer.req == c && !c.timer.deleted)
    }

    ghost predicate Tables()
      reads this`fd2chan, this`conns, conns`timer
    {
      && (forall fd :: fd in fd2chan ==> fd2chan[fd] in conns && fd2chan[fd].fd == fd)
      && (forall c :: c in conns && InUse(c) && c.fd in fd2chan ==> fd2chan[c.fd] == c)
    }

    /** The cached mask is the kernel's; a registration is one of three and only the first may be spent;
        pending output is registered for. */
    ghost predicate MaskAgrees(c: HttpData)
      reads this`kernel, c
    {
      && c.fd in kernel && kernel[c.fd].mask == c.lastEvents
      && Registrable(c.lastEvents) && (!kernel[c.fd].armed ==> c.lastEvents == DEFAULT_EVENT)
      && (c.state.Connected? && c.outBuffer != [] ==> c.lastEvents == WRITING)
    }

    /** A connection between two events: connected with a timer, or draining without one, or closed once. */
    ghost predicate Settled(c: HttpData)
      reads this`kernel, this`fd2chan, c
    {
      && Accounted(c.View())
      && c.closes == (if c.state.Disconnected? then 1 else 0)
      && (Registered(c) ==> MaskAgrees(c))
      && match c.state
         case Connected => !c.error && c.timer != null
         case Disconnecting => !c.error && c.timer == null && Registered(c)
         case Disconnected => c.timer == null && !Registered(c)
    }

    ghost predicate Valid()
      reads this, conns, queue
    {
      Timers() && Tables() && forall c :: c in conns ==> Settled(c)
    }

    /** The deadline of every connection that has one: what the timer queue stands for. */
    ghost function Armed(): map<HttpData, nat>
      reads this`conns, conns`timer
    {
      map c | c in conns && c.timer != null :: c.timer.expiredTime
    }

    /** add_timer */
    method AddTimer(c: HttpData, timeout: nat, now: nat)
      requires c in conns && c.timer == null && Timers()
      modifies this`queue, c`timer
      ensures Timers() && c.timer != null && fresh(c.timer) && queue == old(queue) + {c.timer}
      ensures c.timer.expiredTime == now + timeout
      ensures Armed() == old(Armed())[c := now + timeout]
    {
      var node := new TimerNode(c, now + timeout);
      queue := queue + {node};
      c.timer := node;
    }

    /** epoll_add; `ok` is whether epoll_ctl succeeds. */
    method EpollAdd(c: HttpData, timeout: nat, now: nat, ok: bool)
      requires c in conns && c.timer == null && Timers()
      modifies this`queue, this`fd2chan, this`kernel, c`timer, c`lastEvents
      ensures Timers() && c.timer != null && fresh(c.timer) && queue == old(queue) + {c.timer}
      ensures Armed() == old(Armed())[c := now + timeout]
      ensures c.lastEvents == c.events
      ensures fd2chan == if ok then old(fd2chan)[c.fd := c] else old(fd2chan) - {c.fd}
      ensures kernel == if ok then old(kernel)[c.fd := Interest(c.events, true)] else old(kernel)
    {
      AddTimer(c, timeout, now);
      fd2chan := fd2chan[c.fd := c];
      var _ := c.EqualAndUpdateLastEvents();
      if ok {
        kernel := kernel[c.fd := Interest(c.events, true)];
      } else {
        fd2chan := fd2chan - {c.fd};
      }
      assert Armed() == old(Armed())[c := now + timeout];
    }

    /** epoll_mod.  While the cached mask agrees with the kernel's, leaving out the call when the mask is
        the same makes no difference to the kernel. */
    method EpollMod(c: HttpData, timeout: nat, now: nat, ok: bool)
      requires c in conns && c.timer == null && Timers()
      requires c.fd in kernel && kernel[c.fd].mask == c.lastEvents && (kernel[c.fd].armed || c.lastEvents != c.events)
      modifies this`queue, this`fd2chan, this`kernel, c`timer, c`lastEvents
      ensures Timers() && c.timer != null && fresh(c.timer) && queue == old(queue) + {c.timer}
      ensures Armed() == old(Armed())[c := now + timeout]
      ensures c.lastEvents == c.events
      ensures var called := old(c.lastEvents) != c.events;
        && fd2chan == (if called && !ok then old(fd2chan) - {c.fd} else old(fd2chan))
        && (!called || ok ==> kernel == old(kernel)[c.fd := Interest(c.events, true)])
        && (called && !ok ==> kernel == old(kernel))
    {
      AddTimer(c, timeout, now);
      var equal := c.EqualAndUpdateLastEvents();
      if !equal {
        if ok {
          kernel := kernel[c.fd := Interest(c.events, true)];
        } else {
          fd2chan := fd2chan - {c.fd};
        }
      }
      assert Armed() == old(Armed())[c := now + timeout];
    }

    /** handleClose and, in it, epoll_del. */
    method HandleClose(c: HttpData, ok: bool)
      modifies this`fd2chan, this`kernel, c`state, c`closes
      ensures c.state.Disconnected? && c.closes == old(c.closes) + 1
      ensures fd2chan == old(fd2chan) - {c.fd}
      ensures kernel == if ok then old(kernel) - {c.fd} else old(kernel)
    {
      c.state := Disconnected;
      c.closes := c.closes + 1;
      if ok { kernel := kernel - {c.fd}; }
      fd2chan := fd2chan - {c.fd};
    }

    /** The loop comes to know the connection. */
    ghost method Admit(c: HttpData)
      requires Valid() && c !in conns && c.New()
      modifies this`conns
      ensures conns == old(conns) + {c} && Timers() && Armed() == old(Armed())
    {
      conns := conns + {c};
    }

    twostate lemma Registering(c: HttpData)
      requires old(Tables()) && conns == old(conns) + {c} && c !in old(conns)
      requires fd2chan == old(fd2chan)[c.fd := c] || fd2chan == old(fd2chan) - {c.fd}
      requires forall d :: d in old(conns) ==> d.timer == old(d.timer) && (d.fd == c.fd ==> !old(InUse(d)))
      ensures Tables()
    {
    }

    /** newEvent: the loop takes on a connection whose descriptor nobody else is using. */
    method NewEvent(c: HttpData, now: nat, ok: bool)
      requires Valid() && c !in conns && c.New()
      requires forall d :: d in conns && d.fd == c.fd ==> !InUse(d)
      modifies this, c
      ensures Valid() && conns == old(conns) + {c}
      ensures Armed() == old(Armed())[c := now + DEFAULT_EXPIRED_TIME]
      ensures c.timer != null && fresh(c.timer) && queue == old(queue) + {c.timer} && c.timer.req == c
      ensures c.View() == old(c.View()).(events := DEFAULT_EVENT) && c.closes == 0
      ensures fd2chan == if ok then old(fd2chan)[c.fd := c] else old(fd2chan) - {c.fd}
      ensures kernel == if ok then old(kernel)[c.fd := Interest(DEFAULT_EVENT, true)] else old(kernel)
    {
      assert Accounted(c.View());
      hide Accounted, Timers, Tables;
      AccountedAnyway(c.View(), DEFAULT_EVENT);
      Admit(c);
      c.events := DEFAULT_EVENT;
      EpollAdd(c, DEFAULT_EXPIRED_TIME, now, ok);
      assert Settled(c);
      Registering(c);
      OthersStaySettled(c);
    }

    /** A change to one connection, its table entry and its registration leaves the others as settled as they were. */
    twostate lemma OthersStaySettled(c: HttpData)
      requires forall d :: d in conns && d != c ==>
        d in old(conns) && old(Settled(d)) && unchanged(d) && (d.fd == c.fd ==> !old(Registered(d)))
      requires (c.fd in fd2chan ==> fd2chan[c.fd] == c) && fd2chan - {c.fd} == old(fd2chan) - {c.fd}
      requires kernel - {c.fd} == old(kernel) - {c.fd}
      ensures forall d :: d in conns && d != c ==> Settled(d)
    {
      forall d | d in conns && d != c
        ensures Settled(d)
      {
        assert old(Settled(d));
        assert d.fd != c.fd && d.fd in old(fd2chan) ==> d.fd in old(fd2chan) - {c.fd};
        assert d.fd != c.fd && d.fd in fd2chan ==> d.fd in fd2chan - {c.fd};
        assert d.fd != c.fd && d.fd in old(kernel) ==> d.fd in old(kernel) - {c.fd};
      }
    }

    /** The connection whose handlers are running; everybody else is settled. */
    ghost predicate InHand(c: HttpData)
      reads this, conns, queue
    {
      && Timers() && Tables() && c in conns && Registered(c)
      && (forall d :: d in conns && d != c ==> Settled(d))
      && c.closes == 0 && !c.state.Disconnected?
      && c.fd in kernel && kernel[c.fd].mask == c.lastEvents
      && Registrable(c.lastEvents) && (!kernel[c.fd].armed ==> c.lastEvents == DEFAULT_EVENT)
    }

    /** Registers the connection anew, with a new timer. */
    method Rearm(c: HttpData, timeout: nat, now: nat, ok: bool)
      requires InHand(c) && c.timer == null && Accounted(c.View())
      requires !c.error && c.state.Connected? && (c.events == READING || c.events == WRITING)
      requires c.outBuffer != [] ==> c.events == WRITING
      modifies this, c`timer, c`lastEvents
      ensures Valid() && conns == old(conns)
      ensures fresh(queue - old(queue)) && Armed() == old(Armed())[c := now + timeout]
      ensures fd2chan == old(fd2chan) || fd2chan == old(fd2chan) - {c.fd}
      ensures kernel - {c.fd} == old(kernel) - {c.fd}
      ensures ok ==> Registered(c) && kernel == old(kernel)[c.fd := Interest(c.events, true)]
    {
      hide Accounted;
      EpollMod(c, timeout, now, ok);
      assert Settled(c);
      forall d | d in conns && d != c
        ensures Settled(d)
      {
        assert old(Settled(d));
      }
    }

    /** Closes the connection for good. */
    method Shut(c: HttpData, ok: bool)
      requires InHand(c) && c.timer == null && Accounted(c.View())
      modifies this`fd2chan, this`kernel, c`state, c`closes
      ensures Valid() && Armed() == old(Armed())
      ensures c.View() == old(c.View()).(state := Disconnected) && c.closes == 1 && fd2chan == old(fd2chan) - {c.fd}
      ensures kernel - {c.fd} == old(kernel) - {c.fd}
    {
      HandleClose(c, ok);
      assert Armed() == old(Armed());
      assert Settled(c);
      forall d | d in conns && d != c
        ensures Settled(d)
      {
        assert old(Settled(d));
      }
    }

    /** Leaves the connection to drain.  The mask is set but never registered. */
    method LetDrain(c: HttpData)
      requires InHand(c) && c.timer == null && Accounted(c.View()) && !c.error && c.state.Disconnecting?
      modifies c`events
      ensures Valid() && Armed() == old(Armed())
      ensures c.View() == old(c.View()).(events := WRITING)
    {
      c.events := {Out, Et};
      assert Settled(c);
    }

    /** The mask and the timeout handleConn asks for. */
    method NextMask(c: HttpData) returns (timeout: nat)
      requires !c.error && c.state.Connected?
      modifies c`events
      ensures Connection.HandleConn(old(c.View())) == (c.View(), Update(timeout))
    {
      if c.events != {} {
        timeout := DEFAULT_EXPIRED_TIME;
        if c.keepAlive { timeout := DEFAULT_KEEP_ALIVE_TIME; }
        if In in c.events && Out in c.events {
          c.events := {};
          c.events := c.events + {Out};
          assert c.events == {Out};
        }
        c.events := c.events + {Et};
      } else if c.keepAlive {
        c.events := c.events + {In, Et};
        assert c.events == READING;
        timeout := DEFAULT_KEEP_ALIVE_TIME;
      } else {
        c.events := c.events + {In, Et};
        assert c.events == READING;
        timeout := DEFAULT_KEEP_ALIVE_TIME / 2;
      }
    }

    /** seperateTimer */
    method Detach(c: HttpData)
      requires InHand(c)
      modifies c`timer, c.timer
      ensures InHand(c) && c.timer == null && Armed() == old(Armed()) - {c}
    {
      c.SeparateTimer();
      forall d | d in conns && d != c
        ensures Settled(d)
      {
        assert old(Settled(d));
      }
    }

    /** handleConn: separates the timer, then re-registers and re-arms, or lets the connection drain, or
        closes it. */
    method HandleConn(c: HttpData, now: nat, ok: bool)
      requires InHand(c) && Accounted(c.View()) && Asked(c.View())
      modifies this, c, c.timer
      ensures Valid() && conns == old(conns)
      ensures fresh(queue - old(queue))
      ensures fd2chan == old(fd2chan) || fd2chan == old(fd2chan) - {c.fd}
      ensures kernel - {c.fd} == old(kernel) - {c.fd}
      ensures Handled(c, Connection.HandleConn(old(c.View())), now, ok, old(Armed()), old(kernel))
      ensures !old(c.error) && old(c.state).Connected? ==>
        && c.events == (if Out in old(c.events) then {Out, Et} else {In, Et})
        && c in Armed()
        && Armed()[c] == now + if old(c.keepAlive) then 300000 else if old(c.events) == {} then 150000 else 2000
      ensures !old(c.error) && old(c.state).Disconnecting? && Out in old(c.events) ==>
        c.state.Disconnecting? && c !in Armed() && Registered(c)
      ensures old(c.error) || (old(c.state).Disconnecting? && Out !in old(c.events)) ==>
        c.state.Disconnected? && c.closes == 1 && !Registered(c)
    {
      hide Accounted, Settled, Timers, Tables, InHand, Connection.HandleConn;
      Reregistered(c.View());
      Conclude(c, now, ok);
    }

    /** The body of handleConn. */
    method Conclude(c: HttpData, now: nat, ok: bool)
      requires InHand(c) && Accounted(c.View()) && Asked(c.View())
      modifies this, c, c.timer
      ensures Valid() && conns == old(conns)
      ensures fresh(queue - old(queue))
      ensures fd2chan == old(fd2chan) || fd2chan == old(fd2chan) - {c.fd}
      ensures kernel - {c.fd} == old(kernel) - {c.fd}
      ensures Handled(c, Connection.HandleConn(old(c.View())), now, ok, old(Armed()), old(kernel))
    {
      hide Accounted, Asked, Settled, Timers, Tables, Registrable;
      Concluded(c.View());
      Detach(c);
      if !c.error && c.state.Connected? {
        Continue(c, now, ok);
      } else if !c.error && c.state.Disconnecting? && Out in c.events {
        LetDrain(c);
      } else {
        Shut(c, ok);
      }
    }

    /** The branches of handleConn for a connected connection. */
    method Continue(c: HttpData, now: nat, ok: bool)
      requires InHand(c) && c.timer == null && Accounted(c.View()) && Asked(c.View())
      requires !c.error && c.state.Connected?
      modifies this, c
      ensures Valid() && conns == old(conns)
      ensures fresh(queue - old(queue))
      ensures fd2chan == old(fd2chan) || fd2chan == old(fd2chan) - {c.fd}
      ensures kernel - {c.fd} == old(kernel) - {c.fd}
      ensures Handled(c, Connection.HandleConn(old(c.View())), now, ok, old(Armed()), old(kernel))
    {
      hide Accounted, Asked, Settled, Timers, Tables;
      Concluded(c.View());
      var timeout := NextMask(c);
      Rearm(c, timeout, now, ok);
    }

    /** What has become of a connection after its handlers: it was re-armed with a new deadline and, if the
        system agreed, re-registered; or it drains, without a timer; or it is closed, once; or nothing
        happened to it. */
    ghost predicate Handled(c: HttpData, outcome: (Conn, Action), now: nat, ok: bool,
                            armed: map<HttpData, nat>, interest: map<int, Interest>)
      reads this, conns, c
    {
      match outcome.1
      case Update(timeout) =>
        && c.View() == outcome.0 && Armed() == armed[c := now + timeout]
        && (ok ==> Registered(c) && kernel == interest[c.fd := Interest(c.events, true)])
      case Drain => c.View() == outcome.0 && Armed() == armed - {c} && kernel == interest && Registered(c)
      case Close => c.View() == outcome.0.(state := Disconnected) && c.closes == 1 && Armed() == armed - {c} && !Registered(c)
      case Skip => c.View() == outcome.0 && Armed() == armed && kernel == interest && Registered(c)
    }

    /** The read handler, then the write handler. */
    method RunHandlers(c: HttpData, revents: Mask, passes: seq<Pass>, writes: seq<Syscall>)
      requires InHand(c)
      modifies c, c.timer
      ensures c.View() == Dispatch(old(c.View()), revents, passes, writes)
      ensures !c.state.Disconnected? ==> InHand(c)
      ensures c.timer == old(c.timer) || c.timer == null
      ensures Armed() - {c} == old(Armed()) - {c}
    {
      hide Settled, Timers, Tables, Connection.HandleRead, Connection.HandleWrite;
      Readable(c);
      if In in revents || Pri in revents || RdHup in revents {
        ReadOn(c, passes);
        StillLinked(c);
      }
      if Out in revents {
        WriteOn(c, writes);
      }
    }

    method ReadOn(c: HttpData, passes: seq<Pass>)
      modifies c`error, c`state, c`keepAlive, c`inBuffer, c`outBuffer, c`events, c`sent, c`produced, c`timer, c.timer
      ensures c.View() == Connection.HandleRead(old(c.View()), passes)
      ensures c.timer == old(c.timer) || c.timer == null
      ensures old(c.timer) != null ==>
        if c.timer == null then old(c.timer).req == null && old(c.timer).deleted
        else old(c.timer).req == old(c.timer.req) && old(c.timer).deleted == old(c.timer.deleted)
    {
      hide Connection.HandleRead;
      c.HandleRead(passes);
    }

    method WriteOn(c: HttpData, writes: seq<Syscall>)
      modifies c`error, c`outBuffer, c`events, c`sent
      ensures c.View() == Connection.HandleWrite(old(c.View()), writes)
    {
      hide Connection.HandleWrite;
      var _ := c.HandleWrite(writes);
    }

    lemma Readable(c: HttpData)
      requires InHand(c)
      ensures c.timer != null ==> c.timer in queue && c.timer.req == c
    {
    }

    /** Reading may have cleared the timer, which leaves a stale node behind and nothing else. */
    twostate lemma StillLinked(c: HttpData)
      requires old(Timers()) && old(Tables()) && old(c in conns)
      requires conns == old(conns) && queue == old(queue) && fd2chan == old(fd2chan) && old(Registered(c))
      requires forall d :: d in conns && d != c ==> d.timer == old(d.timer)
      requires c.timer == old(c.timer) || c.timer == null
      requires forall n :: n in queue && n != old(c.timer) ==> n.req == old(n.req) && n.deleted == old(n.deleted)
      requires old(c.timer) != null ==>
        if c.timer == null then old(c.timer).req == null && old(c.timer).deleted
        else old(c.timer).req == old(c.timer.req) && old(c.timer).deleted == old(c.timer.deleted)
      ensures Timers() && Tables() && Armed() - {c} == old(Armed()) - {c}
    {
    }

    /** m_events = 0 at the start of handleEvents: nothing depends on that mask between two events. */
    method ClearEvents(c: HttpData)
      requires Valid() && c in conns && Registered(c)
      modifies c`events
      ensures Valid() && InHand(c) && c.View() == old(c.View()).(events := {}) && Armed() == old(Armed())
      ensures Accounted(c.View()) && !c.error && Registrable(c.lastEvents)
    {
      hide Timers, Tables, Accounted;
      c.events := {};
      AccountedAnyway(old(c.View()), {});
    }

    /** Channel::handleEvents: the handlers the event asks for, then handleConn, unless the event is a
        hang-up without input or an error. */
    method HandleEvents(c: HttpData, revents: Mask, passes: seq<Pass>, writes: seq<Syscall>, now: nat, ok: bool)
      requires Valid() && c in conns && Registered(c) && Deliverable(c.lastEvents, revents)
      modifies this, c, c.timer
      ensures Valid() && conns == old(conns)
      ensures fresh(queue - old(queue))
      ensures fd2chan == old(fd2chan) || fd2chan == old(fd2chan) - {c.fd}
      ensures kernel - {c.fd} == old(kernel) - {c.fd}
      ensures Handled(c, Connection.HandleEvents(old(c.View()), revents, passes, writes), now, ok, old(Armed()), old(kernel))
    {
      hide Accounted, Asked, Dispatch, Connection.HandleConn, Settled, Timers, Tables;
      ClearEvents(c);
      if Hup in revents && In !in revents {
        return;
      }
      if Err in revents {
        return;
      }
      Attend(c, revents, passes, writes, now, ok);
    }

    /** The handlers of an event, then handleConn. */
    method Attend(c: HttpData, revents: Mask, passes: seq<Pass>, writes: seq<Syscall>, now: nat, ok: bool)
      requires InHand(c) && c.events == {} && !c.error && Accounted(c.View())
      requires Deliverable(c.lastEvents, revents) && Err !in revents && (Hup in revents ==> In in revents)
      modifies this, c, c.timer
      ensures Valid() && conns == old(conns)
      ensures fresh(queue - old(queue))
      ensures fd2chan == old(fd2chan) || fd2chan == old(fd2chan) - {c.fd}
      ensures kernel - {c.fd} == old(kernel) - {c.fd}
      ensures Handled(c, Connection.HandleConn(Dispatch(old(c.View()), revents, passes, writes)), now, ok, old(Armed()), old(kernel))
    {
      hide Accounted, Asked, Dispatch, Connection.HandleConn, Settled, Timers, Tables, Handled;
      ghost var armed := Armed();
      SomethingToDo(c.lastEvents, revents);
      DispatchKeeps(c.View(), revents, passes, writes);
      RunHandlers(c, revents, passes, writes);
      Concluded(c.View());
      ghost var outcome, left := Connection.HandleConn(c.View()), Armed();
      HandleConn(c, now, ok);
      HandledAlike(c, outcome, now, ok, left, armed, old(kernel));
    }

    lemma HandledAlike(c: HttpData, outcome: (Conn, Action), now: nat, ok: bool,
                       armed: map<HttpData, nat>, armed': map<HttpData, nat>, interest: map<int, Interest>)
      requires Handled(c, outcome, now, ok, armed, interest) && !outcome.1.Skip? && armed - {c} == armed' - {c}
      ensures Handled(c, outcome, now, ok, armed', interest)
    {
      if outcome.1.Update? {
        SetAgrees(armed, armed', c, now + outcome.1.timeout);
      }
    }

    // ----- One round of the poller -----

    /** epoll_wait, as the kernel does it. */
    method Wait(happenings: seq<Report>) returns (reports: seq<Report>)
      requires Valid()
      modifies this`kernel
      ensures Valid() && Reported(kernel, reports)
      ensures (reports, kernel) == Polling.Wait(old(kernel), happenings)
    {
      hide Timers, Tables, Accounted, Deliverable;
      reports := [];
      for i := 0 to |happenings|
        invariant (reports, kernel) == Polling.Wait(old(kernel), happenings[..i])
      {
        assert happenings[..i + 1][..i] == happenings[..i];
        if Allowed(kernel, reports, happenings[i]) {
          reports := reports + [happenings[i]];
          kernel := Spend(kernel, happenings[i].0);
        }
      }
      assert happenings[..|happenings|] == happenings;
      OnlyAllowed(old(kernel), happenings);
      assert forall r :: r in reports ==> r.0 in old(kernel) && kernel[r.0].mask == old(kernel)[r.0].mask;
    }

    /** A batch of connections with their events, each connection once. */
    ghost predicate Ready(batch: seq<(HttpData, Mask)>)
      reads this`fd2chan, this`conns, conns`lastEvents
    {
      && (forall i, j :: 0 <= i < j < |batch| ==> batch[i].0 != batch[j].0)
      && forall b :: b in batch ==> b.0 in conns && Registered(b.0) && Deliverable(b.0.lastEvents, b.1)
    }

    /** getEventsReqeust: the connections registered for the reported descriptors, with their masks
        cleared.  A descriptor nobody is registered for any more is passed over. */
    method GetEvents(reports: seq<Report>) returns (batch: seq<(HttpData, Mask)>)
      requires Valid() && Reported(kernel, reports)
      modifies conns`events
      ensures Valid() && Ready(batch) && batch == Batch(reports, fd2chan)
      ensures forall c :: c in conns ==>
        c.View() == if Among(c, batch) then old(c.View()).(events := {}) else old(c.View())
    {
      hide Timers, Tables, Settled;
      batch := [];
      for i := 0 to |reports|
        invariant Valid() && batch == Batch(reports[..i], fd2chan)
        invariant forall c :: c in conns ==>
          c.View() == if Among(c, batch) then old(c.View()).(events := {}) else old(c.View())
      {
        var (fd, revents) := reports[i];
        assert reports[..i + 1][..i] == reports[..i];
        if fd in fd2chan {
          var c := fd2chan[fd];
          Holds(fd);
          ClearEvents(c);
          batch := batch + [(c, revents)];
        }
      }
      assert reports[..|reports|] == reports;
      BatchIsReady(reports);
    }

    lemma {:induction false} BatchIsReady(reports: seq<Report>)
      requires Valid() && Reported(kernel, reports)
      ensures Ready(Batch(reports, fd2chan))
      ensures forall b :: b in Batch(reports, fd2chan) ==> exists r :: r in reports && r.0 == b.0.fd
    {
      hide Timers, Accounted, Deliverable;
      if reports != [] {
        var rest, last := reports[..|reports| - 1], reports[|reports| - 1];
        BatchIsReady(rest);
        if last.0 in fd2chan {
          assert Settled(fd2chan[last.0]);
          assert last in reports;
        }
      }
    }

    /** handleEvents of every connection in the batch. */
    method HandleAll(batch: seq<(HttpData, Mask)>, plays: nat -> Play)
      requires Valid() && Ready(batch)
      modifies this, conns, queue
      ensures Valid() && conns == old(conns) && fresh(queue - old(queue))
      ensures forall i :: 0 <= i < |batch| ==> Came(batch[i].0, old(batch[i].0.Now()), batch[i].1, plays(i))
      ensures forall c :: c in conns && !Among(c, batch) ==> Untouched(c)
    {
      hide Settled, Timers, Tables, Came, Ready, Deliverable, Among;
      ghost var befores := Views(batch);
      ReadyOnes(batch);
      for i := 0 to |batch|
        invariant Valid() && conns == old(conns) && fresh(queue - old(queue))
        invariant forall k :: i <= k < |batch| ==> Untouched(batch[k].0)
        invariant forall k :: 0 <= k < i ==> Came(batch[k].0, befores[k], batch[k].1, plays(k))
        invariant forall c :: c in conns && !Among(c, batch) ==> Untouched(c)
      {
        Queued(batch[i].0);
        StillReady(batch, i);
        HandleNext(batch, i, plays, befores);
      }
    }

    lemma ReadyOnes(batch: seq<(HttpData, Mask)>)
      requires Ready(batch)
      ensures forall k :: 0 <= k < |batch| ==> batch[k].0 in conns && Among(batch[k].0, batch)
      ensures forall j, k :: 0 <= j < k < |batch| ==> batch[j].0 != batch[k].0
    {
      assert forall k :: 0 <= k < |batch| ==> batch[k] in batch;
    }

    twostate lemma StillReady(batch: seq<(HttpData, Mask)>, new i: nat)
      requires old(Ready(batch)) && conns == old(conns) && i <= |batch|
      requires forall k :: i <= k < |batch| ==> Untouched(batch[k].0)
      ensures Ready(batch[i..])
    {
      hide Deliverable;
      forall b | b in batch[i..]
        ensures b.0 in conns && Registered(b.0) && Deliverable(b.0.lastEvents, b.1)
      {
        var k :| i <= k < |batch| && b == batch[k];
        assert b in batch;
      }
    }

    ghost function Views(batch: seq<(HttpData, Mask)>): (views: seq<Before>)
      reads set b | b in batch :: b.0
      ensures |views| == |batch| && forall i :: 0 <= i < |batch| ==> views[i] == batch[i].0.Now()
    {
      if batch == [] then [] else Views(batch[..|batch| - 1]) + [batch[|batch| - 1].0.Now()]
    }

    /** One step of the loop over the batch. */
    method HandleNext(batch: seq<(HttpData, Mask)>, i: nat, plays: nat -> Play, ghost befores: seq<Before>)
      requires i < |batch| == |befores| && Valid() && Ready(batch[i..])
      requires forall j, k :: 0 <= j < k < |batch| ==> batch[j].0 != batch[k].0
      requires befores[i] == batch[i].0.Now()
      requires forall k :: 0 <= k < i ==> Came(batch[k].0, befores[k], batch[k].1, plays(k))
      modifies this, batch[i].0, batch[i].0.timer
      ensures Valid() && conns == old(conns) && fresh(queue - old(queue))
      ensures forall k :: 0 <= k <= i ==> Came(batch[k].0, befores[k], batch[k].1, plays(k))
      ensures forall c :: c in conns && c != batch[i].0 ==> Untouched(c)
    {
      hide Settled, Timers, Tables, Connection.HandleEvents, Handled, Came;
      var (c, revents) := batch[i];
      var p := plays(i);
      assert batch[i..][0] == batch[i];
      HandleEvents(c, revents, p.passes, p.writes, p.now, p.ok);
      HasCome(c, old(c.Now()), revents, p);
      assert forall fd :: fd != c.fd && fd in kernel ==> fd in kernel - {c.fd};
      assert forall fd :: fd != c.fd && fd in old(kernel) ==> fd in old(kernel) - {c.fd};
      StillCame(batch[..i], befores[..i], plays);
    }

    lemma Holds(fd: int)
      requires Tables() && fd in fd2chan
      ensures fd2chan[fd] in conns && fd2chan[fd].fd == fd
    {
    }

    twostate lemma HasCome(c: HttpData, new before: Before, new revents: Mask, new p: Play)
      requires Valid() && c in conns && old(Registered(c) && c in conns) && old(c.Now()) == before
      requires Handled(c, Connection.HandleEvents(before.view, revents, p.passes, p.writes), p.now, p.ok, old(Armed()), old(kernel))
      ensures Came(c, before, revents, p)
    {
      hide Timers, Tables, Connection.HandleEvents;
      assert Settled(c);
      assert c.timer != null <==> c in Armed();
      assert before.due != {} <==> c in old(Armed());
      ghost var outcome := Connection.HandleEvents(before.view, revents, p.passes, p.writes).1;
      if outcome.Update? {
        assert c in Armed() && Armed()[c] == p.now + outcome.timeout;
      } else if outcome.Skip? && c in Armed() {
        assert Armed()[c] == old(Armed())[c];
      }
    }

    lemma Queued(c: HttpData)
      requires Timers() && c in conns
      ensures c.timer != null ==> c.timer in queue
    {
    }

    /** What has become of a connection is not undone by what happens to others. */
    twostate lemma StillCame(batch: seq<(HttpData, Mask)>, new befores: seq<Before>, new plays: nat -> Play)
      requires |batch| == |befores|
      requires forall k :: 0 <= k < |batch| ==> old(Came(batch[k].0, befores[k], batch[k].1, plays(k)))
      ensures forall k :: 0 <= k < |batch| && Untouched(batch[k].0) ==> Came(batch[k].0, befores[k], batch[k].1, plays(k))
    {
      hide Connection.HandleEvents;
      forall k | 0 <= k < |batch| && Untouched(batch[k].0)
        ensures Came(batch[k].0, befores[k], batch[k].1, plays(k))
      {
      }
    }

    /** What has become of a connection that an event was delivered to: it looks as its handlers left it, or
        was closed by them; its deadline is the one they asked for; and if the system agreed, a re-armed
        connection is registered for just what it asks for. */
    ghost predicate Came(c: HttpData, before: Before, revents: Mask, p: Play)
      reads this`fd2chan, this`kernel, c
    {
      var (view, action) := Connection.HandleEvents(before.view, revents, p.passes, p.writes);
      && c.Due() == before.DueAfter(action, p)
      && c.View() == (if action.Close? then view.(state := Disconnected) else view)
      && (if action.Close? then c.closes == 1 && !Registered(c)
          else if !action.Update? then Registered(c)
          else p.ok ==> Registered(c) && Held(c.fd) == {Interest(c.events, true)})
    }

    // ----- Expiry -----

    /** A connection that a timer has closed. */
    twostate predicate TimedOut(c: HttpData)
      reads this`fd2chan, c
    {
      c.View() == old(c.View()).(state := Disconnected) && c.timer == null && c.closes == 1 && !Registered(c)
    }

    /** Nothing has happened to the connection, its registration, or what the kernel holds for it. */
    twostate predicate Untouched(c: HttpData)
      reads this`fd2chan, this`kernel, c
    {
      && unchanged(c) && Registered(c) == old(Registered(c))
      && (Registered(c) ==> Held(c.fd) == old(Held(c.fd)))
    }

    /** What the kernel holds for a descriptor, if anything. */
    ghost function Held(fd: int): set<Interest>
      reads this`kernel
    {
      if fd in kernel then {kernel[fd]} else {}
    }

    /** top: some node of least deadline. */
    method Top() returns (node: TimerNode)
      requires queue != {}
      ensures node in queue && forall n :: n in queue ==> node.expiredTime <= n.expiredTime
    {
      SomeNodeIsLeast(queue);
      node :| node in queue && forall n :: n in queue ==> node.expiredTime <= n.expiredTime;
    }

    /** The destructor of a node that has left the queue, its last holder: the weak pointer to it goes, and
        the connection is closed if the node was not cleared. */
    method Destroy(node: TimerNode, ok: bool)
      modifies this`fd2chan, this`kernel, Holder(node)`timer, Holder(node)`state, Holder(node)`closes
      ensures node.req == null ==> fd2chan == old(fd2chan) && kernel == old(kernel)
      ensures node.req != null ==>
        && node.req.timer == null && node.req.state.Disconnected? && node.req.closes == old(node.req.closes) + 1
        && fd2chan == old(fd2chan) - {node.req.fd}
        && kernel == if ok then old(kernel) - {node.req.fd} else old(kernel)
    {
      var c := node.req;
      if c != null {
        c.timer := null;
        HandleClose(c, ok);
      }
    }

    ghost function Holder(node: TimerNode): set<HttpData>
      reads node
    {
      if node.req == null then {} else {node.req}
    }

    /** A node that was marked before: it is stale, and nothing happens but that it goes. */
    method Discard(node: TimerNode, ok: bool)
      requires Valid() && node in queue && node.deleted
      modifies this`queue, this`fd2chan, this`kernel
      ensures Valid() && queue == old(queue) - {node} && fd2chan == old(fd2chan) && kernel == old(kernel)
    {
      hide Settled;
      assert node.req == null;
      queue := queue - {node};
      Destroy(node, ok);
    }

    /** isValid on a node that is not marked, which is marked, popped and destroyed unless it is valid. */
    method Expire(node: TimerNode, now: nat, ok: bool) returns (valid: bool)
      requires Valid() && node in queue && !node.deleted
      modifies this`queue, this`fd2chan, this`kernel, node`deleted, Holder(node)
      ensures Valid()
      ensures valid <==> now < node.expiredTime
      ensures valid ==> !node.deleted && queue == old(queue) && forall c :: c in conns ==> Untouched(c)
      ensures node.req == old(node.req) && node.req != null && node.req in conns
      ensures !valid ==>
        && queue == old(queue) - {node}
        && forall c :: c in conns ==> if c == node.req then TimedOut(c) else Untouched(c)
    {
      valid := node.IsValid(now);
      if !valid {
        node.deleted := true;
        queue := queue - {node};
        hide Timers, Tables, Settled;
        Destroy(node, ok);
        TimersAfter(node);
        if node.req != null {
          ConnectionsAfter(node.req);
        }
      }
    }

    twostate lemma TimersAfter(node: TimerNode)
      requires old(Timers()) && old(node in queue) && queue == old(queue) - {node} && conns == old(conns)
      requires node.req == old(node.req) && (node.req != null ==> node.req.timer == null)
      requires forall n :: n in queue ==> unchanged(n)
      requires forall d :: d in conns && d != node.req ==> unchanged(d)
      ensures Timers()
    {
    }

    twostate lemma ConnectionsAfter(c: HttpData)
      requires conns == old(conns) && c in conns && old(c.timer) != null
      requires old(Tables()) && forall d :: d in conns ==> old(Settled(d))
      requires forall d :: d in conns && d != c ==> unchanged(d)
      requires c.timer == null && c.View() == old(c.View()).(state := Disconnected) && c.closes == old(c.closes) + 1
      requires fd2chan == old(fd2chan) - {c.fd} && (kernel == old(kernel) || kernel == old(kernel) - {c.fd})
      ensures Tables() && TimedOut(c) && forall d :: d in conns ==> Settled(d)
      ensures forall d :: d in conns && d != c ==> Untouched(d)
    {
      assert old(Settled(c));
      forall d | d in conns
        ensures Settled(d)
      {
        assert old(Settled(d));
      }
    }

    /** handleExpiredEvent, for any clock: `clock(i)` is its i-th reading.  The connections in `gone` are closed,
        in the order of their linked deadlines, each because the reading made for it had reached its deadline;
        nothing at all happens to the others, and the last reading had not reached any deadline that is left.
        With a clock that never steps back, that is exactly the connections whose deadline was reached. */
    method HandleExpired(clock: nat -> nat, oks: nat -> bool) returns (ghost gone: seq<HttpData>, readings: nat)
      requires Valid()
      modifies this`queue, this`fd2chan, this`kernel, conns, queue
      ensures Valid() && queue <= old(queue)
      ensures Swept(old(Armed()), gone, clock) && readings == Readings(old(Armed()), gone)
      ensures Armed() == old(Armed()) - SetOf(gone)
      ensures forall c :: c in conns ==> if c in gone then TimedOut(c) else Untouched(c)
      ensures Steady(clock) ==>
        Exact(old(Armed()), gone, clock) && Armed() == Unexpired(old(Armed()), clock, readings)
      ensures forall c :: c in conns ==> Spared(c, clock, readings) && Final(c)
      ensures NothingDue(clock, readings)
    {
      hide Tables, Settled, Spared, Final, Swept, Exact, Unexpired, InOrder, Behind, Reached;
      gone, readings := PopExpired(clock, oks);
      ArmedAfter(gone);
      ghost var armed := old(Armed());
      LeftIsBehind(armed, gone);
      SweptInOrder(armed, gone, clock, Armed(), readings);
      EitherWay(armed, gone, clock);
      OnlyTheDue(gone, clock, readings);
      if Steady(clock) {
        SteadyIsExact(armed, gone, clock);
        SteadySweep(armed, gone, clock);
      }
    }

    lemma LeftIsBehind(armed: map<HttpData, nat>, gone: seq<HttpData>)
      requires Timers() && Behind(armed, gone, queue)
      ensures forall i, c :: 0 <= i < |gone| && gone[i] in armed && c in Armed() ==> armed[gone[i]] <= Armed()[c]
    {
    }

    twostate lemma OnlyTheDue(new gone: seq<HttpData>, new clock: nat -> nat, new readings: nat)
      requires conns == old(conns) && forall c :: c in conns ==> if c in gone then TimedOut(c) else Untouched(c)
      requires old(Valid()) && forall c :: c in gone ==> c in old(Armed()) && Reached(clock, readings, old(Armed())[c])
      ensures forall c :: c in conns ==> Spared(c, clock, readings) && Final(c)
    {
      hide Timers, Tables, Reached;
      forall c | c in conns
        ensures Spared(c, clock, readings) && Final(c)
      {
        assert old(Settled(c));
      }
    }

    twostate lemma ArmedAfter(new gone: seq<HttpData>)
      requires conns == old(conns) && forall c :: c in conns ==> if c in gone then TimedOut(c) else Untouched(c)
      ensures Armed() == old(Armed()) - SetOf(gone)
    {
    }

    /** The loop of handleExpiredEvent. */
    method PopExpired(clock: nat -> nat, oks: nat -> bool) returns (ghost gone: seq<HttpData>, readings: nat)
      requires Valid()
      modifies this`queue, this`fd2chan, this`kernel, conns, queue
      ensures Valid() && queue <= old(queue)
      ensures forall c :: c in conns ==> if c in gone then TimedOut(c) else Untouched(c)
      ensures InOrder(old(Armed()), gone, clock) && Behind(old(Armed()), gone, queue)
      ensures readings == |gone| + if Armed() == map[] then 0 else 1
      ensures forall n :: n in queue ==> clock(|gone|) < n.expiredTime
    {
      hide Timers, Tables, Settled, InOrder, Behind;
      gone, readings := [], 0;
      ghost var armed := Armed();
      NoneGone(armed, clock, queue);
      var done, i := false, 0;
      while queue != {} && !done
        invariant Valid() && queue <= old(queue)
        invariant forall c :: c in conns ==> if c in gone then TimedOut(c) else Untouched(c)
        invariant InOrder(armed, gone, clock) && Behind(armed, gone, queue)
        invariant readings == |gone| + if done then 1 else 0
        invariant done ==> Armed() != map[] && forall n :: n in queue ==> clock(|gone|) < n.expiredTime
        decreases queue, !done
      {
        done, gone, readings := PopTop(clock, oks(i), armed, gone, readings);
        i := i + 1;
      }
      NothingArmed();
    }

    /** The body of the loop. */
    method PopTop(clock: nat -> nat, ok: bool, ghost armed: map<HttpData, nat>, ghost before: seq<HttpData>, readings: nat)
      returns (valid: bool, ghost gone: seq<HttpData>, readings': nat)
      requires Valid() && queue != {} && readings == |before|
      requires InOrder(armed, before, clock) && Behind(armed, before, queue)
      requires forall c :: c in conns && c.timer != null ==> c !in before && c in armed && armed[c] == c.timer.expiredTime
      modifies this`queue, this`fd2chan, this`kernel, conns, queue
      ensures Valid() && queue <= old(queue) && (!valid ==> queue < old(queue))
      ensures InOrder(armed, gone, clock) && Behind(armed, gone, queue) && before <= gone
      ensures readings' == |gone| + if valid then 1 else 0
      ensures valid ==> Armed() != map[] && forall n :: n in queue ==> clock(|gone|) < n.expiredTime
      ensures forall c :: c in conns ==> if c in gone && c !in before then TimedOut(c) else Untouched(c)
    {
      hide Timers, Tables, Settled, InOrder, Behind;
      var node := Top();
      if node.deleted {
        FewerBehind(armed, before, queue, node);
        Discard(node, ok);
        valid, gone, readings' := false, before, readings;
      } else {
        LiveNode(node);
        valid, gone := PopLive(node, clock(readings), ok, clock, armed, before);
        readings' := readings + 1;
      }
    }

    /** The top node is not marked: the clock is read for it. */
    method PopLive(node: TimerNode, now: nat, ok: bool, ghost clock: nat -> nat, ghost armed: map<HttpData, nat>, ghost before: seq<HttpData>)
      returns (valid: bool, ghost gone: seq<HttpData>)
      requires Valid() && node in queue && !node.deleted && forall n :: n in queue ==> node.expiredTime <= n.expiredTime
      requires InOrder(armed, before, clock) && Behind(armed, before, queue) && now == clock(|before|)
      requires node.req != null && node.req in armed && node.req !in before && armed[node.req] == node.expiredTime
      modifies this`queue, this`fd2chan, this`kernel, node`deleted, Holder(node)
      ensures Valid() && queue <= old(queue) && InOrder(armed, gone, clock) && Behind(armed, gone, queue)
      ensures valid ==> gone == before && Armed() != map[] && forall n :: n in queue ==> clock(|gone|) < n.expiredTime
      ensures !valid ==> gone == before + [old(node.req)] && node !in queue && TimedOut(old(node.req))
      ensures forall c :: c in conns && (valid || c != old(node.req)) ==> Untouched(c)
    {
      hide Timers, Tables, Settled, InOrder, Behind;
      gone := before;
      if now >= node.expiredTime {
        NextInOrder(armed, before, clock, queue, node, node.req);
      }
      valid := Expire(node, now, ok);
      if valid {
        LiveNode(node);
      } else {
        gone := before + [node.req];
      }
    }

    lemma NothingArmed()
      requires Timers()
      ensures queue == {} ==> Armed() == map[]
    {
      assert forall c :: c in conns && c.timer != null ==> c.timer in queue;
    }

    lemma LiveNode(node: TimerNode)
      requires Timers() && node in queue && !node.deleted
      ensures node.req != null && node.req in conns && node.req.timer == node && Armed() != map[]
    {
      assert node.req in Armed();
    }

    /** The last reading has reached no deadline that is left. */
    ghost predicate NothingDue(clock: nat -> nat, readings: nat)
      reads this`conns, conns`timer
    {
      forall c :: c in conns && c.timer != null ==> readings > 0 && clock(readings - 1) < c.timer.expiredTime
    }

    /** Nothing has happened to the connection, or its deadline was reached and it was closed. */
    twostate predicate Spared(c: HttpData, clock: nat -> nat, readings: nat)
      reads this`fd2chan, this`kernel, c
    {
      || Untouched(c)
      || (old(c.timer) != null && TimedOut(c) && Reached(clock, readings, old(c.timer).expiredTime))
    }

    // ----- Whole runs -----

    /** The descriptors that connections of this loop use: those in the table, and those of connections that a
        timer node still holds. */
    function TakenFds(): set<int>
      reads this`fd2chan, this`queue, queue`req
    {
      fd2chan.Keys + set n | n in queue && n.req != null :: n.req.fd
    }

    /** A connection as newEvent leaves it: armed with the default timeout and, if the system agreed, registered
        for one event. */
    ghost predicate Begun(c: HttpData, a: Arrival)
      reads this`fd2chan, this`kernel, c
    {
      && c.View() == Conn(false, Connected, false, "", "", DEFAULT_EVENT, "", "") && c.fd == a.fd && c.closes == 0
      && c.timer != null && c.timer.expiredTime == a.now + 2000
      && (a.ok ==> Registered(c) && Held(c.fd) == {Interest({In, Et, OneShot}, true)})
    }

    /** The functors that handNewConn queues: newEvent of each accepted connection, in order.  The system does
        not hand out a descriptor that is still open. */
    method TakeOn(accepted: seq<Arrival>) returns (begun: seq<HttpData>)
      requires Valid()
      modifies this
      ensures Valid() && fresh(begun) && fresh(queue - old(queue))
      ensures conns == old(conns) + SetOf(begun)
      ensures forall c :: c in old(conns) ==> Untouched(c)
      ensures AllBegun(begun, Admitted(accepted, old(TakenFds())))
      ensures forall i, j :: 0 <= i < j < |begun| ==> begun[i].fd != begun[j].fd
      ensures forall c :: c in begun ==> c.fd !in old(TakenFds()) && exists a :: a in accepted && Begun(c, a)
      ensures forall a :: a in accepted && a.fd !in old(TakenFds()) ==> exists c :: c in begun && c.fd == a.fd
    {
      hide Settled, Timers, Tables, TakenFds, AllBegun, Admitted;
      begun := [];
      ghost var admitted, all := [], Admitted(accepted, TakenFds());
      assert accepted[0..] == accepted;
      AdmittedNone(begun, accepted, TakenFds());
      for i := 0 to |accepted|
        invariant Valid() && fresh(begun) && fresh(queue - old(queue))
        invariant conns == old(conns) + SetOf(begun)
        invariant forall c :: c in old(conns) ==> Untouched(c)
        invariant all == admitted + Admitted(accepted[i..], TakenFds()) && AllBegun(begun, admitted)
      {
        var a := accepted[i];
        AdmittedStep(accepted, i, TakenFds());
        if a.fd !in TakenFds() {
          var c := new HttpData(a.fd);
          Start(c, a, begun, admitted);
          begun := begun + [c];
          admitted := admitted + [a];
        }
      }
      assert admitted + [] == admitted;
      WhoBegun(begun, accepted, old(TakenFds()));
    }

    lemma WhoBegun(begun: seq<HttpData>, accepted: seq<Arrival>, taken: set<int>)
      requires AllBegun(begun, Admitted(accepted, taken))
      ensures forall i, j :: 0 <= i < j < |begun| ==> begun[i].fd != begun[j].fd
      ensures forall c :: c in begun ==> c.fd !in taken && exists a :: a in accepted && Begun(c, a)
      ensures forall a :: a in accepted && a.fd !in taken ==> exists c :: c in begun && c.fd == a.fd
    {
      hide Admitted;
      var admitted := Admitted(accepted, taken);
      AdmittedAreFree(accepted, taken);
      assert forall k :: 0 <= k < |begun| ==> begun[k].fd == admitted[k].fd && admitted[k] in accepted;
      forall a | a in accepted && a.fd !in taken
        ensures exists c :: c in begun && c.fd == a.fd
      {
        FreeAreAdmitted(accepted, taken, a);
        var k :| 0 <= k < |admitted| && admitted[k].fd == a.fd;
        assert begun[k] in begun;
      }
    }

    lemma AdmittedNone(begun: seq<HttpData>, accepted: seq<Arrival>, taken: set<int>)
      ensures (begun == [] ==> AllBegun(begun, [])) && forall fds :: Admitted(accepted[|accepted|..], fds) == []
    {
    }

    ghost predicate AllBegun(begun: seq<HttpData>, admitted: seq<Arrival>)
      reads this`fd2chan, this`kernel, begun
    {
      |begun| == |admitted| && forall k :: 0 <= k < |begun| ==> Begun(begun[k], admitted[k])
    }

    /** newEvent with what it means for the other connections: it does not touch them. */
    method Start(c: HttpData, a: Arrival, ghost begun: seq<HttpData>, ghost admitted: seq<Arrival>)
      requires Valid() && c !in conns && c.New() && c.fd == a.fd && a.fd !in TakenFds()
      requires (forall b :: b in begun ==> b in conns) && AllBegun(begun, admitted)
      modifies this, c
      ensures Valid() && conns == old(conns) + {c} && fresh(queue - old(queue))
      ensures TakenFds() == old(TakenFds()) + {c.fd}
      ensures AllBegun(begun + [c], admitted + [a])
      ensures forall d :: d in old(conns) ==> Untouched(d)
    {
      hide Settled, Timers, Tables, TakenFds;
      FreeFd(a.fd);
      NewEvent(c, a.now, a.ok);
      assert c in Armed();
      OneMoreTaken(c);
      forall d | d in old(conns)
        ensures Untouched(d)
      {
        assert old(InUse(d)) ==> d.fd != c.fd;
      }
      assert forall k :: 0 <= k < |begun| ==> Untouched(begun[k]) && old(Begun(begun[k], admitted[k]));
    }

    /** A descriptor counts as taken if and only if some connection still uses it. */
    lemma FreeFd(fd: int)
      requires Timers() && Tables()
      ensures fd in TakenFds() <==> exists d :: d in conns && d.fd == fd && InUse(d)
    {
      if fd in TakenFds() {
        if fd in fd2chan {
          assert InUse(fd2chan[fd]);
        } else {
          var n :| n in queue && n.req != null && n.req.fd == fd;
          assert InUse(n.req);
        }
      }
    }

    twostate lemma OneMoreTaken(c: HttpData)
      requires c.timer != null && c.timer.req == c && queue == old(queue) + {c.timer} && c.timer !in old(queue)
      requires forall n :: n in old(queue) ==> n.req == old(n.req)
      requires fd2chan == old(fd2chan)[c.fd := c] || fd2chan == old(fd2chan) - {c.fd}
      ensures TakenFds() == old(TakenFds()) + {c.fd}
    {
    }

    twostate predicate Final(c: HttpData)
      reads c
    {
      old(c.state.Disconnected?) ==> unchanged(c)
    }

    /** poll.  `attempts` are the returns of epoll_wait; if none of them will do, the loop is still waiting. */
    method Poll(attempts: seq<Attempt>) returns (batch: seq<(HttpData, Mask)>, returned: bool)
      requires Valid()
      modifies this`kernel, conns`events
      ensures Valid() && Ready(batch)
      ensures Polling.Poll(attempts, old(kernel), fd2chan) == Polled(batch, returned, kernel)
      ensures forall b :: b in batch ==> b.0 in conns && b.0.View() == old(b.0.View()).(events := {})
      ensures forall c :: c in conns && !Among(c, batch) ==> Untouched(c)
    {
      hide Settled, Timers, Tables, Ready, Batch, Polling.Wait;
      batch, returned := [], false;
      var i := 0;
      NobodyReady();
      assert attempts[0..] == attempts;
      while i < |attempts| && !returned
        invariant 0 <= i <= |attempts| && Valid() && Ready(batch)
        invariant Polling.Poll(attempts, old(kernel), fd2chan) ==
          if returned then Polled(batch, true, kernel) else Polling.Poll(attempts[i..], kernel, fd2chan)
        invariant !returned ==> batch == []
        invariant forall b :: b in batch ==> b.0 in conns && b.0.View() == old(b.0.View()).(events := {})
        invariant forall c :: c in conns && !Among(c, batch) ==> Untouched(c)
      {
        assert attempts[i..][1..] == attempts[i + 1..];
        batch := Collect(attempts[i].happenings);
        returned := batch != [] || attempts[i].own;
        i := i + 1;
      }
    }

    lemma NobodyReady()
      ensures Ready([])
    {
    }

    /** One return of epoll_wait: the connections to handle, and nothing else has changed. */
    method Collect(happenings: seq<Report>) returns (batch: seq<(HttpData, Mask)>)
      requires Valid()
      modifies this`kernel, conns`events
      ensures Valid() && Ready(batch)
      ensures var (reports, k) := Polling.Wait(old(kernel), happenings);
        batch == Batch(reports, fd2chan) && kernel == k
      ensures forall b :: b in batch ==> b.0 in conns && b.0.View() == old(b.0.View()).(events := {})
      ensures forall c :: c in conns && !Among(c, batch) ==> Untouched(c)
    {
      hide Timers, Tables, Accounted, MaskAgrees, Batch, Polling.Wait, Deliverable;
      OnlyAllowed(kernel, happenings);
      var reports := Wait(happenings);
      batch := GetEvents(reports);
      BatchCovers(reports, fd2chan);
      forall c | c in conns && !Among(c, batch) && Registered(c)
        ensures forall r :: r in reports ==> r.0 != c.fd
      {
        forall r | r in reports
          ensures r.0 != c.fd
        {
          assert r.0 == c.fd ==> (c, r.1) in batch;
        }
      }
    }

    /** The connections handled have events that happened in one attempt; poll has returned if and only if there
        are any, or one of the loop's own channels had an event; and unless it has, nothing is taken on and no
        clock is read. */
    ghost predicate Caused(log: Log, t: Turn) {
      && Happened(log.batch, t.attempts)
      && (log.returned <==> log.batch != [] || exists a :: a in t.attempts && a.own)
      && (!log.returned ==> log.begun == [] && log.readings == 0)
    }

    ghost predicate Happened(batch: seq<(HttpData, Mask)>, attempts: seq<Attempt>) {
      batch == [] || exists a :: a in attempts && forall b :: b in batch ==> (b.0.fd, b.1) in a.happenings
    }

    lemma Heard(attempts: seq<Attempt>)
      requires Tables()
      ensures var p := Polling.Poll(attempts, kernel, fd2chan);
        && Happened(p.batch, attempts)
        && (p.returned <==> p.batch != [] || exists a :: a in attempts && a.own)
        && forall b :: b in p.batch ==> b.0.fd in kernel && kernel[b.0.fd].armed
    {
      hide Polling.Poll;
      PollHasACause(attempts, kernel, fd2chan);
      var p := Polling.Poll(attempts, kernel, fd2chan);
      if p.batch != [] {
        var a :| a in attempts && BelongsTo(p.batch, a.happenings, fd2chan);
        assert forall b :: b in p.batch ==> (b.0.fd, b.1) in a.happenings;
      }
    }

    /** A draining connection whose one-shot registration is spent. */
    ghost predicate Stuck(c: HttpData)
      reads this`kernel, this`fd2chan, c
    {
      c.state.Disconnecting? && Registered(c) && c.fd in kernel && !kernel[c.fd].armed
    }

    twostate lemma StaysStuck()
      ensures forall c :: c in old(conns) && old(Stuck(c)) && Untouched(c) ==> Stuck(c)
    {
      forall c | c in old(conns) && old(Stuck(c)) && Untouched(c)
        ensures Stuck(c)
      {
        assert old(kernel)[c.fd] in Held(c.fd);
      }
    }

    lemma StuckIsOut(attempts: seq<Attempt>)
      requires Valid()
      ensures forall c :: c in conns && Stuck(c) ==> c.timer == null && !Among(c, Polling.Poll(attempts, kernel, fd2chan).batch)
    {
      hide Polling.Poll, Timers;
      Heard(attempts);
      forall c | c in conns && Stuck(c)
        ensures c.timer == null
      {
        assert Settled(c);
      }
    }

    /** One iteration of EventLoop::loop: poll, handle, run the pending functors, expire.  At its end,
        - a connection that an event was delivered to is as its handlers left it, or was closed since, because
          a reading of the clock had reached the deadline they gave it;
        - any other one was not touched, or was closed because a reading had reached its deadline;
        - a new one is as newEvent leaves it, or was closed for the same reason;
        - no deadline that is left was reached by the last reading; and a closed connection stays as it was. */
    method Round(t: Turn) returns (log: Log, ghost admitted: seq<Arrival>)
      requires Valid()
      modifies this, conns, queue
      ensures Valid() && fresh(log.begun) && fresh(queue - old(queue)) && conns == old(conns) + SetOf(log.begun)
      ensures var p := Polling.Poll(t.attempts, old(kernel), old(fd2chan)); log.batch == p.batch && log.returned == p.returned
      ensures Caused(log, t)
      ensures !log.returned ==> conns == old(conns) && forall c :: c in conns ==> Untouched(c)
      ensures forall i :: 0 <= i < |log.batch| ==>
        var (c, revents) := log.batch[i];
        c in old(conns) && Fared(c, old(c.Now()), revents, t.plays(i), t.clock, log.readings)
      ensures forall c :: c in old(conns) && !Among(c, log.batch) ==> Spared(c, t.clock, log.readings)
      ensures forall c :: c in old(conns) ==> Final(c)
      ensures AllBegan(log.begun, admitted, t.clock, log.readings)
      ensures log.returned ==> exists fds :: fds <= old(TakenFds()) && admitted == Admitted(t.accepted, fds)
      ensures forall c :: c in old(conns) && old(Stuck(c)) ==> Untouched(c) && Stuck(c)
      ensures log.returned ==> NothingDue(t.clock, log.readings)
    {
      hide Settled, Timers, Tables, Came, Fared, Ready, Polling.Poll, AllBegan, Admitted, TakenFds, Stuck;
      Heard(t.attempts);
      StuckIsOut(t.attempts);
      ghost var views := map c | c in conns :: c.Now();
      var batch, returned := Deliver(t.attempts, t.plays);
      if !returned {
        log, admitted := Log(false, [], [], 0), [];
        NoneBegan(t.clock);
        StaysStuck();
        return;
      }
      ghost var befores := seq(|batch|, i requires 0 <= i < |batch| && batch[i].0 in views => views[batch[i].0]);
      var begun, readings;
      begun, readings, admitted := Finish(t, batch, befores);
      log := Log(true, batch, begun, readings);
      StaysStuck();
    }

    /** poll, and the handlers of what it returns. */
    method Deliver(attempts: seq<Attempt>, plays: nat -> Play) returns (batch: seq<(HttpData, Mask)>, returned: bool)
      requires Valid()
      modifies this, conns, queue
      ensures Valid() && conns == old(conns) && fresh(queue - old(queue))
      ensures var p := Polling.Poll(attempts, old(kernel), old(fd2chan)); batch == p.batch && returned == p.returned
      ensures TakenFds() <= old(TakenFds())
      ensures forall i :: 0 <= i < |batch| ==> batch[i].0 in conns && Came(batch[i].0, old(batch[i].0.Now()), batch[i].1, plays(i))
      ensures forall c :: c in conns && !Among(c, batch) ==> Untouched(c)
      ensures forall c :: c in conns ==> Final(c)
    {
      hide Settled, Timers, Tables, Among, Came, Polling.Poll, TakenFds;
      batch, returned := Poll(attempts);
      NobodyClosed(batch);
      HandleAll(batch, plays);
      NothingTaken();
      forall i | 0 <= i < |batch|
        ensures Came(batch[i].0, old(batch[i].0.Now()), batch[i].1, plays(i))
      {
        assert batch[i] in batch;
        CameWithoutEvents(batch[i].0, old(batch[i].0.Now()), batch[i].1, plays(i));
      }
    }

    lemma NobodyClosed(batch: seq<(HttpData, Mask)>)
      requires Valid() && Ready(batch)
      ensures forall c :: Among(c, batch) ==> Registered(c)
      ensures forall c :: c in conns && c.state.Disconnected? ==> !Among(c, batch)
    {
      hide Timers, Tables, Deliverable, Accounted;
      forall c | c in conns && c.state.Disconnected?
        ensures !Among(c, batch)
      {
        assert Settled(c);
      }
    }

    /** Whoever uses a descriptor and was registered, or has not been touched, used it before. */
    twostate lemma NothingTaken()
      requires Timers() && Tables() && conns == old(conns)
      requires forall c :: c in conns ==> old(Registered(c)) || Untouched(c)
      requires old(Timers())
      ensures TakenFds() <= old(TakenFds())
    {
      forall fd | fd in TakenFds()
        ensures fd in old(TakenFds())
      {
        if fd in fd2chan {
          assert Registered(fd2chan[fd]);
        } else {
          var n :| n in queue && n.req != null && n.req.fd == fd;
          var c := n.req;
          assert c in conns && c.timer == n;
          if !old(Registered(c)) {
            assert old(c.timer) == n && n in old(queue);
          }
        }
      }
    }

    lemma CameWithoutEvents(c: HttpData, before: Before, revents: Mask, p: Play)
      requires Came(c, before.(view := before.view.(events := {})), revents, p)
      ensures Came(c, before, revents, p)
    {
      hide Connection.Dispatch, Connection.HandleConn;
      assert before.view.(events := {}).(events := {}) == before.view.(events := {});
    }

    /** What has become of a connection by the end of the iteration in which an event was delivered to it. */
    ghost predicate Fared(c: HttpData, before: Before, revents: Mask, p: Play, clock: nat -> nat, readings: nat)
      reads this`fd2chan, this`kernel, c
    {
      || Came(c, before, revents, p)
      || var (view, action) := Connection.HandleEvents(before.view, revents, p.passes, p.writes);
         && (exists d :: d in before.DueAfter(action, p) && Reached(clock, readings, d))
         && c.View() == view.(state := Disconnected) && c.closes == 1 && c.timer == null && !Registered(c)
    }

    /** The same for a connection that was taken on in it. */
    ghost predicate Began(c: HttpData, a: Arrival, clock: nat -> nat, readings: nat)
      reads this`fd2chan, this`kernel, c
    {
      || Begun(c, a)
      || (&& Reached(clock, readings, a.now + 2000)
          && c.View() == Conn(false, Disconnected, false, "", "", DEFAULT_EVENT, "", "") && c.fd == a.fd
          && c.closes == 1 && c.timer == null && !Registered(c))
    }

    ghost predicate AllBegan(begun: seq<HttpData>, admitted: seq<Arrival>, clock: nat -> nat, readings: nat)
      reads this`fd2chan, this`kernel, begun
    {
      |begun| == |admitted| && forall k :: 0 <= k < |begun| ==> Began(begun[k], admitted[k], clock, readings)
    }

    lemma NoneBegan(clock: nat -> nat)
      ensures AllBegan([], [], clock, 0)
    {
    }

    /** The rest of an iteration: the pending functors, then the timers. */
    method Finish(t: Turn, batch: seq<(HttpData, Mask)>, ghost befores: seq<Before>)
      returns (begun: seq<HttpData>, readings: nat, ghost admitted: seq<Arrival>)
      requires Valid() && |befores| == |batch| && forall b :: b in batch ==> b.0 in conns
      requires forall i :: 0 <= i < |batch| ==> Came(batch[i].0, befores[i], batch[i].1, t.plays(i))
      modifies this, conns, queue
      ensures Valid() && fresh(begun) && fresh(queue - old(queue)) && conns == old(conns) + SetOf(begun)
      ensures forall i :: 0 <= i < |batch| ==> Fared(batch[i].0, befores[i], batch[i].1, t.plays(i), t.clock, readings)
      ensures forall c :: c in old(conns) ==> Final(c) && Spared(c, t.clock, readings)
      ensures admitted == Admitted(t.accepted, old(TakenFds())) && AllBegan(begun, admitted, t.clock, readings)
      ensures NothingDue(t.clock, readings)
    {
      hide Settled, Timers, Tables, Came, Fared, TakenFds, Admitted, Swept, Exact, Unexpired, AllBegun, AllBegan, Reached;
      begun := TakeOn(t.accepted);
      admitted := Admitted(t.accepted, old(TakenFds()));
      readings := SweepAfter(t, begun, admitted);
      forall c | c in old(conns)
        ensures Spared(c, t.clock, readings)
      {
        assert c in conns;
      }
      forall b | b in batch
        ensures Spared(b.0, t.clock, readings)
      {
        assert b.0 in old(conns);
      }
      FaredOn(batch, befores, t.plays, t.clock, readings);
    }

    /** handleExpired, with what it means for the connections just taken on. */
    method SweepAfter(t: Turn, ghost begun: seq<HttpData>, ghost admitted: seq<Arrival>) returns (readings: nat)
      requires Valid() && AllBegun(begun, admitted) && forall b :: b in begun ==> b in conns
      modifies this`queue, this`fd2chan, this`kernel, conns, queue
      ensures Valid() && queue <= old(queue)
      ensures forall c :: c in conns ==> Final(c) && Spared(c, t.clock, readings)
      ensures AllBegan(begun, admitted, t.clock, readings)
      ensures NothingDue(t.clock, readings)
    {
      hide Settled, Timers, Tables, Swept, Exact, Unexpired, Reached;
      ghost var gone;
      gone, readings := HandleExpired(t.clock, t.oks);
      assert forall k :: 0 <= k < |begun| ==> Spared(begun[k], t.clock, readings) && old(Begun(begun[k], admitted[k]));
    }

    twostate lemma FaredOn(batch: seq<(HttpData, Mask)>, new befores: seq<Before>, new plays: nat -> Play, new clock: nat -> nat, new readings: nat)
      requires |batch| == |befores| && forall b :: b in batch ==> Spared(b.0, clock, readings)
      requires forall i :: 0 <= i < |batch| ==> old(Came(batch[i].0, befores[i], batch[i].1, plays(i)))
      ensures forall i :: 0 <= i < |batch| ==> Fared(batch[i].0, befores[i], batch[i].1, plays(i), clock, readings)
    {
      hide Connection.HandleEvents, Reached;
      forall i | 0 <= i < |batch|
        ensures Fared(batch[i].0, befores[i], batch[i].1, plays(i), clock, readings)
      {
        var c := batch[i].0;
        assert batch[i] in batch;
        if !Untouched(c) {
          assert old(c.timer).expiredTime in old(c.Due());
        }
      }
    }

    /** Any number of iterations, whatever the peers, the system and the clock do.  A connection that no event
        is delivered to in the whole run is as it was, or was closed because a reading of the clock had reached
        the deadline it had. */
    method Run(turns: seq<Turn>) returns (logs: seq<Log>)
      requires Valid()
      modifies this, conns, queue
      ensures Valid() && old(conns) <= conns && |logs| == |turns|
      ensures forall c :: c in old(conns) ==> Final(c)
      ensures forall i :: 0 <= i < |logs| ==> Caused(logs[i], turns[i])
      ensures forall c :: c in old(conns) && (Unheard(c, turns) || Undisturbed(c, logs)) ==> SparedBy(c, turns, logs)
      ensures forall c :: c in old(conns) && old(Stuck(c)) ==> Untouched(c) && Stuck(c)
      ensures turns != [] && logs[|logs| - 1].returned ==>
        NothingDue(turns[|turns| - 1].clock, logs[|logs| - 1].readings)
    {
      hide Settled, Timers, Tables, Reached, Caused, Unheard, NothingDue;
      logs := [];
      for i := 0 to |turns|
        invariant Valid() && old(conns) <= conns && fresh(conns - old(conns)) && fresh(queue - old(queue)) && |logs| == i
        invariant forall c :: c in old(conns) ==> Final(c)
        invariant forall k :: 0 <= k < i ==> Caused(logs[k], turns[k])
        invariant forall c :: c in old(conns) && Undisturbed(c, logs) ==> SparedBy(c, turns, logs)
        invariant forall c :: c in old(conns) && old(Stuck(c)) ==> Untouched(c) && Stuck(c)
        invariant i > 0 && logs[i - 1].returned ==> NothingDue(turns[i - 1].clock, logs[i - 1].readings)
      {
        ghost var before := logs;
        var log := Step(turns[i]);
        logs := logs + [log];
        forall c | c in old(conns) && Undisturbed(c, logs)
          ensures SparedBy(c, turns, logs)
        {
          assert forall k :: 0 <= k < i ==> before[k] == logs[k];
          assert !Among(c, logs[i].batch);
        }
      }
      UnheardIsUndisturbed(turns, logs);
    }

    lemma UnheardIsUndisturbed(turns: seq<Turn>, logs: seq<Log>)
      requires |logs| == |turns| && forall i :: 0 <= i < |logs| ==> Caused(logs[i], turns[i])
      ensures forall c :: Unheard(c, turns) ==> Undisturbed(c, logs)
    {
      forall c, i | Unheard(c, turns) && 0 <= i < |logs|
        ensures !Among(c, logs[i].batch)
      {
        var batch := logs[i].batch;
        assert turns[i] in turns;
        if batch != [] {
          var a :| a in turns[i].attempts && forall b :: b in batch ==> (b.0.fd, b.1) in a.happenings;
          forall b | b in batch
            ensures b.0 != c
          {
            var h := (b.0.fd, b.1);
            assert h in a.happenings;
          }
        }
      }
    }

    /** An iteration, as far as a whole run goes. */
    method Step(t: Turn) returns (log: Log)
      requires Valid()
      modifies this, conns, queue
      ensures Valid() && old(conns) <= conns && fresh(conns - old(conns)) && fresh(queue - old(queue))
      ensures forall c :: c in old(conns) ==> Final(c) && (!Among(c, log.batch) ==> Spared(c, t.clock, log.readings))
      ensures Caused(log, t) && forall c :: c in old(conns) && old(Stuck(c)) ==> Untouched(c) && Stuck(c)
      ensures log.returned ==> NothingDue(t.clock, log.readings)
    {
      hide Settled, Timers, Tables, Fared, AllBegan, Polling.Poll, Reached, Spared, Final, Caused, Stuck, Admitted;
      ghost var admitted;
      log, admitted := Round(t);
    }

    /** Nothing happens to its descriptor in the whole run. */
    ghost predicate Unheard(c: HttpData, turns: seq<Turn>) {
      forall t, a, h :: t in turns && a in t.attempts && h in a.happenings ==> h.0 != c.fd
    }

    ghost predicate Undisturbed(c: HttpData, logs: seq<Log>) {
      forall i :: 0 <= i < |logs| ==> !Among(c, logs[i].batch)
    }

    twostate predicate SparedBy(c: HttpData, new turns: seq<Turn>, new logs: seq<Log>)
      requires |logs| <= |turns|
      reads this`fd2chan, this`kernel, c
    {
      || Untouched(c)
      || (&& old(c.timer) != null && TimedOut(c)
          && exists i :: 0 <= i < |logs| && Reached(turns[i].clock, logs[i].readings, old(c.timer).expiredTime))
    }

    /** What every run keeps, spelled out for one connection. */
    lemma BetweenRounds(c: HttpData)
      requires Valid() && c in conns
      ensures c.closes == (if c.state.Disconnected? then 1 else 0)
      ensures c.state.Connected? <==> exists n :: n in queue && n.req == c
      ensures forall n :: n in queue && n.req == c ==> n == c.timer && !n.deleted
      ensures c.state.Disconnecting? <==> c.timer == null && !c.state.Disconnected?
      ensures c.state.Disconnecting? ==> Registered(c)
      ensures c.state.Disconnected? ==> !Registered(c)
      ensures !c.error ==> c.sent + c.outBuffer == c.produced
      ensures c.error ==> c.state.Disconnected?
      ensures Registered(c) ==> c.fd in kernel && kernel[c.fd].mask == c.lastEvents
      ensures Registered(c) && c.state.Connected? && c.outBuffer != [] ==> kernel[c.fd] == Interest(WRITING, true)
    {
      assert Settled(c);
    }

    /** Input is heard of if and only if the connection is registered for reading and that has not been spent. */
    lemma HearsInput(c: HttpData)
      requires Valid() && c in conns && Registered(c)
      ensures (exists revents :: In in revents && Reportable(kernel, [(c.fd, revents)])) <==>
        kernel[c.fd].armed && c.lastEvents != WRITING
    {
      assert Settled(c);
      if kernel[c.fd].armed && c.lastEvents != WRITING {
        assert In in {In} && Reportable(kernel, [(c.fd, {In})]);
      }
    }

    /** Nothing is ever reported for a draining connection if and only if its one-shot registration is spent.
        No timer will close it either, so then it stays as it is for good; see Run. */
    lemma DrainingIsStuck(c: HttpData)
      requires Valid() && c in conns && c.state.Disconnecting?
      ensures Stuck(c) <==> forall revents :: !Reportable(kernel, [(c.fd, revents)])
    {
      assert Settled(c);
      if kernel[c.fd].armed {
        assert Hup in {Hup} && Reportable(kernel, [(c.fd, {Hup})]);
      }
    }

    /** Draining was never registered for: such a connection hears that it can write exactly if it was
        already waiting for that before. */
    lemma DrainingHearsOut(c: HttpData)
      requires Valid() && c in conns && c.state.Disconnecting?
      ensures (exists revents :: Out in revents && Reportable(kernel, [(c.fd, revents)])) <==> c.lastEvents == WRITING
    {
      assert Settled(c);
      var reports := [(c.fd, {Out})];
      if c.lastEvents == WRITING {
        assert Out in {Out} && Reportable(kernel, reports);
      }
    }
  }

  /** Closed in the order of the deadlines, each reached by its own reading. */
  ghost predicate InOrder(armed: map<HttpData, nat>, gone: seq<HttpData>, clock: nat -> nat) {
    && (forall i :: 0 <= i < |gone| ==> gone[i] in armed && armed[gone[i]] <= clock(i))
    && (forall i, j :: 0 <= i < j < |gone| ==> gone[i] != gone[j] && armed[gone[i]] <= armed[gone[j]])
  }

  /** No node that is left comes before a deadline that was closed. */
  ghost predicate Behind(armed: map<HttpData, nat>, gone: seq<HttpData>, queue: set<TimerNode>) {
    forall i, n :: 0 <= i < |gone| && gone[i] in armed && n in queue ==> armed[gone[i]] <= n.expiredTime
  }

  lemma NoneGone(armed: map<HttpData, nat>, clock: nat -> nat, queue: set<TimerNode>)
    ensures InOrder(armed, [], clock) && Behind(armed, [], queue)
  {
  }

  lemma FewerBehind(armed: map<HttpData, nat>, gone: seq<HttpData>, queue: set<TimerNode>, node: TimerNode)
    requires Behind(armed, gone, queue)
    ensures Behind(armed, gone, queue - {node})
  {
  }

  lemma NextInOrder(armed: map<HttpData, nat>, gone: seq<HttpData>, clock: nat -> nat, queue: set<TimerNode>, node: TimerNode, c: HttpData)
    requires InOrder(armed, gone, clock) && Behind(armed, gone, queue) && node in queue
    requires forall n :: n in queue ==> node.expiredTime <= n.expiredTime
    requires c in armed && c !in gone && armed[c] == node.expiredTime <= clock(|gone|)
    ensures InOrder(armed, gone + [c], clock) && Behind(armed, gone + [c], queue - {node})
  {
  }

  lemma SweptInOrder(armed: map<HttpData, nat>, gone: seq<HttpData>, clock: nat -> nat, left: map<HttpData, nat>, readings: nat)
    requires InOrder(armed, gone, clock) && left == armed - SetOf(gone)
    requires forall i, c :: 0 <= i < |gone| && gone[i] in armed && c in left ==> armed[gone[i]] <= left[c]
    requires forall c :: c in left ==> clock(|gone|) < left[c]
    requires readings == |gone| + if left == map[] then 0 else 1
    ensures Swept(armed, gone, clock) && readings == Readings(armed, gone)
  {
    assert forall c :: c in armed && c !in gone ==> c in left && left[c] == armed[c];
    assert left == map[] <==> forall c :: c in armed ==> c in gone;
  }

  function SetOf<T>(s: seq<T>): set<T> { set x | x in s }

  lemma {:induction false} SomeNodeIsLeast(queue: set<TimerNode>)
    requires queue != {}
    ensures exists node :: node in queue && forall n :: n in queue ==> node.expiredTime <= n.expiredTime
  {
    var some :| some in queue;
    if queue != {some} {
      var rest := queue - {some};
      SomeNodeIsLeast(rest);
      var least :| least in rest && forall n :: n in rest ==> least.expiredTime <= n.expiredTime;
      var node := if some.expiredTime <= least.expiredTime then some else least;
      assert node in queue && forall n :: n in queue ==> node.expiredTime <= n.expiredTime;
    }
  }

  lemma AccountedAnyway(c: Conn, events: Mask)
    ensures Accounted(c.(events := events)) == Accounted(c)
  {
  }

  lemma SetAgrees<K, V>(m: map<K, V>, n: map<K, V>, k: K, v: V)
    requires m - {k} == n - {k}
    ensures m[k := v] == n[k := v]
  {
    assert (m - {k})[k := v] == m[k := v] && (n - {k})[k := v] == n[k := v];
  }
}
