/**
  What one delivered event does to one connection: the dispatch in Channel, and HttpData's read,
  write and connection handlers, as a function of what the system and the request parser do.
 */
module Connection {
  import opened PartialIo

  /** The epoll flags; a mask is the set of its flags. */
  datatype Flag = In | Pri | Out | Err | Hup | RdHup | OneShot | Et

  type Mask = set<Flag>

  const DEFAULT_EVENT: Mask := {In, Et, OneShot}
  const READING: Mask := {In, Et}
  const WRITING: Mask := {Out, Et}

  const DEFAULT_EXPIRED_TIME: nat := 2000
  const DEFAULT_KEEP_ALIVE_TIME: nat := 5 * 60 * 1000

  /** What the kernel may report for a descriptor registered with this mask. */
  predicate Deliverable(mask: Mask, revents: Mask) {
    && revents != {}
    && forall f :: f in revents ==> f == Err || f == Hup || (f in mask && f != Et && f != OneShot)
  }

  datatype ConnectionState = Connected | Disconnecting | Disconnected

  /** The part of an HttpData and its Channel that the handlers work on.  `sent` and `produced` are
      histories: the bytes that went out, and the responses that were produced. */
  datatype Conn = Conn(
    error: bool,
    state: ConnectionState,
    keepAlive: bool,
    inBuffer: string,
    outBuffer: string,
    events: Mask,
    sent: string,
    produced: string)

  /** What the request parser makes of the input, and what it leaves of it: it needs more, or it answers, or it
      rejects, leaving anything in the output buffer and writing an error page itself. */
  datatype Parsed =
    | Waiting(rest: string)
    | Answered(response: string, keepAlive: bool, rest: string)
    | Rejected(outBuffer: string, page: string, rest: string)

  /** One pass of handleRead: what there is to read and how the reads go, the error page written if they fail,
      what the parser does, and how the write goes. */
  datatype Pass = Pass(incoming: string, calls: seq<Syscall>, page: string, parsed: Parsed, writes: seq<Syscall>)

  // ----- The handlers as functions -----

  /** handleWrite */
  function HandleWrite(c: Conn, script: seq<Syscall>): Conn {
    if c.error || c.state.Disconnected? then c
    else
      var t := Writes(|c.outBuffer|, script, true);
      var d := if t.stop.Broken? then c.(sent := c.sent + c.outBuffer[..t.n], events := {}, error := true)
               else c.(sent := c.sent + c.outBuffer[..t.n], outBuffer := c.outBuffer[t.n..]);
      if d.outBuffer != [] then d.(events := d.events + {Out}) else d
  }

  /** The part of a pass before the write. */
  function ReadAndParse(c: Conn, p: Pass): Conn {
    var t := Reads(|p.incoming|, p.calls);
    if c.state.Disconnecting? then c.(inBuffer := "")
    else
      var d := c.(inBuffer := c.inBuffer + p.incoming[..t.n]);
      if t.stop.Broken? then d.(error := true, sent := d.sent + p.page)
      else if t == Transfer(0, EndOfStream) then d.(state := Disconnecting)
      else
        var e := d.(state := if t.stop.EndOfStream? then Disconnecting else d.state, inBuffer := p.parsed.rest);
        match p.parsed
        case Waiting(_) => e
        case Answered(response, keepAlive, _) =>
          e.(outBuffer := e.outBuffer + response, produced := e.produced + response, keepAlive := e.keepAlive || keepAlive)
        case Rejected(out, page, _) => e.(error := true, outBuffer := out, sent := e.sent + page)
  }

  /** Whether the pass has finished a request. */
  predicate Finishes(c: Conn, p: Pass) {
    var t := Reads(|p.incoming|, p.calls);
    !c.state.Disconnecting? && !t.stop.Broken? && t != Transfer(0, EndOfStream) && p.parsed.Answered?
  }

  /** A pass that finds nothing to read and whose parser cannot go on. */
  function Idle(c: Conn): Pass { Pass("", [], "", Waiting(c.inBuffer), []) }

  /** handleRead, which calls itself while finished requests leave input behind. */
  function HandleRead(c: Conn, passes: seq<Pass>): Conn
    decreases |passes|
  {
    var p := if passes == [] then Idle(c) else passes[0];
    var d := HandleWrite(ReadAndParse(c, p), p.writes);
    if !d.error && Finishes(c, p) then
      if d.inBuffer != "" then
        if d.state.Disconnecting? then d else HandleRead(d, passes[1..])
      else if d.state.Disconnected? then d
      else d.(events := d.events + {In})
    else d
  }

  /** Whether handleRead resets the connection for a next request, which clears its timer. */
  predicate Resets(c: Conn, passes: seq<Pass>) {
    passes != [] && Finishes(c, passes[0]) && !HandleWrite(ReadAndParse(c, passes[0]), passes[0].writes).error
  }

  datatype Action = Skip | Update(timeout: nat) | Drain | Close

  /** handleConn: what becomes of the connection after its handlers have run. */
  function HandleConn(c: Conn): (Conn, Action) {
    if !c.error && c.state.Connected? then
      if c.events != {} then
        (c.(events := (if In in c.events && Out in c.events then {Out} else c.events) + {Et}),
         Update(if c.keepAlive then DEFAULT_KEEP_ALIVE_TIME else DEFAULT_EXPIRED_TIME))
      else
        (c.(events := READING), Update(if c.keepAlive then DEFAULT_KEEP_ALIVE_TIME else DEFAULT_KEEP_ALIVE_TIME / 2))
    else if !c.error && c.state.Disconnecting? && Out in c.events then
      (c.(events := WRITING), Drain)
    else
      (c, Close)
  }

  /** Channel::handleEvents */
  function HandleEvents(c: Conn, revents: Mask, passes: seq<Pass>, writes: seq<Syscall>): (Conn, Action) {
    var c0 := c.(events := {});
    if (Hup in revents && In !in revents) || Err in revents then (c0, Skip)
    else
      HandleConn(Dispatch(c0, revents, passes, writes))
  }

  /** The read handler, then the write handler, as the event asks. */
  function Dispatch(c: Conn, revents: Mask, passes: seq<Pass>, writes: seq<Syscall>): Conn {
    var d := if In in revents || Pri in revents || RdHup in revents then HandleRead(c, passes) else c;
    if Out in revents then HandleWrite(d, writes) else d
  }

  // ----- What the handlers keep -----

  /** Without an error, what was sent and what waits are together what was produced. */
  predicate Accounted(c: Conn) { !c.error ==> c.sent + c.outBuffer == c.produced }

  /** While handlers run: only IN and OUT are asked for, and OUT is whenever output is left over. */
  predicate Asked(c: Conn) { c.events <= {In, Out} && (!c.error && c.outBuffer != [] ==> Out in c.events) }

  lemma WriteKeeps(c: Conn, script: seq<Syscall>)
    requires Accounted(c) && c.events <= {In, Out}
    ensures var d := HandleWrite(c, script);
      && Accounted(d) && d.events <= {In, Out} && d.state == c.state && d.produced == c.produced
      && d.keepAlive == c.keepAlive && (c.error ==> d.error)
      && (!c.state.Disconnected? ==> Asked(d))
  {
    var t := Writes(|c.outBuffer|, script, true);
    if !c.error {
      assert c.outBuffer[..t.n] + c.outBuffer[t.n..] == c.outBuffer;
      assert c.sent + c.outBuffer[..t.n] + c.outBuffer[t.n..] == c.sent + c.outBuffer;
    }
  }

  lemma ParseKeeps(c: Conn, p: Pass)
    requires Accounted(c) && !c.state.Disconnected?
    ensures var d := ReadAndParse(c, p);
      && Accounted(d) && d.events == c.events && !d.state.Disconnected?
      && (c.error ==> d.error)
      && (c.state.Disconnecting? ==> d.state.Disconnecting?)
      && c.produced <= d.produced
  {
    hide Reads;
    if p.parsed.Answered? {
      assert c.sent + (c.outBuffer + p.parsed.response) == (c.sent + c.outBuffer) + p.parsed.response;
    }
  }

  lemma {:induction false} ReadKeeps(c: Conn, passes: seq<Pass>)
    requires Accounted(c) && c.events <= {In, Out} && !c.state.Disconnected?
    ensures var d := HandleRead(c, passes);
      && Accounted(d) && Asked(d) && !d.state.Disconnected?
      && (c.error ==> d.error)
      && (c.state.Disconnecting? ==> d.state.Disconnecting?)
      && c.produced <= d.produced
    decreases |passes|
  {
    hide ReadAndParse, HandleWrite;
    var p := if passes == [] then Idle(c) else passes[0];
    var m := ReadAndParse(c, p);
    ParseKeeps(c, p);
    WriteKeeps(m, p.writes);
    var d := HandleWrite(m, p.writes);
    if !d.error && Finishes(c, p) && d.inBuffer != "" && !d.state.Disconnecting? {
      ReadKeeps(d, passes[1..]);
    }
  }

  /** The masks a connection is ever registered with. */
  predicate Registrable(mask: Mask) { mask == DEFAULT_EVENT || mask == READING || mask == WRITING }

  /** No stalled response, no lost byte, no forgotten connection.  Delivered an event its registration
      allows, a connection whose pending output was registered for writing comes out of its handlers
      - still accounted for, and
      - asking for exactly IN|ET or OUT|ET, and for OUT|ET if output is still pending; or
      - draining its last output after the peer has closed; or
      - closed, because of an error or because the peer has closed and nothing is left to write; or
      - untouched, after a hang-up or an error on the descriptor. */
  lemma HandledConnection(c: Conn, mask: Mask, revents: Mask, passes: seq<Pass>, writes: seq<Syscall>)
    requires Accounted(c) && !c.error && !c.state.Disconnected?
    requires Registrable(mask) && Deliverable(mask, revents)
    ensures var (d, action) := HandleEvents(c, revents, passes, writes);
      && Accounted(d) && !d.state.Disconnected? && c.produced <= d.produced
      && (action.Skip? <==> Err in revents || (Hup in revents && In !in revents))
      && match action
         case Update(_) =>
           && !d.error && d.state.Connected? && (d.events == READING || d.events == WRITING)
           && (d.outBuffer != [] ==> d.events == WRITING)
         case Drain => !d.error && d.state.Disconnecting?
         case Close => d.error || (d.state.Disconnecting? && d.outBuffer == [])
         case Skip => d == c.(events := {})
  {
    hide Dispatch, HandleConn;
    if (Hup in revents && In !in revents) || Err in revents {
    } else {
      SomethingToDo(mask, revents);
      var c0 := c.(events := {});
      DispatchKeeps(c0, revents, passes, writes);
      Concluded(Dispatch(c0, revents, passes, writes));
    }
  }

  lemma DispatchKeeps(c: Conn, revents: Mask, passes: seq<Pass>, writes: seq<Syscall>)
    requires Accounted(c) && !c.error && !c.state.Disconnected? && c.events == {}
    requires In in revents || Out in revents
    ensures var d := Dispatch(c, revents, passes, writes);
      Accounted(d) && Asked(d) && !d.state.Disconnected? && c.produced <= d.produced
  {
    hide HandleRead, HandleWrite;
    var d := c;
    if In in revents || Pri in revents || RdHup in revents {
      ReadKeeps(c, passes);
      d := HandleRead(c, passes);
    }
    WriteKeeps(d, writes);
  }

  lemma Concluded(c: Conn)
    requires Accounted(c) && Asked(c) && !c.state.Disconnected?
    ensures var (d, action) := HandleConn(c);
      && Accounted(d) && !d.state.Disconnected? && d.produced == c.produced
      && match action
         case Update(_) =>
           && !d.error && d.state.Connected? && (d.events == READING || d.events == WRITING)
           && (d.outBuffer != [] ==> d.events == WRITING)
         case Drain => !d.error && d.state.Disconnecting?
         case Close => d.error || (d.state.Disconnecting? && d.outBuffer == [])
         case Skip => false
  {
    Reregistered(c);
  }

  lemma SomethingToDo(mask: Mask, revents: Mask)
    requires Registrable(mask) && Deliverable(mask, revents) && Err !in revents && (Hup in revents ==> In in revents)
    ensures In in revents || Out in revents
  {
    var f :| f in revents;
    assert f == Hup || f in mask;
  }

  /** A connected connection is registered for writing if and only if its handlers asked for that, and for reading
      otherwise; five minutes if it is kept alive, else two seconds, or half of five minutes if nothing was asked
      for.  Without an error, one that the peer has closed drains if its handlers asked for writing.  Any other one
      is closed. */
  lemma Reregistered(c: Conn)
    requires c.events <= {In, Out}
    ensures var (d, action) := HandleConn(c);
      if !c.error && c.state.Connected? then
        && d == c.(events := if Out in c.events then {Out, Et} else {In, Et})
        && action == Update(if c.keepAlive then 300000 else if c.events == {} then 150000 else 2000)
      else if !c.error && c.state.Disconnecting? && Out in c.events then
        d == c.(events := {Out, Et}) && action == Drain
      else
        d == c && action == Close
  {
    if c.events != {} {
      assert In in c.events || Out in c.events by {
        var f :| f in c.events;
      }
      if In in c.events && Out in c.events {
        assert {Out} + {Et} == {Out, Et};
      } else if In in c.events {
        assert c.events == {In};
      } else {
        assert c.events == {Out};
      }
    }
  }

  /** The draining branch may leave a response behind for good: the connection has come from its first event,
      still registered for reading alone, and its new mask is not passed on. */
  lemma DrainingKeepsItsMask()
    ensures var c := Conn(false, Connected, false, "", "", {}, "", "");
      var p := Pass("g", [Takes(1), Takes(1)], "", Answered("x", false, ""), []);
      var (d, action) := HandleEvents(c, {In}, [p], []);
      && Accounted(c) && Deliverable(DEFAULT_EVENT, {In}) && Out !in DEFAULT_EVENT
      && action.Drain? && d.outBuffer == "x"
  {
    var c := Conn(false, Connected, false, "", "", {}, "", "");
    var p := Pass("g", [Takes(1), Takes(1)], "", Answered("x", false, ""), []);
    assert p.calls[1..] == [Takes(1)];
    assert Reads(1, p.calls) == Transfer(1, EndOfStream);
    var m := c.(state := Disconnecting, outBuffer := "x", produced := "x");
    assert ReadAndParse(c, p) == m;
    assert HandleWrite(m, []) == m.(events := {Out});
    hide HandleWrite, ReadAndParse;
    var d := m.(events := {Out} + {In});
    assert HandleRead(c, [p]) == d;
    hide HandleRead;
    assert Dispatch(c, {In}, [p], []) == d;
    hide Dispatch;
    assert HandleConn(d) == (d.(events := WRITING), Drain);
    assert c.(events := {}) == c;
  }
}
