/**
  What a client gets: every handler of a connection, determined by the system calls themselves, and what that comes
  to for requests and their responses.
 */
module Service {
  import opened PartialIo
  import opened Connection

  // ----- One handler, call by call -----

  /** Call m fails before all is taken. */
  predicate Cut(total: nat, script: seq<Syscall>, m: nat) {
    m < |script| && script[m].Failed? && Taken(script[..m]) < total
  }

  lemma CutIsBroken(total: nat, script: seq<Syscall>, m: nat)
    requires Leading(script, true, m)
    ensures Cut(total, script, m) <==> Writes(total, script, true).stop.Broken?
  {
    WritesExactly(total, script, true, m);
  }

  lemma InRange(available: nat, script: seq<Syscall>, m: nat)
    requires LeadingReads(available, script, m)
    ensures m <= |script|
  {
  }

  /** handleWrite sends just what the leading calls take.  What is left stays, and is asked for; if a call fails
      first, everything stays, and nothing but that is asked for. */
  lemma WriteExactly(c: Conn, script: seq<Syscall>, m: nat)
    requires Leading(script, true, m)
    ensures HandleWrite(c, script) ==
      if c.error || c.state.Disconnected? then c
      else
        var n := Min(|c.outBuffer|, Taken(script[..m]));
        if Cut(|c.outBuffer|, script, m) then c.(sent := c.sent + c.outBuffer[..n], error := true, events := {Out})
        else c.(sent := c.sent + c.outBuffer[..n], outBuffer := c.outBuffer[n..],
                events := c.events + if n < |c.outBuffer| then {Out} else {})
  {
    hide Writes, Taken, Leading;
    WritesExactly(|c.outBuffer|, script, true, m);
    assert {} + {Out} == {Out};
  }

  /** The call after the leading ones fails, or finds the end of the stream. */
  predicate ReadFails(p: Pass, m: nat) { m < |p.calls| && p.calls[m].Failed? }

  predicate ReadEnds(p: Pass, m: nat) { m < |p.calls| && p.calls[m].Takes? }

  function Data(p: Pass, m: nat): string
    requires m <= |p.calls|
  {
    p.incoming[..Min(|p.incoming|, Got(p.calls[..m]))]
  }

  /** The read part of handleRead: a failing read writes a page and is an error; the end of the stream without data
      is the peer's closing, with data that too but the data is parsed first; otherwise the data is parsed. */
  lemma ParseExactly(c: Conn, p: Pass, m: nat)
    requires LeadingReads(|p.incoming|, p.calls, m)
    ensures ReadAndParse(c, p) ==
      if c.state.Disconnecting? then c.(inBuffer := "")
      else if ReadFails(p, m) then c.(inBuffer := c.inBuffer + Data(p, m), error := true, sent := c.sent + p.page)
      else if ReadEnds(p, m) && Data(p, m) == "" then c.(state := Disconnecting)
      else
        var d := c.(inBuffer := p.parsed.rest, state := if ReadEnds(p, m) then Disconnecting else c.state);
        match p.parsed
        case Waiting(_) => d
        case Answered(response, alive, _) =>
          d.(outBuffer := c.outBuffer + response, produced := c.produced + response, keepAlive := c.keepAlive || alive)
        case Rejected(out, page, _) => d.(error := true, outBuffer := out, sent := c.sent + page)
    ensures Finishes(c, p) <==>
      !c.state.Disconnecting? && !ReadFails(p, m) && !(ReadEnds(p, m) && Data(p, m) == "") && p.parsed.Answered?
  {
    hide Reads, Got, GetsData;
    ReadsExactly(|p.incoming|, p.calls, m);
    assert m < |p.calls| ==> !p.calls[m].Interrupted?;
    assert Reads(|p.incoming|, p.calls).stop.EndOfStream? <==> ReadEnds(p, m);
    assert |Data(p, m)| == Reads(|p.incoming|, p.calls).n;
    assert c.inBuffer + "" == c.inBuffer;
  }

  // ----- handleRead, pass by pass -----

  function Nth(c: Conn, passes: seq<Pass>, i: nat): Pass {
    if i < |passes| then passes[i] else Idle(c)
  }

  /** After such a pass handleRead calls itself. */
  predicate GoesOn(c: Conn, p: Pass, d: Conn) {
    !d.error && Finishes(c, p) && d.inBuffer != "" && !d.state.Disconnecting?
  }

  /** The connection before and after each pass. */
  predicate Trace(cs: seq<Conn>, passes: seq<Pass>) {
    && |cs| >= 2
    && (forall i :: 0 <= i < |cs| - 1 ==>
          cs[i + 1] == HandleWrite(ReadAndParse(cs[i], Nth(cs[i], passes, i)), Nth(cs[i], passes, i).writes))
    && (forall i :: 0 <= i < |cs| - 1 ==> (GoesOn(cs[i], Nth(cs[i], passes, i), cs[i + 1]) <==> i < |cs| - 2))
  }

  /** handleRead goes on exactly as long as finished requests leave input behind, and asks for reading if its last
      pass has finished a request and used up the input. */
  lemma {:induction false} ReadTrace(c: Conn, passes: seq<Pass>) returns (cs: seq<Conn>)
    requires !c.state.Disconnected?
    ensures Trace(cs, passes) && cs[0] == c
    ensures var last := |cs| - 1;
      var more := !cs[last].error && cs[last].inBuffer == "" && Finishes(cs[last - 1], Nth(cs[last - 1], passes, last - 1));
      HandleRead(c, passes) == if more then cs[last].(events := cs[last].events + {In}) else cs[last]
    decreases |passes|
  {
    hide ReadAndParse, HandleWrite, Finishes;
    var p := Nth(c, passes, 0);
    var d := HandleWrite(ReadAndParse(c, p), p.writes);
    PassKeeps(c, p);
    if GoesOn(c, p, d) {
      FinishedIsReal(c, passes);
      var rest := ReadTrace(d, passes[1..]);
      cs := [c] + rest;
      TraceGrows(c, rest, passes);
    } else {
      cs := [c, d];
    }
  }

  lemma TraceGrows(c: Conn, rest: seq<Conn>, passes: seq<Pass>)
    requires passes != [] && Trace(rest, passes[1..])
    requires rest[0] == HandleWrite(ReadAndParse(c, passes[0]), passes[0].writes) && GoesOn(c, passes[0], rest[0])
    ensures Trace([c] + rest, passes)
    ensures Nth(rest[|rest| - 2], passes[1..], |rest| - 2) == Nth(([c] + rest)[|rest| - 1], passes, |rest| - 1)
  {
    hide ReadAndParse, HandleWrite, GoesOn;
    var cs := [c] + rest;
    forall i | 0 <= i < |rest|
      ensures Nth(cs[i + 1], passes, i + 1) == Nth(rest[i], passes[1..], i) && cs[i + 1] == rest[i]
    {
    }
    assert forall i :: 1 <= i < |cs| ==> cs[i] == rest[i - 1];
  }

  /** Without an error writing is asked for if and only if one of the writes left something, even if a later one
      has sent it. */
  lemma {:induction false} AskedIffLeft(cs: seq<Conn>, passes: seq<Pass>, n: nat)
    requires Trace(cs, passes) && !cs[0].state.Disconnected? && n < |cs|
    ensures !cs[n].state.Disconnected?
    ensures !cs[n].error ==> (Out in cs[n].events <==> Out in cs[0].events || exists i :: 1 <= i <= n && cs[i].outBuffer != "")
  {
    if n > 0 {
      hide ReadAndParse, HandleWrite, Finishes;
      AskedIffLeft(cs, passes, n - 1);
      PassKeeps(cs[n - 1], Nth(cs[n - 1], passes, n - 1));
    }
  }

  /** The idle pass finishes nothing. */
  lemma FinishedIsReal(c: Conn, passes: seq<Pass>)
    requires Finishes(c, Nth(c, passes, 0))
    ensures passes != []
  {
  }

  lemma PassKeeps(c: Conn, p: Pass)
    requires !c.state.Disconnected?
    ensures var d := HandleWrite(ReadAndParse(c, p), p.writes);
      && !d.state.Disconnected? && (c.error ==> d.error)
      && (!d.error ==> (Out in d.events <==> Out in c.events || d.outBuffer != ""))
  {
    hide Writes, Reads;
  }

  // ----- Requests and responses -----

  /** The socket takes n bytes before it blocks or fails. */
  ghost predicate Generous(script: seq<Syscall>, n: nat) {
    exists m: nat :: Leading(script, true, m) && Taken(script[..m]) >= n
  }

  /** What can be read is read, and the peer has not closed. */
  ghost predicate Readable(p: Pass) {
    exists m: nat :: LeadingReads(|p.incoming|, p.calls, m) && !ReadFails(p, m) && !ReadEnds(p, m)
  }

  /** The responses of the passes that answer. */
  function Responses(passes: seq<Pass>): string {
    if passes == [] then ""
    else (if passes[0].parsed.Answered? then passes[0].parsed.response else "") + Responses(passes[1..])
  }

  lemma WritesAll(c: Conn, script: seq<Syscall>, n: nat)
    requires Generous(script, n) && |c.outBuffer| <= n && !c.error && !c.state.Disconnected?
    ensures HandleWrite(c, script) == c.(sent := c.sent + c.outBuffer, outBuffer := "")
  {
    var m: nat :| Leading(script, true, m) && Taken(script[..m]) >= n;
    WriteExactly(c, script, m);
    assert c.events + {} == c.events;
  }

  lemma Parses(c: Conn, p: Pass)
    requires Readable(p) && p.parsed.Answered? && c.state.Connected?
    ensures Finishes(c, p)
    ensures ReadAndParse(c, p) == c.(inBuffer := p.parsed.rest, outBuffer := c.outBuffer + p.parsed.response,
      produced := c.produced + p.parsed.response, keepAlive := c.keepAlive || p.parsed.keepAlive)
  {
    var m: nat :| LeadingReads(|p.incoming|, p.calls, m) && !ReadFails(p, m) && !ReadEnds(p, m);
    ParseExactly(c, p, m);
  }

  /** Requests that arrive together: each pass finds the next one, and input is left over until the last. */
  ghost predicate Requests(passes: seq<Pass>, n: nat) {
    && passes != []
    && (forall i :: 0 <= i < |passes| ==> Readable(passes[i]) && passes[i].parsed.Answered? && Generous(passes[i].writes, n))
    && (forall i :: 0 <= i < |passes| ==> (passes[i].parsed.rest == "" <==> i == |passes| - 1))
  }

  /** All of them are answered by one call of handleRead, in order, with nothing left over. */
  lemma {:induction false} AllAnswered(c: Conn, passes: seq<Pass>, n: nat)
    requires !c.error && c.state.Connected? && Requests(passes, n) && |c.outBuffer| + |Responses(passes)| <= n
    ensures HandleRead(c, passes) == c.(
      sent := c.sent + c.outBuffer + Responses(passes), produced := c.produced + Responses(passes),
      inBuffer := "", outBuffer := "", events := c.events + {In},
      keepAlive := c.keepAlive || exists i :: 0 <= i < |passes| && passes[i].parsed.keepAlive)
    ensures Resets(c, passes)
    decreases |passes|
  {
    hide ReadAndParse, HandleWrite, Finishes;
    var p, rest := passes[0], passes[1..];
    Parses(c, p);
    var m := ReadAndParse(c, p);
    WritesAll(m, p.writes, n);
    var d := HandleWrite(m, p.writes);
    assert d.sent == c.sent + c.outBuffer + p.parsed.response;
    if rest == [] {
      assert Responses(rest) == "" && p.parsed.response + "" == p.parsed.response;
    } else {
      forall i | 0 <= i < |rest|
        ensures rest[i] == passes[i + 1]
      {
      }
      assert Requests(rest, n);
      AllAnswered(d, rest, n);
      assert d.sent + "" + Responses(rest) == c.sent + c.outBuffer + (p.parsed.response + Responses(rest));
      assert d.produced + Responses(rest) == c.produced + (p.parsed.response + Responses(rest));
      assert (exists i :: 0 <= i < |passes| && passes[i].parsed.keepAlive)
        <==> p.parsed.keepAlive || exists i :: 0 <= i < |rest| && rest[i].parsed.keepAlive by {
        KeptAlive(passes);
      }
    }
  }

  lemma KeptAlive(passes: seq<Pass>)
    requires passes != [] && forall i :: 0 <= i < |passes| ==> passes[i].parsed.Answered?
    ensures (exists i :: 0 <= i < |passes| && passes[i].parsed.keepAlive)
      <==> passes[0].parsed.keepAlive || exists i :: 0 <= i < |passes[1..]| && passes[1..][i].parsed.keepAlive
  {
    if i :| 0 <= i < |passes[1..]| && passes[1..][i].parsed.keepAlive {
      assert passes[i + 1].parsed.keepAlive;
    }
    if i :| 0 <= i < |passes| && passes[i].parsed.keepAlive {
      assert i > 0 ==> passes[1..][i - 1].parsed.keepAlive;
    }
  }

  /** End to end: a connected client whose requests arrive, on a socket that takes the responses, has been sent every
      response ever produced for it, and is heard again, for five minutes if it is kept alive and two seconds else. */
  lemma RequestsAreAnswered(c: Conn, revents: Mask, passes: seq<Pass>, writes: seq<Syscall>, n: nat)
    requires Accounted(c) && !c.error && c.state.Connected?
    requires In in revents && Err !in revents
    requires Requests(passes, n) && |c.outBuffer| + |Responses(passes)| <= n && Generous(writes, n)
    ensures var (d, action) := HandleEvents(c, revents, passes, writes);
      && d.sent == d.produced == c.produced + Responses(passes) && d.outBuffer == "" && !d.error && d.state.Connected?
      && d.events == {In, Et} && action == Update(if d.keepAlive then 300000 else 2000)
  {
    hide HandleRead, HandleWrite, HandleConn;
    var c0 := c.(events := {});
    AllAnswered(c0, passes, n);
    var d := HandleRead(c0, passes);
    WritesAll(d, writes, n);
    assert d.sent + "" == d.sent;
    Reregistered(d);
  }

  /** End to end, for any input: once an event is handled on a socket that takes whatever it is given, without an
      error everything produced has been sent. */
  lemma EverythingIsSent(c: Conn, mask: Mask, revents: Mask, passes: seq<Pass>, writes: seq<Syscall>, n: nat)
    requires Accounted(c) && !c.error && !c.state.Disconnected?
    requires Registrable(mask) && Deliverable(mask, revents) && (In in revents ==> passes != [])
    requires |c.outBuffer| + |Responses(passes)| <= n && Generous(writes, n)
    requires forall i :: 0 <= i < |passes| ==> Generous(passes[i].writes, n)
    ensures var (d, action) := HandleEvents(c, revents, passes, writes);
      !action.Skip? && !d.error ==> d.outBuffer == "" && d.sent == d.produced
  {
    hide HandleRead, HandleWrite, HandleConn;
    if (Hup in revents && In !in revents) || Err in revents {
    } else {
      SomethingToDo(mask, revents);
      var c0 := c.(events := {});
      DispatchKeeps(c0, revents, passes, writes);
      var d := c0;
      if In in revents {
        ReadsOut(c0, passes, n);
        ReadKeeps(c0, passes);
        d := HandleRead(c0, passes);
      }
      assert !(Pri in revents) && !(RdHup in revents);
      if Out in revents && !d.error {
        WritesAll(d, writes, n);
      }
      Reregistered(Dispatch(c0, revents, passes, writes));
    }
  }

  lemma {:induction false} ReadsOut(c: Conn, passes: seq<Pass>, n: nat)
    requires !c.state.Disconnected? && (passes == [] ==> c.outBuffer == "")
    requires |c.outBuffer| + |Responses(passes)| <= n && forall i :: 0 <= i < |passes| ==> Generous(passes[i].writes, n)
    ensures var d := HandleRead(c, passes); !d.error ==> d.outBuffer == ""
    decreases |passes|
  {
    hide HandleWrite, Reads;
    var p := if passes == [] then Idle(c) else passes[0];
    var m := ReadAndParse(c, p);
    if !m.error {
      if passes == [] {
        assert Leading([], true, 0) && Generous([], 0);
        WritesAll(m, [], 0);
      } else {
        WritesAll(m, p.writes, n);
        assert forall i :: 0 <= i < |passes[1..]| ==> passes[1..][i] == passes[i + 1];
      }
      var d := HandleWrite(m, p.writes);
      if Finishes(c, p) && d.inBuffer != "" && !d.state.Disconnecting? {
        ReadsOut(d, passes[1..], n);
      }
    } else {
      assert HandleWrite(m, p.writes) == m by { WriteOnError(m, p.writes); }
    }
  }

  lemma WriteOnError(c: Conn, script: seq<Syscall>)
    ensures c.error ==> HandleWrite(c, script) == c
  {
  }

  /** End to end, when only writing is possible: just what the calls take goes out. */
  lemma WritableIsUsed(c: Conn, passes: seq<Pass>, writes: seq<Syscall>, m: nat)
    requires !c.error && !c.state.Disconnected? && Leading(writes, true, m)
    ensures var (d, action) := HandleEvents(c, {Out}, passes, writes);
      && d.sent == c.sent + c.outBuffer[..Min(|c.outBuffer|, Taken(writes[..m]))] && d.produced == c.produced
      && (d.error <==> Cut(|c.outBuffer|, writes, m))
      && (!d.error ==> d.outBuffer == c.outBuffer[Min(|c.outBuffer|, Taken(writes[..m]))..])
  {
    hide HandleWrite, HandleConn, HandleRead, Taken;
    var c0 := c.(events := {});
    WriteExactly(c0, writes, m);
    Reregistered(HandleWrite(c0, writes));
  }

  /** Asking for writing outlives its cause: the first response blocks, the second pass sends both, and the connection
      is registered for writing although nothing is left. */
  lemma WritingWithNothingLeft()
    ensures var c := Conn(false, Connected, false, "", "", {}, "", "");
      var p := Pass("", [], "", Answered("a", false, "GET"), []);
      var q := Pass("", [], "", Answered("b", false, ""), [Takes(2)]);
      var (d, action) := HandleEvents(c, {In}, [p, q], []);
      d.sent == d.produced == "ab" && d.outBuffer == "" && d.events == WRITING && action.Update?
  {
    var c := Conn(false, Connected, false, "", "", {}, "", "");
    var p := Pass("", [], "", Answered("a", false, "GET"), []);
    var q := Pass("", [], "", Answered("b", false, ""), [Takes(2)]);
    var m := ReadAndParse(c, p);
    assert m == c.(inBuffer := "GET", outBuffer := "a", produced := "a");
    var d := HandleWrite(m, []);
    assert d == m.(events := {Out});
    var e := ReadAndParse(d, q);
    assert e == d.(inBuffer := "", outBuffer := "ab", produced := "ab");
    assert [Takes(2)][1..] == [];
    var f := HandleWrite(e, [Takes(2)]);
    assert f == e.(sent := "ab", outBuffer := "");
    hide HandleWrite, ReadAndParse;
    assert [p, q][1..] == [q];
    assert HandleRead(d, [q]) == f.(events := {Out} + {In});
    assert HandleRead(c, [p, q]) == f.(events := {Out} + {In});
    hide HandleRead;
    Reregistered(f.(events := {Out} + {In}));
    assert c.(events := {}) == c;
  }
}
