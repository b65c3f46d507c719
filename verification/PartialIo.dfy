/**
  readn and writen: loops over system calls that may transfer only part of what is asked, be
  interrupted, find the descriptor not ready, or fail.
 */
module PartialIo {

  const MAX_BUFF: nat := 4096

  /** What the system does with one read or write: transfers at most n bytes (a read that gets none
      has met the end of the stream), or returns -1 with EINTR, EAGAIN or another errno. */
  datatype Syscall = Takes(n: nat) | Interrupted | Again | Failed

  /** Why a loop ended: nothing was left to do, the system would not go on, or an error. */
  datatype Stop = Complete | EndOfStream | Blocked | Broken

  datatype Transfer = Transfer(n: nat, stop: Stop)

  function Min(a: nat, b: nat): nat { if a < b then a else b }

  // ----- What the loops do, as functions of the system's behaviour -----

  /** How much of `left` bytes gets written, and why it stops there.  The string version gives up when
      a write takes nothing, the raw version tries again. */
  function Writes(left: nat, script: seq<Syscall>, zeroStops: bool): (t: Transfer)
    ensures t.n <= left
    ensures t.stop.Complete? <==> t.n == left
    ensures !t.stop.EndOfStream?
    decreases |script|
  {
    if left == 0 then Transfer(0, Complete)
    else if script == [] then Transfer(0, Blocked)
    else match script[0]
      case Interrupted => Writes(left, script[1..], zeroStops)
      case Again => Transfer(0, Blocked)
      case Failed => Transfer(0, Broken)
      case Takes(n) =>
        if n == 0 && zeroStops then Transfer(0, Blocked)
        else
          var t := Writes(left - Min(n, left), script[1..], zeroStops);
          Transfer(Min(n, left) + t.n, t.stop)
  }

  /** How much of `available` bytes the string version of readn reads, in pieces of at most 4096. */
  function Reads(available: nat, script: seq<Syscall>): (t: Transfer)
    ensures t.n <= available
    ensures !t.stop.Complete?
    decreases |script|
  {
    if script == [] then Transfer(0, Blocked)
    else match script[0]
      case Interrupted => Reads(available, script[1..])
      case Again => Transfer(0, Blocked)
      case Failed => Transfer(0, Broken)
      case Takes(n) =>
        var m := Min(Min(n, MAX_BUFF), available);
        if m == 0 then Transfer(0, EndOfStream)
        else
          var t := Reads(available - m, script[1..]);
          Transfer(m + t.n, t.stop)
  }

  /** Interruptions make no difference. */
  lemma {:induction false} InterruptedWrites(left: nat, a: seq<Syscall>, b: seq<Syscall>, zeroStops: bool)
    ensures Writes(left, a + [Interrupted] + b, zeroStops) == Writes(left, a + b, zeroStops)
    decreases |a|
  {
    var long, short := a + [Interrupted] + b, a + b;
    if a == [] {
      assert long[1..] == b && short == b;
    } else {
      assert long[1..] == a[1..] + [Interrupted] + b && short[1..] == a[1..] + b;
      InterruptedWrites(if a[0].Takes? then left - Min(a[0].n, left) else left, a[1..], b, zeroStops);
    }
  }

  lemma {:induction false} InterruptedReads(available: nat, a: seq<Syscall>, b: seq<Syscall>)
    ensures Reads(available, a + [Interrupted] + b) == Reads(available, a + b)
    decreases |a|
  {
    var long, short := a + [Interrupted] + b, a + b;
    if a == [] {
      assert long[1..] == b && short == b;
    } else {
      assert long[1..] == a[1..] + [Interrupted] + b && short[1..] == a[1..] + b;
      InterruptedReads(if a[0].Takes? then available - Min(Min(a[0].n, MAX_BUFF), available) else available, a[1..], b);
    }
  }

  // ----- What the system's behaviour comes to -----

  /** The bytes that calls can take between them. */
  function Taken(script: seq<Syscall>): nat {
    if script == [] then 0 else (if script[0].Takes? then script[0].n else 0) + Taken(script[1..])
  }

  /** The loop goes on after such a call. */
  predicate Progresses(call: Syscall, zeroStops: bool) {
    call.Interrupted? || (call.Takes? && (zeroStops ==> call.n > 0))
  }

  /** The first m calls let a write go on, and the next one, if there is one, does not. */
  predicate Leading(script: seq<Syscall>, zeroStops: bool, m: nat) {
    && m <= |script| && (forall i :: 0 <= i < m ==> Progresses(script[i], zeroStops))
    && (m < |script| ==> !Progresses(script[m], zeroStops))
  }

  lemma {:induction false} SomeLeading(script: seq<Syscall>, zeroStops: bool) returns (m: nat)
    ensures Leading(script, zeroStops, m)
  {
    if script == [] || !Progresses(script[0], zeroStops) {
      m := 0;
    } else {
      m := SomeLeading(script[1..], zeroStops);
      m := m + 1;
    }
  }

  /** Writing comes to exactly this: the leading calls take what they can, up to all there is; and if that is not
      all, the call after them says whether it is an error. */
  lemma {:induction false} WritesExactly(left: nat, script: seq<Syscall>, zeroStops: bool, m: nat)
    requires Leading(script, zeroStops, m)
    ensures var sum := Taken(script[..m]);
      Writes(left, script, zeroStops) == Transfer(Min(left, sum),
        if sum >= left then Complete else if m < |script| && script[m].Failed? then Broken else Blocked)
    decreases |script|
  {
    if m > 0 && left > 0 {
      var rest := script[1..];
      assert script[..m][1..] == rest[..m - 1];
      WritesExactly(left - if script[0].Takes? then Min(script[0].n, left) else 0, rest, zeroStops, m - 1);
    }
  }

  /** The bytes that reads can get between them, at most 4096 each. */
  function Got(script: seq<Syscall>): nat {
    if script == [] then 0 else (if script[0].Takes? then Min(script[0].n, 4096) else 0) + Got(script[1..])
  }

  /** The first m calls are interrupted or get data, and the next one, if there is one, is neither. */
  predicate LeadingReads(available: nat, script: seq<Syscall>, m: nat) {
    && m <= |script|
    && (forall i :: 0 <= i < m ==> script[i].Interrupted? || GetsData(available, script, i))
    && (m < |script| ==> !script[m].Interrupted? && !GetsData(available, script, m))
  }

  predicate GetsData(available: nat, script: seq<Syscall>, i: nat)
    requires i < |script|
  {
    script[i].Takes? && script[i].n > 0 && Got(script[..i]) < available
  }

  lemma {:induction false} GotOneMore(script: seq<Syscall>, i: nat)
    requires i < |script|
    ensures Got(script[..i + 1]) == (if script[0].Takes? then Min(script[0].n, MAX_BUFF) else 0) + Got(script[1..][..i])
  {
    assert script[..i + 1][1..] == script[1..][..i];
  }

  /** Reading comes to exactly this: the leading calls get what there is, in pieces; then the next call says whether
      it is the end of the stream, an error, or, like no call at all, just nothing more for now. */
  lemma {:induction false} ReadsExactly(available: nat, script: seq<Syscall>, m: nat)
    requires LeadingReads(available, script, m)
    ensures Reads(available, script) == Transfer(Min(available, Got(script[..m])),
      if m == |script| || script[m].Again? then Blocked else if script[m].Failed? then Broken else EndOfStream)
    decreases |script|
  {
    if m > 0 {
      var rest := script[1..];
      var piece := if script[0].Takes? then Min(Min(script[0].n, MAX_BUFF), available) else 0;
      if script[0].Takes? { assert GetsData(available, script, 0); }
      var left := available - piece;
      forall i | 0 <= i < |rest|
        ensures GetsData(left, rest, i) <==> GetsData(available, script, i + 1)
      {
        GotOneMore(script, i);
      }
      assert LeadingReads(left, rest, m - 1);
      GotOneMore(script, m - 1);
      ReadsExactly(left, rest, m - 1);
    }
  }

  /** How far the writes go is determined, and so is how far the reads go. */
  lemma OneEnd(script: seq<Syscall>, zeroStops: bool, m: nat, k: nat)
    requires Leading(script, zeroStops, m) && Leading(script, zeroStops, k)
    ensures m == k
  {
    hide Progresses;
  }

  lemma OneLeading(available: nat, script: seq<Syscall>, m: nat, k: nat)
    requires LeadingReads(available, script, m) && LeadingReads(available, script, k)
    ensures m == k
  {
    hide GetsData;
  }

  lemma NotInterrupted(available: nat, script: seq<Syscall>, m: nat)
    requires LeadingReads(available, script, m)
    ensures m <= |script| && (m < |script| ==> !script[m].Interrupted?)
  {
  }

  lemma {:induction false} SomeLeadingReads(available: nat, script: seq<Syscall>, from: nat) returns (m: nat)
    requires from <= |script| && forall i :: 0 <= i < from ==> script[i].Interrupted? || GetsData(available, script, i)
    ensures LeadingReads(available, script, m)
    decreases |script| - from
  {
    m := from;
    if from < |script| && (script[from].Interrupted? || GetsData(available, script, from)) {
      m := SomeLeadingReads(available, script, from + 1);
    }
  }

  // ----- The code -----

  /** A descriptor: what can still be read from it, what has been written to it, and how the system
      will behave.  Once the script is used up, it answers EAGAIN. */
  class Descriptor {
    var incoming: string
    var sent: string
    var script: seq<Syscall>

    constructor (incoming: string, script: seq<Syscall>)
      ensures this.incoming == incoming && sent == "" && this.script == script
    {
      this.incoming, sent, this.script := incoming, "", script;
    }

    method NextCall() returns (call: Syscall)
      modifies this`script
      ensures call == if old(script) == [] then Again else old(script)[0]
      ensures script == if old(script) == [] then [] else old(script)[1..]
    {
      if script == [] {
        call := Again;
      } else {
        call := script[0];
        script := script[1..];
      }
    }

    /** read(fd, _, room) */
    method Read(room: nat) returns (call: Syscall, data: string)
      modifies this`script, this`incoming
      ensures call == if old(script) == [] then Again else old(script)[0]
      ensures script == if old(script) == [] then [] else old(script)[1..]
      ensures data + incoming == old(incoming)
      ensures |data| == if call.Takes? then Min(Min(call.n, room), old(|incoming|)) else 0
    {
      call := NextCall();
      data := [];
      if call.Takes? {
        var m := Min(Min(call.n, room), |incoming|);
        data, incoming := incoming[..m], incoming[m..];
      }
    }

    /** write(fd, data, |data|) */
    method Write(data: string) returns (call: Syscall, n: nat)
      modifies this`script, this`sent
      ensures call == if old(script) == [] then Again else old(script)[0]
      ensures script == if old(script) == [] then [] else old(script)[1..]
      ensures n == (if call.Takes? then Min(call.n, |data|) else 0) && sent == old(sent) + data[..n]
    {
      call := NextCall();
      n := if call.Takes? then Min(call.n, |data|) else 0;
      sent := sent + data[..n];
    }
  }

  /** The string version of writen: sends what the first m calls take, up to the whole buffer, and keeps exactly the
      rest; but if that is not all and call m fails, it returns -1 and leaves the buffer as it was. */
  method WritenString(fd: Descriptor, sbuff: string) returns (result: int, rest: string, ghost m: nat)
    modifies fd
    ensures Leading(old(fd.script), true, m)
    ensures var sum := Taken(old(fd.script)[..m]);
      && fd.sent == old(fd.sent) + sbuff[..Min(|sbuff|, sum)]
      && if sum < |sbuff| && m < |old(fd.script)| && old(fd.script)[m].Failed? then result == -1 && rest == sbuff
         else result == Min(|sbuff|, sum) && rest == sbuff[result..]
    ensures var t := Writes(|sbuff|, old(fd.script), true);
      && fd.sent == old(fd.sent) + sbuff[..t.n]
      && (if t.stop.Broken? then result == -1 && rest == sbuff else result == t.n && rest == sbuff[t.n..])
    ensures result >= 0 ==> fd.sent + rest == old(fd.sent) + sbuff
    ensures fd.sent + rest == old(fd.sent) + sbuff <==> !FailsMidway(|sbuff|, old(fd.script))
    ensures fd.incoming == old(fd.incoming)
  {
    hide FailsMidway, Taken, Leading, Writes;
    m := SomeLeading(fd.script, true);
    WritesExactly(|sbuff|, fd.script, true, m);
    BytesTwice(fd.sent, sbuff, fd.script);
    var writeSum, failed := WriteOut(fd, sbuff);
    if failed {
      return -1, sbuff, m;
    }
    rest := if writeSum == |sbuff| then [] else sbuff[writeSum..];
    result := writeSum;
  }

  /** The loop of the string version. */
  method WriteOut(fd: Descriptor, sbuff: string) returns (writeSum: nat, failed: bool)
    modifies fd
    ensures var t := Writes(|sbuff|, old(fd.script), true);
      writeSum == t.n && fd.sent == old(fd.sent) + sbuff[..t.n] && (failed <==> t.stop.Broken?)
    ensures fd.incoming == old(fd.incoming)
  {
    var nleft := |sbuff|;
    writeSum, failed := 0, false;
    ghost var t := Writes(|sbuff|, fd.script, true);
    while nleft > 0
      invariant nleft == |sbuff| - writeSum && 0 <= nleft && !failed
      invariant fd.sent == old(fd.sent) + sbuff[..writeSum] && fd.incoming == old(fd.incoming)
      invariant var u := Writes(nleft, fd.script, true); t == Transfer(writeSum + u.n, u.stop)
      decreases |fd.script|, nleft
    {
      var call, n := fd.Write(sbuff[writeSum..]);
      match call {
        case Interrupted =>
          continue;
        case Again =>
          break;
        case Failed =>
          failed := true;
          return;
        case Takes(_) =>
          if n == 0 { break; }
      }
      NextPiece(sbuff, writeSum, n);
      nleft := nleft - n;
      writeSum := writeSum + n;
    }
  }

  // ----- When the string version loses count -----

  /** Call k fails, and the loop gets that far: the calls before it make progress or are interrupted, and leave
      something to write. */
  predicate FailsAt(left: nat, script: seq<Syscall>, k: nat) {
    && k < |script| && script[k].Failed?
    && (forall i :: 0 <= i < k ==> script[i].Interrupted? || (script[i].Takes? && script[i].n > 0))
    && Taken(script[..k]) < left
  }

  /** The calls decide whether a write ends in an error, and after how many bytes. */
  lemma BrokenWhenFailing(left: nat, script: seq<Syscall>)
    ensures Writes(left, script, true).stop.Broken? <==> exists k: nat :: FailsAt(left, script, k)
    ensures forall k: nat :: FailsAt(left, script, k) ==> Writes(left, script, true).n == Taken(script[..k])
  {
    hide Writes, Taken;
    forall k: nat | FailsAt(left, script, k)
      ensures Writes(left, script, true) == Transfer(Taken(script[..k]), Broken)
    {
      FailingBreaks(left, script, k);
    }
    if Writes(left, script, true).stop.Broken? {
      var k := BrokenFails(left, script);
    }
  }

  lemma {:induction false} FailingBreaks(left: nat, script: seq<Syscall>, k: nat)
    requires FailsAt(left, script, k)
    ensures Writes(left, script, true) == Transfer(Taken(script[..k]), Broken)
    decreases k
  {
    if k > 0 {
      var rest := script[1..];
      assert script[..k][1..] == rest[..k - 1];
      FailingBreaks(left - if script[0].Takes? then Min(script[0].n, left) else 0, rest, k - 1);
    }
  }

  lemma {:induction false} BrokenFails(left: nat, script: seq<Syscall>) returns (k: nat)
    requires Writes(left, script, true).stop.Broken?
    ensures FailsAt(left, script, k)
    decreases |script|
  {
    if script[0].Failed? {
      k := 0;
    } else {
      var rest := script[1..];
      k := BrokenFails(left - if script[0].Takes? then Min(script[0].n, left) else 0, rest);
      assert script[..k + 1][1..] == rest[..k];
      k := k + 1;
    }
  }

  /** A call fails after part of the bytes, but not all, have gone out. */
  ghost predicate FailsMidway(left: nat, script: seq<Syscall>) {
    exists k: nat :: FailsAt(left, script, k) && Taken(script[..k]) > 0
  }

  /** What is sent and what stays in the buffer are together the original buffer if and only if no call fails
      midway: the part that was sent before such a call is still in the buffer. */
  lemma WritenAccounting(sbuff: string, script: seq<Syscall>)
    ensures var t := Writes(|sbuff|, script, true);
      var rest := if t.stop.Broken? then sbuff else sbuff[t.n..];
      sbuff[..t.n] + rest == sbuff <==> !FailsMidway(|sbuff|, script)
  {
    BrokenWhenFailing(|sbuff|, script);
    var t := Writes(|sbuff|, script, true);
    if t.stop.Broken? {
      assert |sbuff[..t.n] + sbuff| == t.n + |sbuff|;
    }
  }

  lemma BytesTwice(before: string, sbuff: string, script: seq<Syscall>)
    ensures var t := Writes(|sbuff|, script, true);
      var rest := if t.stop.Broken? then sbuff else sbuff[t.n..];
      before + sbuff[..t.n] + rest == before + sbuff <==> !FailsMidway(|sbuff|, script)
  {
    WritenAccounting(sbuff, script);
    var t := Writes(|sbuff|, script, true);
    var rest := if t.stop.Broken? then sbuff else sbuff[t.n..];
    assert before + sbuff[..t.n] + rest == before + (sbuff[..t.n] + rest);
    assert (before + (sbuff[..t.n] + rest))[|before|..] == sbuff[..t.n] + rest;
    assert (before + sbuff)[|before|..] == sbuff;
  }

  /** For instance: one byte of two goes out, then the call fails.  Sending the buffer again would send that byte
      twice. */
  lemma OneByteTwice()
    ensures FailsMidway(2, [Takes(1), Failed]) && Writes(2, [Takes(1), Failed], true) == Transfer(1, Broken)
  {
    var script := [Takes(1), Failed];
    assert script[1..] == [Failed] && script[..1] == [Takes(1)] && script[..1][1..] == [];
    assert FailsAt(2, script, 1) && Taken(script[..1]) == 1;
    BrokenWhenFailing(2, script);
  }

  /** The raw version of writen, for which a call that takes nothing is not the end. */
  method Writen(fd: Descriptor, buff: string) returns (result: int, ghost m: nat)
    modifies fd
    ensures Leading(old(fd.script), false, m)
    ensures var sum := Taken(old(fd.script)[..m]);
      && fd.sent == old(fd.sent) + buff[..Min(|buff|, sum)]
      && result == if sum < |buff| && m < |old(fd.script)| && old(fd.script)[m].Failed? then -1 else Min(|buff|, sum)
    ensures var t := Writes(|buff|, old(fd.script), false);
      && fd.sent == old(fd.sent) + buff[..t.n]
      && result == if t.stop.Broken? then -1 else t.n
    ensures fd.incoming == old(fd.incoming)
  {
    hide Taken, Leading, Writes;
    m := SomeLeading(fd.script, false);
    WritesExactly(|buff|, fd.script, false, m);
    result := WriteRaw(fd, buff);
  }

  /** The loop of the raw version. */
  method WriteRaw(fd: Descriptor, buff: string) returns (result: int)
    modifies fd
    ensures var t := Writes(|buff|, old(fd.script), false);
      fd.sent == old(fd.sent) + buff[..t.n] && result == if t.stop.Broken? then -1 else t.n
    ensures fd.incoming == old(fd.incoming)
  {
    var nleft, writeSum := |buff|, 0;
    ghost var t := Writes(|buff|, fd.script, false);
    while nleft > 0
      invariant 0 <= writeSum && nleft == |buff| - writeSum && 0 <= nleft
      invariant fd.sent == old(fd.sent) + buff[..writeSum] && fd.incoming == old(fd.incoming)
      invariant var u := Writes(nleft, fd.script, false); t == Transfer(writeSum + u.n, u.stop)
      decreases |fd.script|, nleft
    {
      var call, n := fd.Write(buff[writeSum..]);
      match call {
        case Interrupted =>
          continue;
        case Again =>
          return writeSum;
        case Failed =>
          return -1;
        case Takes(_) =>
      }
      NextPiece(buff, writeSum, n);
      writeSum := writeSum + n;
      nleft := nleft - n;
    }
    result := writeSum;
  }

  /** The three-argument readn: appends exactly the bytes the first m calls get, in order; sets `zero` if call m meets
      the end of the stream, and leaves it alone otherwise; returns -1 if call m fails, with what was read before
      still appended, and the number of bytes otherwise. */
  method ReadnString(fd: Descriptor, inBuffer: string, zero: bool)
    returns (result: int, buffer: string, atEnd: bool, ghost m: nat)
    modifies fd
    ensures LeadingReads(old(|fd.incoming|), old(fd.script), m)
    ensures var got := Min(old(|fd.incoming|), Got(old(fd.script)[..m]));
      && buffer == inBuffer + old(fd.incoming)[..got]
      && result == (if m < |old(fd.script)| && old(fd.script)[m].Failed? then -1 else got)
      && (atEnd <==> zero || (m < |old(fd.script)| && old(fd.script)[m].Takes?))
    ensures var t := Reads(old(|fd.incoming|), old(fd.script));
      && buffer == inBuffer + old(fd.incoming)[..t.n]
      && result == (if t.stop.Broken? then -1 else t.n)
      && atEnd == (zero || t.stop.EndOfStream?)
    ensures buffer + fd.incoming == inBuffer + old(fd.incoming)
    ensures fd.sent == old(fd.sent)
  {
    var readSum: nat := 0;
    hide Got, LeadingReads;
    buffer, atEnd := inBuffer, zero;
    m := SomeLeadingReads(|fd.incoming|, fd.script, 0);
    ReadsExactly(|fd.incoming|, fd.script, m);
    NotInterrupted(|fd.incoming|, fd.script, m);
    ghost var t, all := Reads(|fd.incoming|, fd.script), fd.incoming;
    while true
      invariant buffer + fd.incoming == inBuffer + all && |buffer| == |inBuffer| + readSum && 0 <= readSum
      invariant atEnd == zero && fd.sent == old(fd.sent)
      invariant var u := Reads(|fd.incoming|, fd.script); t == Transfer(readSum + u.n, u.stop)
      decreases |fd.script|
    {
      SplitAt(inBuffer, all, buffer, fd.incoming);
      var call, data := fd.Read(MAX_BUFF);
      match call {
        case Interrupted =>
          continue;
        case Again =>
          result := readSum;
          return;
        case Failed =>
          result := -1;
          return;
        case Takes(_) =>
          if data == [] {
            atEnd := true;
            break;
          }
      }
      assert (buffer + data) + fd.incoming == buffer + (data + fd.incoming);
      readSum := readSum + |data|;
      buffer := buffer + data;
    }
    result := readSum;
  }

  lemma NextPiece(s: string, i: nat, n: nat)
    requires i + n <= |s|
    ensures s[..i] + s[i..][..n] == s[..i + n]
  {
    assert s[i..][..n] == s[i..i + n];
  }

  lemma SplitAt(a: string, b: string, front: string, back: string)
    requires front + back == a + b && |a| <= |front|
    ensures front == a + b[..|front| - |a|]
  {
    assert forall i :: 0 <= i < |front| ==> front[i] == (front + back)[i];
  }
}
