/**
  The header state machine of the request parser, on a block that starts afresh.

  The scanner is first given as an automaton that remembers the key and the value it is collecting;
  the language it accepts is then determined exactly.  The code, with its indices into the buffer,
  is proved to be that automaton.
 */
module Headers {

  const CR: char := '\r'
  const LF: char := '\n'

  datatype Status = Success | Again | Error

  /** Where the scanner is, with what it has collected.  `Finished` is one character beyond the blank line. */
  datatype Position =
    | Start
    | Key(key: string)
    | Colon(key: string)
    | SpacesAfterColon(key: string)
    | Value(key: string, value: string)
    | SawCr(key: string, value: string)
    | SawLf
    | EndCr
    | EndLf
    | Finished
    | Bad
  {
    predicate Stops() { Finished? || Bad? }
    predicate Accepts() { EndLf? || Finished? }
  }

  /** `line` is the text since the line last began. */
  datatype Scanner = Scanner(at: Position, headers: map<string, string>, line: string)
  {
    function Feed(c: char): Scanner {
      match at
      case Start => if c == CR || c == LF then Go(Start, c) else Scanner(Key([c]), headers, [c])
      case Key(k) =>
        if c == ':' then Go(if k == [] then Bad else Colon(k), c)
        else if c == CR || c == LF then Go(Bad, c)
        else Go(Key(k + [c]), c)
      case Colon(k) => Go(if c == ' ' then SpacesAfterColon(k) else Bad, c)
      case SpacesAfterColon(k) => Go(Value(k, [c]), c)
      case Value(k, v) =>
        if c == CR then Go(if v == [] then Bad else SawCr(k, v), c)
        else Go(if |v| > 255 then Bad else Value(k, v + [c]), c)
      case SawCr(k, v) => if c == LF then Scanner(SawLf, headers[k := v], [c]) else Go(Bad, c)
      case SawLf => Go(if c == CR then EndCr else Key([c]), c)
      case EndCr => Go(if c == LF then EndLf else Bad, c)
      case _ => Go(Finished, c)
    }

    function Go(next: Position, c: char): Scanner { Scanner(next, headers, line + [c]) }
  }

  /** The scanner's final state and the text it has not looked at. */
  function Scan(s: Scanner, text: string): (Scanner, string)
    decreases |text|
  {
    if text == [] || s.at.Stops() then (s, text) else Scan(s.Feed(text[0]), text[1..])
  }

  /** What parseHeaders returns, leaves in the buffer, and makes of the headers. */
  datatype Outcome = Outcome(status: Status, buffer: string, headers: map<string, string>)

  function Conclude(end: (Scanner, string), text: string): Outcome {
    if end.0.at.Bad? then Outcome(Error, text, end.0.headers)
    else if end.0.at.Accepts() then Outcome(Success, end.1, end.0.headers)
    else Outcome(Again, end.0.line, end.0.headers)
  }

  function Parse(headers: map<string, string>, text: string): Outcome {
    Conclude(Scan(Scanner(Start, headers, []), text), text)
  }

  // ----- The language -----

  datatype Header = Header(key: string, value: string)

  predicate Lacks(s: string, chars: string) { forall i :: 0 <= i < |s| ==> s[i] !in chars }

  const NOT_IN_KEY := ":\r\n"

  /** A header field as the grammar has it, with the length bound the parser sets. */
  predicate WellFormed(h: Header) {
    && h.key != "" && Lacks(h.key, NOT_IN_KEY)
    && 1 <= |h.value| <= 256 && Lacks(h.value, "\r")
  }

  /** What the parser takes for a header: it does not look at the first character of a value, nor, beyond
      what the state before it looks at, at the first character of a key. */
  predicate Tolerated(h: Header, first: bool) {
    && h.key != "" && h.key[0] != CR && (first ==> h.key[0] != LF) && Lacks(h.key[1..], NOT_IN_KEY)
    && 1 <= |h.value| <= 256 && Lacks(h.value[1..], "\r")
  }

  predicate AllTolerated(hs: seq<Header>, first: bool) {
    hs == [] || (Tolerated(hs[0], first) && AllTolerated(hs[1..], false))
  }

  function Print(h: Header): string { h.key + ": " + h.value + "\r\n" }

  /** The headers and the blank line. */
  function Block(hs: seq<Header>): string {
    if hs == [] then "\r\n" else Print(hs[0]) + Block(hs[1..])
  }

  /** Later fields win. */
  function Store(m: map<string, string>, hs: seq<Header>): map<string, string>
    decreases |hs|
  {
    if hs == [] then m else Store(m[hs[0].key := hs[0].value], hs[1..])
  }

  predicate IsBlock(text: string, skip: string, hs: seq<Header>, body: string) {
    && text == skip + Block(hs) + body
    && (forall i :: 0 <= i < |skip| ==> skip[i] == CR || skip[i] == LF)
    && hs != [] && AllTolerated(hs, true)
  }

  // ----- From text to acceptance -----

  lemma {:induction false} ScanKey(s: Scanner, more: string, t: string) returns (line: string)
    requires s.at.Key? && s.at.key != [] && Lacks(more, NOT_IN_KEY)
    ensures Scan(s, more + ":" + t) == Scan(Scanner(Colon(s.at.key + more), s.headers, line), t)
    decreases |more|
  {
    var text := more + ":" + t;
    if more == [] {
      assert text[0] == ':' && text[1..] == t;
      assert s.at.key + more == s.at.key;
      line := s.Feed(':').line;
    } else {
      assert text[0] == more[0] && text[1..] == more[1..] + ":" + t;
      assert more[0] !in NOT_IN_KEY;
      assert NOT_IN_KEY[0] == ':' && NOT_IN_KEY[1] == CR && NOT_IN_KEY[2] == LF;
      line := ScanKey(s.Feed(more[0]), more[1..], t);
      assert s.at.key + [more[0]] + more[1..] == s.at.key + more;
    }
  }

  lemma {:induction false} ScanValue(s: Scanner, more: string, t: string) returns (line: string)
    requires s.at.Value? && s.at.value != [] && |s.at.value| + |more| <= 256 && Lacks(more, "\r")
    ensures Scan(s, more + "\r" + t) == Scan(Scanner(SawCr(s.at.key, s.at.value + more), s.headers, line), t)
    decreases |more|
  {
    var text := more + "\r" + t;
    if more == [] {
      assert text[0] == CR && text[1..] == t;
      assert s.at.value + more == s.at.value;
      line := s.Feed(CR).line;
    } else {
      assert text[0] == more[0] && text[1..] == more[1..] + "\r" + t;
      assert more[0] !in "\r" && "\r"[0] == CR;
      line := ScanValue(s.Feed(more[0]), more[1..], t);
      assert s.at.value + [more[0]] + more[1..] == s.at.value + more;
    }
  }

  lemma ScanHeader(s: Scanner, h: Header, t: string) returns (line: string)
    requires s.at.Start? || s.at.SawLf?
    requires Tolerated(h, s.at.Start?)
    ensures Scan(s, Print(h) + t) == Scan(Scanner(SawLf, s.headers[h.key := h.value], line), t)
  {
    var afterKey := " " + h.value + "\r\n" + t;
    var text := Print(h) + t;
    var s1 := s.Feed(h.key[0]);
    assert text[0] == h.key[0] && text[1..] == h.key[1..] + ":" + afterKey;
    assert Scan(s, text) == Scan(s1, text[1..]);
    line := ScanKey(s1, h.key[1..], afterKey);
    assert [h.key[0]] + h.key[1..] == h.key;
    var s2 := Scanner(Colon(h.key), s.headers, line);
    var s3 := s2.Feed(' ');
    assert afterKey[0] == ' ' && afterKey[1..][0] == h.value[0];
    assert afterKey[1..][1..] == h.value[1..] + "\r" + ("\n" + t);
    var s4 := s3.Feed(h.value[0]);
    assert Scan(s2, afterKey) == Scan(s3, afterKey[1..]) == Scan(s4, afterKey[1..][1..]);
    line := ScanValue(s4, h.value[1..], "\n" + t);
    assert [h.value[0]] + h.value[1..] == h.value;
    var s5 := Scanner(SawCr(h.key, h.value), s.headers, line);
    assert ("\n" + t)[0] == LF && ("\n" + t)[1..] == t;
    assert Scan(s5, "\n" + t) == Scan(s5.Feed(LF), t);
    line := s5.Feed(LF).line;
  }

  lemma {:induction false} ScanBlock(s: Scanner, hs: seq<Header>, body: string)
    requires s.at.SawLf? || (s.at.Start? && hs != [])
    requires AllTolerated(hs, s.at.Start?)
    ensures var (e, rest) := Scan(s, Block(hs) + body);
      e.at.Accepts() && e.headers == Store(s.headers, hs) && rest == if body == [] then [] else body[1..]
    decreases |hs|
  {
    if hs == [] {
      var text := Block(hs) + body;
      var s1 := s.Feed(CR);
      var s2 := s1.Feed(LF);
      assert text[0] == CR && text[1..][0] == LF && text[1..][1..] == body;
      assert Scan(s, text) == Scan(s1, text[1..]) == Scan(s2, body);
      if body != [] { assert Scan(s2, body) == Scan(s2.Feed(body[0]), body[1..]); }
    } else {
      assert Block(hs) + body == Print(hs[0]) + (Block(hs[1..]) + body);
      var line := ScanHeader(s, hs[0], Block(hs[1..]) + body);
      ScanBlock(Scanner(SawLf, s.headers[hs[0].key := hs[0].value], line), hs[1..], body);
    }
  }

  lemma {:induction false} ScanSkip(s: Scanner, skip: string, t: string) returns (line: string)
    requires s.at.Start? && forall i :: 0 <= i < |skip| ==> skip[i] == CR || skip[i] == LF
    ensures Scan(s, skip + t) == Scan(Scanner(Start, s.headers, line), t)
    decreases |skip|
  {
    if skip == [] {
      assert skip + t == t;
      line := s.line;
    } else {
      assert (skip + t)[0] == skip[0] && (skip + t)[1..] == skip[1..] + t;
      line := ScanSkip(s.Feed(skip[0]), skip[1..], t);
    }
  }

  /** A block is accepted, with its fields stored over the ones already there; what is left is the body
      without its first character. */
  lemma BlockIsAccepted(m: map<string, string>, text: string, skip: string, hs: seq<Header>, body: string)
    requires IsBlock(text, skip, hs, body)
    ensures Parse(m, text) == Outcome(Success, if body == [] then [] else body[1..], Store(m, hs))
  {
    assert text == skip + (Block(hs) + body);
    var line := ScanSkip(Scanner(Start, m, []), skip, Block(hs) + body);
    ScanBlock(Scanner(Start, m, line), hs, body);
  }

  lemma {:induction false} WellFormedIsTolerated(hs: seq<Header>, first: bool)
    requires forall i :: 0 <= i < |hs| ==> WellFormed(hs[i])
    ensures AllTolerated(hs, first)
    decreases |hs|
  {
    if hs != [] {
      assert WellFormed(hs[0]);
      assert hs[0].key[0] !in NOT_IN_KEY;
      assert NOT_IN_KEY[1] == CR && NOT_IN_KEY[2] == LF;
      forall i | 0 <= i < |hs[1..]|
        ensures WellFormed(hs[1..][i])
      {
        assert hs[1..][i] == hs[i + 1];
      }
      WellFormedIsTolerated(hs[1..], false);
    }
  }

  /** The round trip: printed headers are read back, later fields winning, and the whole block is consumed. */
  lemma PrintedHeadersParse(m: map<string, string>, skip: string, hs: seq<Header>)
    requires hs != [] && forall i :: 0 <= i < |hs| ==> WellFormed(hs[i])
    requires forall i :: 0 <= i < |skip| ==> skip[i] == CR || skip[i] == LF
    ensures Parse(m, skip + Block(hs)) == Outcome(Success, [], Store(m, hs))
  {
    WellFormedIsTolerated(hs, true);
    assert skip + Block(hs) == skip + Block(hs) + [];
    BlockIsAccepted(m, skip + Block(hs), skip, hs, []);
  }

  /** The stored value of a key is that of its last field. */
  lemma {:induction false} LastFieldWins(m: map<string, string>, hs: seq<Header>, i: nat)
    requires i < |hs| && forall j :: i < j < |hs| ==> hs[j].key != hs[i].key
    ensures hs[i].key in Store(m, hs) && Store(m, hs)[hs[i].key] == hs[i].value
    decreases |hs|
  {
    if i == 0 {
      Untouched(m[hs[0].key := hs[0].value], hs[1..], hs[0].key);
    } else {
      LastFieldWins(m[hs[0].key := hs[0].value], hs[1..], i - 1);
    }
  }

  lemma {:induction false} Untouched(m: map<string, string>, hs: seq<Header>, key: string)
    requires forall j :: 0 <= j < |hs| ==> hs[j].key != key
    ensures key in Store(m, hs) <==> key in m
    ensures key in m ==> Store(m, hs)[key] == m[key]
    decreases |hs|
  {
    if hs != [] { Untouched(m[hs[0].key := hs[0].value], hs[1..], key); }
  }

  // ----- From acceptance back to text -----

  predicate Accepted(s: Scanner, text: string) { Scan(s, text).0.at.Accepts() }

  /** A scan that accepts later does not fail now. */
  lemma Advance(s: Scanner, text: string)
    requires Accepted(s, text) && !s.at.Accepts()
    ensures text != [] && !s.at.Bad? && !s.Feed(text[0]).at.Bad?
    ensures Accepted(s.Feed(text[0]), text[1..]) && Scan(s, text) == Scan(s.Feed(text[0]), text[1..])
  {
    var s1 := s.Feed(text[0]);
    assert s1.at.Bad? ==> Scan(s1, text[1..]).0 == s1;
  }

  lemma {:induction false} UnscanSkip(s: Scanner, text: string) returns (skip: string, t: string, s': Scanner)
    requires s.at.Start? && Accepted(s, text)
    ensures text == skip + t && (forall i :: 0 <= i < |skip| ==> skip[i] == CR || skip[i] == LF)
    ensures t != [] && t[0] != CR && t[0] != LF
    ensures s'.at.Start? && Scan(s, text) == Scan(s', t)
    decreases |text|
  {
    if text[0] == CR || text[0] == LF {
      skip, t, s' := UnscanSkip(s.Feed(text[0]), text[1..]);
      skip := [text[0]] + skip;
    } else {
      skip, t, s' := [], text, s;
    }
  }

  lemma {:induction false} UnscanKey(s: Scanner, text: string) returns (more: string, t: string, s': Scanner)
    requires s.at.Key? && s.at.key != [] && Accepted(s, text)
    ensures text == more + ":" + t && Lacks(more, NOT_IN_KEY)
    ensures s'.at == Colon(s.at.key + more) && Scan(s, text) == Scan(s', t)
    decreases |text|
  {
    Advance(s, text);
    s' := s.Feed(text[0]);
    if text[0] == ':' {
      more, t := [], text[1..];
      assert s.at.key + more == s.at.key;
    } else {
      assert text[0] !in NOT_IN_KEY;
      more, t, s' := UnscanKey(s', text[1..]);
      assert s.at.key + [text[0]] + more == s.at.key + ([text[0]] + more);
      more := [text[0]] + more;
    }
  }

  lemma {:induction false} UnscanValue(s: Scanner, text: string) returns (more: string, t: string, s': Scanner)
    requires s.at.Value? && 1 <= |s.at.value| <= 256 && Accepted(s, text)
    ensures text == more + "\r" + t && Lacks(more, "\r") && |s.at.value| + |more| <= 256
    ensures s'.at == SawCr(s.at.key, s.at.value + more) && Scan(s, text) == Scan(s', t)
    decreases |text|
  {
    Advance(s, text);
    s' := s.Feed(text[0]);
    if text[0] == CR {
      more, t := [], text[1..];
      assert s.at.value + more == s.at.value;
    } else {
      more, t, s' := UnscanValue(s', text[1..]);
      assert s.at.value + [text[0]] + more == s.at.value + ([text[0]] + more);
      more := [text[0]] + more;
    }
  }

  lemma UnscanHeader(s: Scanner, text: string) returns (h: Header, t: string, s': Scanner)
    requires s.at.Start? || s.at.SawLf?
    requires text != [] && text[0] != CR && (s.at.Start? ==> text[0] != LF) && Accepted(s, text)
    ensures Tolerated(h, s.at.Start?) && text == Print(h) + t
    ensures s'.at.SawLf? && Scan(s, text) == Scan(s', t)
  {
    hide Scan;
    Advance(s, text);
    var moreKey, afterKey, s2 := UnscanKey(s.Feed(text[0]), text[1..]);
    var key := [text[0]] + moreKey;
    assert key[1..] == moreKey;
    Advance(s2, afterKey);
    var tail := afterKey[1..];
    Advance(s2.Feed(' '), tail);
    var moreValue, afterValue, s5 := UnscanValue(s2.Feed(' ').Feed(tail[0]), tail[1..]);
    var value := [tail[0]] + moreValue;
    assert value[1..] == moreValue;
    Advance(s5, afterValue);
    h, t, s' := Header(key, value), afterValue[1..], s5.Feed(LF);
    Reassemble(text, tail, afterKey, afterValue, h, t);
  }

  lemma Reassemble(text: string, tail: string, afterKey: string, afterValue: string, h: Header, t: string)
    requires text != [] && tail != [] && h.key != [] && h.value != []
    requires text == [h.key[0]] + text[1..] && text[1..] == h.key[1..] + ":" + afterKey && afterKey == " " + tail
    requires tail == [h.value[0]] + tail[1..] && tail[1..] == h.value[1..] + "\r" + afterValue && afterValue == "\n" + t
    ensures text == Print(h) + t
  {
    assert h.value == [h.value[0]] + h.value[1..] && h.key == [h.key[0]] + h.key[1..];
    assert tail == h.value + "\r\n" + t;
  }

  lemma {:induction false} UnscanBlock(s: Scanner, text: string) returns (hs: seq<Header>, body: string)
    requires s.at.SawLf? || (s.at.Start? && text != [] && text[0] != CR && text[0] != LF)
    requires Accepted(s, text)
    ensures text == Block(hs) + body && AllTolerated(hs, s.at.Start?) && (s.at.Start? ==> hs != [])
    decreases |text|
  {
    hide Scan;
    Advance(s, text);
    if s.at.SawLf? && text[0] == CR {
      Advance(s.Feed(CR), text[1..]);
      hs, body := [], text[2..];
      assert text == "\r\n" + body;
    } else {
      var h, t, s' := UnscanHeader(s, text);
      hs, body := UnscanBlock(s', t);
      assert Block([h] + hs) == Print(h) + Block(hs);
      hs := [h] + hs;
    }
  }

  /** The parser succeeds on exactly the blocks of tolerated headers, whatever follows the blank line, and
      its result is determined by the block. */
  lemma AcceptsExactlyBlocks(m: map<string, string>, text: string)
    ensures Parse(m, text).status.Success? <==> exists skip, hs, body :: IsBlock(text, skip, hs, body)
    ensures forall skip, hs, body :: IsBlock(text, skip, hs, body) ==>
      Parse(m, text) == Outcome(Success, if body == [] then [] else body[1..], Store(m, hs))
  {
    forall skip, hs, body | IsBlock(text, skip, hs, body)
      ensures Parse(m, text) == Outcome(Success, if body == [] then [] else body[1..], Store(m, hs))
    {
      BlockIsAccepted(m, text, skip, hs, body);
    }
    if Parse(m, text).status.Success? {
      var skip, t, s := UnscanSkip(Scanner(Start, m, []), text);
      var hs, body := UnscanBlock(s, t);
      assert text == skip + Block(hs) + body;
      assert IsBlock(text, skip, hs, body);
    }
  }

  // ----- The code -----

  datatype HState = H_START | H_KEY | H_COLON | H_SPACES_AFTER_COLON | H_VALUE | H_CR | H_LF | H_END_CR | H_END_LF

  /** parseHeaders' local indices. */
  datatype Indices = Indices(keyStart: int, keyEnd: int, valueStart: int, valueEnd: int, lineBegin: int)

  /** The indices delimit in `text[..i]` what the scanner has collected. */
  predicate Matches(s: Scanner, h: HState, x: Indices, text: string, i: nat)
    requires i <= |text|
  {
    && (0 <= x.lineBegin <= i && !s.at.Stops() ==> s.line == text[x.lineBegin..i])
    && 0 <= x.lineBegin <= i
    && match s.at
       case Start => h == H_START
       case Key(k) => h == H_KEY && 0 <= x.keyStart < i && k == text[x.keyStart..i]
       case Colon(k) => h == H_COLON && HasKey(k, x, text, i)
       case SpacesAfterColon(k) => h == H_SPACES_AFTER_COLON && HasKey(k, x, text, i)
       case Value(k, v) => h == H_VALUE && HasKey(k, x, text, i) && 0 <= x.valueStart < i && v == text[x.valueStart..i]
       case SawCr(k, v) =>
         h == H_CR && HasKey(k, x, text, i) && 0 <= x.valueStart < x.valueEnd < i && v == text[x.valueStart..x.valueEnd]
       case SawLf => h == H_LF
       case EndCr => h == H_END_CR
       case EndLf => h == H_END_LF
       case Finished => h == H_END_LF
       case Bad => true
  }

  predicate HasKey(k: string, x: Indices, text: string, i: nat)
    requires i <= |text|
  {
    0 <= x.keyStart < x.keyEnd < i && k == text[x.keyStart..x.keyEnd]
  }

  class HttpHeaders {
    var inBuffer: string
    var hState: HState
    var headers: map<string, string>

    constructor (inBuffer: string)
      ensures this.inBuffer == inBuffer && hState == H_START && headers == map[]
    {
      this.inBuffer, hState, headers := inBuffer, H_START, map[];
    }

    /** One turn of the switch. */
    method Step(str: string, i: nat, x: Indices, ghost s: Scanner) returns (x': Indices, notFinish: bool, failed: bool)
      requires i < |str| && Matches(s, hState, x, str, i) && !s.at.Stops() && s.headers == headers
      modifies this`hState, this`headers
      ensures failed <==> s.Feed(str[i]).at.Bad?
      ensures notFinish <==> !s.Feed(str[i]).at.Finished?
      ensures !failed ==> Matches(s.Feed(str[i]), hState, x', str, i + 1)
      ensures headers == s.Feed(str[i]).headers
    {
      var c := str[i];
      x', notFinish, failed := x, true, false;
      ghost var lb := x.lineBegin;
      assert str[lb..i] + [c] == str[lb..i + 1] && [c] == str[i..i + 1];
      match hState {
        case H_START =>
          if c != CR && c != LF {
            hState := H_KEY;
            x' := x.(keyStart := i, lineBegin := i);
          }
        case H_KEY =>
          assert str[x.keyStart..i] + [c] == str[x.keyStart..i + 1];
          if c == ':' {
            x' := x.(keyEnd := i);
            if x'.keyEnd - x'.keyStart <= 0 { return x', true, true; }
            hState := H_COLON;
          } else if c == LF || c == CR {
            return x', true, true;
          }
        case H_COLON =>
          if c == ' ' {
            hState := H_SPACES_AFTER_COLON;
          } else {
            return x', true, true;
          }
        case H_SPACES_AFTER_COLON =>
          hState := H_VALUE;
          x' := x.(valueStart := i);
        case H_VALUE =>
          assert str[x.valueStart..i] + [c] == str[x.valueStart..i + 1];
          if c == CR {
            hState := H_CR;
            x' := x.(valueEnd := i);
            if x'.valueEnd - x'.valueStart <= 0 { return x', true, true; }
          } else if i - x.valueStart > 255 {
            return x', true, true;
          }
        case H_CR =>
          if c == LF {
            hState := H_LF;
            var key, value := str[x.keyStart..x.keyEnd], str[x.valueStart..x.valueEnd];
            headers := headers[key := value];
            x' := x.(lineBegin := i);
          } else {
            return x', true, true;
          }
        case H_LF =>
          if c == CR {
            hState := H_END_CR;
          } else {
            x' := x.(keyStart := i);
            hState := H_KEY;
          }
        case H_END_CR =>
          if c == LF {
            hState := H_END_LF;
          } else {
            return x', true, true;
          }
        case H_END_LF =>
          notFinish := false;
          x' := x.(keyStart := i, lineBegin := i);
      }
    }

    /** parseHeaders, from the start of a block.  The switch turns once more on the character after the
        blank line, which is how that character gets lost. */
    method ParseHeaders() returns (status: Status)
      requires hState == H_START
      modifies this
      ensures Outcome(status, inBuffer, headers) == Parse(old(headers), old(inBuffer))
    {
      var str := inBuffer;
      var x := Indices(-1, -1, -1, -1, 0);
      var notFinish, failed := true, false;
      var i := 0;
      ghost var s := Scanner(Start, headers, []);
      while i < |str| && notFinish
        invariant 0 <= i <= |str| && inBuffer == str == old(inBuffer)
        invariant Matches(s, hState, x, str, i) && !s.at.Bad? && s.headers == headers
        invariant notFinish <==> !s.at.Finished?
        invariant Scan(s, str[i..]) == Scan(Scanner(Start, old(headers), []), str)
      {
        ghost var next := s.Feed(str[i]);
        x, notFinish, failed := Step(str, i, x, s);
        if failed {
          return Error;
        }
        s := next;
        i := i + 1;
      }
      if hState == H_END_LF {
        inBuffer := str[i..];
        return Success;
      }
      inBuffer := str[x.lineBegin..];
      return Again;
    }
  }
}
