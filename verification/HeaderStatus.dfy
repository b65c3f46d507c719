/**
  What the header parser's answers mean: success for a block, AGAIN for the beginning of one, ERROR for what no
  input can complete; and what it leaves in the buffer.
 */
module HeaderStatus {
  import opened Headers

  /** A block of headers, with anything after it. */
  ghost predicate InLanguage(text: string) {
    exists skip, hs, body :: IsBlock(text, skip, hs, body)
  }

  ghost predicate CanBeCompleted(text: string) {
    exists more :: InLanguage(text + more)
  }

  function Lines(hs: seq<Header>): string {
    if hs == [] then "" else Print(hs[0]) + Lines(hs[1..])
  }

  /** No header line is complete here. */
  ghost predicate NoLine(open: string, first: bool) {
    forall h :: Tolerated(h, first) ==> !(Print(h) <= open)
  }

  predicate LineEnds(skip: string) { forall i :: 0 <= i < |skip| ==> skip[i] == CR || skip[i] == LF }

  /** Complete header lines, and the beginning of another one or of the blank line. */
  ghost predicate IsOpen(text: string, skip: string, hs: seq<Header>, open: string) {
    && text == skip + Lines(hs) + open && LineEnds(skip) && AllTolerated(hs, true) && NoLine(open, hs == [])
    && (hs == [] && open != "" ==> open[0] != CR && open[0] != LF)
  }

  /** What is kept of it: all from the line feed that ends the last complete line, or from the first line's
      beginning, or everything if none has begun. */
  function Rest(skip: string, hs: seq<Header>, open: string): string {
    if hs != [] then "\n" + open else if open != "" then open else skip
  }

  // ----- How far the scanner has got -----

  predicate KeyOk(k: string, first: bool) {
    k != "" && k[0] != CR && (first ==> k[0] != LF) && Lacks(k[1..], NOT_IN_KEY)
  }

  predicate ValueOk(v: string) { 1 <= |v| <= 256 && Lacks(v[1..], "\r") }

  predicate OpenAt(p: Position, first: bool, open: string) {
    match p
    case Start => first && open == ""
    case Key(k) => KeyOk(k, first) && open == k
    case Colon(k) => KeyOk(k, first) && open == k + ":"
    case SpacesAfterColon(k) => KeyOk(k, first) && open == k + ": "
    case Value(k, v) => KeyOk(k, first) && ValueOk(v) && open == k + ": " + v
    case SawCr(k, v) => KeyOk(k, first) && ValueOk(v) && open == k + ": " + v + "\r"
    case SawLf => !first && open == ""
    case EndCr => !first && open == "\r"
    case _ => false
  }

  predicate Reached(s: Scanner, m: map<string, string>, skip: string, hs: seq<Header>, open: string) {
    && LineEnds(skip) && AllTolerated(hs, true)
    && s.headers == Store(m, hs) && s.line == Rest(skip, hs, open) && OpenAt(s.at, hs == [], open)
  }

  lemma {:induction false} OneMoreHeader(m: map<string, string>, hs: seq<Header>, h: Header, first: bool)
    requires AllTolerated(hs, first) && Tolerated(h, first && hs == [])
    ensures AllTolerated(hs + [h], first) && Store(m, hs + [h]) == Store(m, hs)[h.key := h.value]
    ensures Lines(hs + [h]) == Lines(hs) + Print(h)
    decreases |hs|
  {
    hide Tolerated, Print;
    if hs == [] {
      assert (hs + [h])[1..] == [];
      assert Print(h) + "" == Print(h);
    } else {
      assert (hs + [h])[1..] == hs[1..] + [h] && (hs + [h])[0] == hs[0];
      OneMoreHeader(m[hs[0].key := hs[0].value], hs[1..], h, false);
    }
  }

  lemma LacksOneMore(s: string, chars: string, c: char)
    requires Lacks(s, chars) && c !in chars
    ensures Lacks(s + [c], chars)
  {
  }

  lemma FeedKey(k: string, first: bool, c: char)
    requires KeyOk(k, first) && c != ':' && c != CR && c != LF
    ensures KeyOk(k + [c], first)
  {
    assert (k + [c])[1..] == k[1..] + [c] && (k + [c])[0] == k[0];
    LacksOneMore(k[1..], NOT_IN_KEY, c);
  }

  lemma FeedValue(v: string, c: char)
    requires ValueOk(v) && |v| <= 255 && c != CR
    ensures ValueOk(v + [c])
  {
    assert (v + [c])[1..] == v[1..] + [c];
    LacksOneMore(v[1..], "\r", c);
  }

  /** One more character within a line. */
  lemma FeedOpen(s: Scanner, c: char, first: bool, open: string)
    requires OpenAt(s.at, first, open) && !s.at.Start? && !s.at.SawCr?
    requires !s.Feed(c).at.Bad? && !s.Feed(c).at.Accepts()
    ensures OpenAt(s.Feed(c).at, first, open + [c])
    ensures s.Feed(c).headers == s.headers && s.Feed(c).line == s.line + [c]
  {
    hide KeyOk, ValueOk;
    match s.at {
      case Key(k) =>
        if c != ':' { FeedKey(k, first, c); }
      case SpacesAfterColon(k) =>
        FirstOf(c);
      case Value(k, v) =>
        if c != CR {
          FeedValue(v, c);
          assert k + ": " + v + [c] == k + ": " + (v + [c]);
        }
      case SawLf =>
        FirstOf(c);
        assert open + [c] == [c];
      case _ =>
    }
  }

  lemma FirstOf(c: char)
    ensures ValueOk([c]) && (c != CR ==> KeyOk([c], false)) && (c != CR && c != LF ==> KeyOk([c], true))
  {
    assert [c][1..] == "";
  }

  /** One more character. */
  lemma FeedReached(s: Scanner, c: char, m: map<string, string>, skip: string, hs: seq<Header>, open: string)
    returns (skip': string, hs': seq<Header>, open': string)
    requires Reached(s, m, skip, hs, open) && !s.Feed(c).at.Bad? && !s.Feed(c).at.Accepts()
    ensures Reached(s.Feed(c), m, skip', hs', open')
    ensures skip' + Lines(hs') + open' == skip + Lines(hs) + open + [c]
  {
    hide Store, Lines, AllTolerated, ValueOk;
    skip', hs', open' := skip, hs, open + [c];
    if s.at.Start? {
      NoLines(hs);
      if c == CR || c == LF {
        skip', open' := skip + [c], "";
      } else {
        FirstOf(c);
        assert open' == [c];
      }
    } else if s.at.SawCr? {
      hs', open' := FeedLf(s, c, m, skip, hs, open);
    } else {
      FeedOpen(s, c, hs == [], open);
      assert hs != [] ==> "\n" + open + [c] == "\n" + (open + [c]);
    }
    assert skip + Lines(hs) + (open + [c]) == skip + Lines(hs) + open + [c];
  }

  /** The line feed that completes a header line. */
  lemma FeedLf(s: Scanner, c: char, m: map<string, string>, skip: string, hs: seq<Header>, open: string)
    returns (hs': seq<Header>, open': string)
    requires Reached(s, m, skip, hs, open) && s.at.SawCr? && !s.Feed(c).at.Bad?
    ensures Reached(s.Feed(c), m, skip, hs', open')
    ensures skip + Lines(hs') + open' == skip + Lines(hs) + open + [c]
  {
    hide Store, Lines, AllTolerated, KeyOk, ValueOk;
    var h := Header(s.at.key, s.at.value);
    IsTolerated(h, hs == []);
    OneMoreHeader(m, hs, h, true);
    hs', open' := hs + [h], "";
    assert Print(h) == open + [c];
    assert skip + (Lines(hs) + Print(h)) + "" == skip + Lines(hs) + open + [c];
    assert "\n" + "" == [c];
  }

  lemma NoLines(hs: seq<Header>)
    ensures hs == [] ==> Lines(hs) == ""
  {
  }

  lemma IsTolerated(h: Header, first: bool)
    requires KeyOk(h.key, first) && ValueOk(h.value)
    ensures Tolerated(h, first)
  {
  }

  lemma {:induction false} ScanReaches(s: Scanner, text: string, m: map<string, string>, skip: string, hs: seq<Header>, open: string)
    returns (skip': string, hs': seq<Header>, open': string)
    requires Reached(s, m, skip, hs, open)
    requires var e := Scan(s, text).0; !e.at.Bad? && !e.at.Accepts()
    ensures Reached(Scan(s, text).0, m, skip', hs', open')
    ensures skip' + Lines(hs') + open' == skip + Lines(hs) + open + text
    decreases |text|
  {
    hide Reached, Lines, Scanner.Feed;
    if text == "" {
      skip', hs', open' := skip, hs, open;
      assert skip + Lines(hs) + open + text == skip + Lines(hs) + open;
    } else {
      var t := s.Feed(text[0]);
      NotStopped(s, m, skip, hs, open);
      Settles(t, text[1..]);
      var skip1, hs1, open1 := FeedReached(s, text[0], m, skip, hs, open);
      skip', hs', open' := ScanReaches(t, text[1..], m, skip1, hs1, open1);
      assert skip + Lines(hs) + open + [text[0]] + text[1..] == skip + Lines(hs) + open + text;
    }
  }

  lemma NotStopped(s: Scanner, m: map<string, string>, skip: string, hs: seq<Header>, open: string)
    requires Reached(s, m, skip, hs, open)
    ensures !s.at.Stops() && !s.at.Accepts()
  {
  }

  /** A scanner that has failed or accepted does not take that back. */
  lemma {:induction false} Settles(s: Scanner, text: string)
    ensures s.at.Bad? ==> Scan(s, text).0 == s
    ensures s.at.Accepts() ==> Scan(s, text).0.at.Accepts()
  {
    if s.at.EndLf? && text != "" {
      assert s.Feed(text[0]).at.Finished?;
    }
  }

  // ----- What can still become of it -----

  /** Whatever the scanner has not refused can be completed. */
  lemma Completion(s: Scanner, m: map<string, string>, skip: string, hs: seq<Header>, open: string)
    requires Reached(s, m, skip, hs, open)
    ensures CanBeCompleted(skip + Lines(hs) + open)
  {
    var text := skip + Lines(hs) + open;
    match s.at {
      case Start => Complete(skip, hs, open, Header("k", "v"), "k: v\r\n\r\n");
      case Key(k) => Complete(skip, hs, open, Header(k, "v"), ": v\r\n\r\n");
      case Colon(k) => Complete(skip, hs, open, Header(k, "v"), " v\r\n\r\n");
      case SpacesAfterColon(k) => Complete(skip, hs, open, Header(k, "v"), "v\r\n\r\n");
      case Value(k, v) => Complete(skip, hs, open, Header(k, v), "\r\n\r\n");
      case SawCr(k, v) => Complete(skip, hs, open, Header(k, v), "\n\r\n");
      case SawLf => Finish(skip, hs, open, "\r\n");
      case EndCr => Finish(skip, hs, open, "\n");
    }
  }

  lemma Complete(skip: string, hs: seq<Header>, open: string, h: Header, more: string)
    requires LineEnds(skip) && AllTolerated(hs, true) && Tolerated(h, hs == []) && open + more == Print(h) + "\r\n"
    ensures CanBeCompleted(skip + Lines(hs) + open)
  {
    hide AllTolerated, Tolerated, Lines, Print;
    OneMoreHeader(map[], hs, h, true);
    BlockIsLines(hs + [h]);
    assert skip + Lines(hs) + open + more == skip + Lines(hs) + (open + more);
    assert skip + Lines(hs) + (Print(h) + "\r\n") == skip + Block(hs + [h]) + "";
    assert IsBlock(skip + Lines(hs) + open + more, skip, hs + [h], "");
  }

  lemma Finish(skip: string, hs: seq<Header>, open: string, more: string)
    requires LineEnds(skip) && AllTolerated(hs, true) && hs != [] && open + more == "\r\n"
    ensures CanBeCompleted(skip + Lines(hs) + open)
  {
    hide AllTolerated, Lines;
    BlockIsLines(hs);
    assert skip + Lines(hs) + open + more == skip + Lines(hs) + (open + more);
    assert skip + Lines(hs) + "\r\n" == skip + Block(hs) + "";
    assert IsBlock(skip + Lines(hs) + open + more, skip, hs, "");
  }

  lemma {:induction false} BlockIsLines(hs: seq<Header>)
    ensures Block(hs) == Lines(hs) + "\r\n"
    decreases |hs|
  {
    if hs != [] {
      hide Print;
      BlockIsLines(hs[1..]);
      assert Print(hs[0]) + (Lines(hs[1..]) + "\r\n") == Print(hs[0]) + Lines(hs[1..]) + "\r\n";
    } else {
      assert "" + "\r\n" == "\r\n";
    }
  }

  // ----- No line is complete in what is open -----

  /** Where the colon of a printed header is, its key ends. */
  lemma KeyEnds(h: Header, k: string, rest: string, first: bool)
    requires Tolerated(h, first) && KeyOk(k, first) && Print(h) <= k + ":" + rest
    ensures |h.key| == |k|
  {
    var open := k + ":" + rest;
    assert Print(h)[|h.key|] == ':' && open[|h.key|] == ':';
    assert open[|k|] == ':';
    assert ':' == NOT_IN_KEY[0];
  }

  /** And where its carriage return is, its value does. */
  lemma ValueEnds(h: Header, k: string, v: string, rest: string, first: bool)
    requires Tolerated(h, first) && KeyOk(k, first) && ValueOk(v) && Print(h) <= k + ": " + v + rest
    ensures |v| <= |h.value|
  {
    var open := k + ": " + v + rest;
    assert open == k + ":" + (" " + v + rest);
    KeyEnds(h, k, " " + v + rest, first);
    assert Print(h)[|h.key| + 2 + |h.value|] == CR;
  }

  lemma OpenHasNoLine(p: Position, first: bool, open: string)
    requires OpenAt(p, first, open)
    ensures NoLine(open, first)
  {
    forall h | Tolerated(h, first)
      ensures !(Print(h) <= open)
    {
      NoLineHere(p, first, open, h);
    }
  }

  lemma NoLineHere(p: Position, first: bool, open: string, h: Header)
    requires OpenAt(p, first, open) && Tolerated(h, first)
    ensures !(Print(h) <= open)
  {
    assert |Print(h)| == |h.key| + |h.value| + 4;
    if Print(h) <= open {
      match p {
        case Key(k) => KeyIsOpen(h, k, first);
        case Colon(k) => KeyEnds(h, k, "", first);
        case SpacesAfterColon(k) =>
          assert open == k + ":" + " ";
          KeyEnds(h, k, " ", first);
        case Value(k, v) =>
          assert open == k + ": " + v + "" && open == k + ":" + (" " + v);
          KeyEnds(h, k, " " + v, first);
          ValueEnds(h, k, v, "", first);
        case SawCr(k, v) =>
          assert open == k + ":" + (" " + v + "\r");
          KeyEnds(h, k, " " + v + "\r", first);
          ValueEnds(h, k, v, "\r", first);
        case _ =>
      }
      assert false;
    }
  }

  lemma KeyIsOpen(h: Header, k: string, first: bool)
    requires Tolerated(h, first) && KeyOk(k, first)
    ensures !(Print(h) <= k)
  {
    assert ':' == NOT_IN_KEY[0] && Print(h)[|h.key|] == ':';
    assert |h.key| < |k| ==> k[1..][|h.key| - 1] == k[|h.key|];
  }

  // ----- The three answers -----

  /** An error is for good: nothing can be added that is accepted. */
  lemma {:induction false} FailedForGood(s: Scanner, text: string, more: string)
    requires Scan(s, text).0.at.Bad?
    ensures Scan(s, text + more).0.at.Bad?
    decreases |text|
  {
    if text != "" && !s.at.Stops() {
      assert (text + more)[0] == text[0] && (text + more)[1..] == text[1..] + more;
      FailedForGood(s.Feed(text[0]), text[1..], more);
    } else {
      Settles(s, text + more);
    }
  }

  /** Success means that the text begins with a block; AGAIN that it does not, but something can be added so that it
      does; ERROR that nothing can.  After an error everything stays in the buffer; after AGAIN the text from the
      beginning of the last line on, and the headers of the complete lines are stored. */
  lemma ThreeAnswers(m: map<string, string>, text: string)
    ensures var o := Parse(m, text);
      && (o.status.Success? <==> InLanguage(text))
      && (o.status.Again? <==> !InLanguage(text) && CanBeCompleted(text))
      && (o.status.Error? <==> !CanBeCompleted(text))
      && (o.status.Error? ==> o.buffer == text)
      && (o.status.Again? ==> exists skip, hs, open ::
            IsOpen(text, skip, hs, open) && o.buffer == Rest(skip, hs, open) && o.headers == Store(m, hs))
  {
    hide Scan, IsBlock, NoLine;
    AcceptsExactlyBlocks(m, text);
    var s := Scanner(Start, m, "");
    assert text + "" == text;
    match Parse(m, text).status {
      case Success =>
      case Error =>
        forall more
          ensures !InLanguage(text + more)
        {
          FailedForGood(s, text, more);
          AcceptsExactlyBlocks(m, text + more);
        }
      case Again =>
        FreshStart(m);
        var skip, hs, open := ScanReaches(s, text, m, "", [], "");
        var e := Scan(s, text).0;
        assert "" + Lines([]) + "" + text == text;
        Completion(e, m, skip, hs, open);
        OpenHasNoLine(e.at, hs == [], open);
        BeginsALine(e.at, hs == [], open);
        assert IsOpen(text, skip, hs, open);
    }
  }

  lemma FreshStart(m: map<string, string>)
    ensures Reached(Scanner(Start, m, ""), m, "", [], "")
  {
  }

  lemma BeginsALine(p: Position, first: bool, open: string)
    requires OpenAt(p, first, open)
    ensures first && open != "" ==> open[0] != CR && open[0] != LF
  {
  }
}
