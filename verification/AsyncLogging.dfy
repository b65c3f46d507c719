/**
  The double-buffered logger: any number of threads append lines to a large buffer under a mutex;
  one writer thread takes the full buffers away, writes them out without the mutex, gives up all
  but two buffers of an overlong batch, and recycles two buffers as spares.

  Methods are critical sections and steps of the writer; between them other threads may append,
  which ThreadFunc at the end makes explicit.  The class invariant is therefore what holds in
  every reachable state.
 */
module AsyncLogging {
  import opened Buffers
  import opened AppendFiles

  type Line = string

  /** The lines in one buffer; the buffers of one batch. */
  type Chunk = seq<Line>
  type Batch = seq<Chunk>

  function Join(lines: seq<Line>): string {
    if lines == [] then "" else lines[0] + Join(lines[1..])
  }

  function Flat(batch: Batch): seq<Line> {
    if batch == [] then [] else batch[0] + Flat(batch[1..])
  }

  lemma {:induction false} JoinConcat(a: seq<Line>, b: seq<Line>)
    ensures Join(a + b) == Join(a) + Join(b)
  {
    if a == [] {
      assert a + b == b;
    } else {
      assert (a + b)[1..] == a[1..] + b;
      JoinConcat(a[1..], b);
    }
  }

  lemma {:induction false} FlatConcat(a: Batch, b: Batch)
    ensures Flat(a + b) == Flat(a) + Flat(b)
  {
    if a == [] {
      assert a + b == b;
    } else {
      assert (a + b)[1..] == a[1..] + b;
      FlatConcat(a[1..], b);
    }
  }

  lemma Empty()
    ensures Join([]) == "" && Flat([]) == [] && AllLines([]) == [] && KeptLines([]) == []
  {
  }

  lemma JoinOneMore(a: seq<Line>, line: Line)
    ensures Join(a + [line]) == Join(a) + line
  {
    JoinConcat(a, [line]);
    assert [line][1..] == [];
  }

  lemma FlatOneMore(a: Batch, chunk: Chunk)
    ensures Flat(a + [chunk]) == Flat(a) + chunk
  {
    FlatConcat(a, [chunk]);
    assert [chunk][1..] == [];
  }

  // ----- What reaches the file -----

  const OVERLOAD: nat := 25

  /** The buffers of a batch that get written: of a batch of more than 25, only the first two. */
  function Kept(batch: Batch): Batch {
    if |batch| > OVERLOAD then batch[..2] else batch
  }

  function AllLines(batches: seq<Batch>): seq<Line> {
    if batches == [] then [] else Flat(batches[0]) + AllLines(batches[1..])
  }

  function KeptLines(batches: seq<Batch>): seq<Line> {
    if batches == [] then [] else Flat(Kept(batches[0])) + KeptLines(batches[1..])
  }

  /** The lines given up: those of the third and later buffers of the overlong batches. */
  function GivenUp(batches: seq<Batch>): seq<Line> {
    if batches == [] then []
    else (if |batches[0]| > OVERLOAD then Flat(batches[0][2..]) else []) + GivenUp(batches[1..])
  }

  lemma {:induction false} LinesConcat(a: seq<Batch>, b: Batch)
    ensures AllLines(a + [b]) == AllLines(a) + Flat(b)
    ensures KeptLines(a + [b]) == KeptLines(a) + Flat(Kept(b))
  {
    if a == [] {
      assert a + [b] == [b] && [b][1..] == [];
    } else {
      assert (a + [b])[1..] == a[1..] + [b];
      LinesConcat(a[1..], b);
    }
  }

  /** `b` with some elements left out. */
  predicate Subsequence<T(==)>(a: seq<T>, b: seq<T>)
    decreases |b|
  {
    a == [] || (b != [] && ((a[0] == b[0] && Subsequence(a[1..], b[1..])) || Subsequence(a, b[1..])))
  }

  lemma {:induction false} SubsequenceAppend<T>(p: seq<T>, a: seq<T>, b: seq<T>)
    requires Subsequence(a, b)
    ensures Subsequence(p + a, p + b)
    decreases |p|
  {
    if p == [] {
      assert p + a == a && p + b == b;
    } else {
      assert (p + a)[1..] == p[1..] + a && (p + b)[1..] == p[1..] + b;
      SubsequenceAppend(p[1..], a, b);
    }
  }

  lemma {:induction false} SubsequenceSkip<T>(q: seq<T>, a: seq<T>, b: seq<T>)
    requires Subsequence(a, b)
    ensures Subsequence(a, q + b)
    decreases |q|
  {
    if q == [] {
      assert q + b == b;
    } else {
      assert (q + b)[1..] == q[1..] + b;
      SubsequenceSkip(q[1..], a, b);
    }
  }

  lemma SubsequenceStep<T>(p: seq<T>, q: seq<T>, a: seq<T>, b: seq<T>)
    requires Subsequence(a, b)
    ensures Subsequence(p + a, (p + q) + b)
  {
    hide Subsequence;
    SubsequenceSkip(q, a, b);
    SubsequenceAppend(p, a, q + b);
    assert p + (q + b) == (p + q) + b;
  }

  lemma {:induction false} SubsequenceSuffix<T>(a: seq<T>, b: seq<T>, s: seq<T>)
    requires Subsequence(a, b)
    ensures Subsequence(a + s, b + s)
    decreases |b|
  {
    if a == [] {
      SubsequenceAppend(s, [], []);
      assert s + [] == s && a + s == s;
      SubsequenceSkip(b, s, s);
    } else {
      assert (b + s)[1..] == b[1..] + s && (a + s)[1..] == a[1..] + s;
      if a[0] == b[0] && Subsequence(a[1..], b[1..]) {
        SubsequenceSuffix(a[1..], b[1..], s);
      } else {
        SubsequenceSuffix(a, b[1..], s);
      }
    }
  }

  /** What is written keeps the order of what was appended. */
  lemma {:induction false} WrittenInOrder(batches: seq<Batch>)
    ensures Subsequence(KeptLines(batches), AllLines(batches))
  {
    if batches != [] {
      hide Subsequence, Flat;
      var b, rest := batches[0], batches[1..];
      WrittenInOrder(rest);
      KeptAndDropped(b);
      SubsequenceStep(Flat(Kept(b)), if |b| > OVERLOAD then Flat(b[2..]) else [], KeptLines(rest), AllLines(rest));
    }
  }

  lemma KeptAndDropped(b: Batch)
    ensures Flat(b) == Flat(Kept(b)) + if |b| > OVERLOAD then Flat(b[2..]) else []
  {
    hide Flat;
    if |b| > OVERLOAD {
      FlatConcat(b[..2], b[2..]);
      assert b == b[..2] + b[2..];
    }
  }

  predicate Overlong(batches: seq<Batch>) {
    exists i :: 0 <= i < |batches| && |batches[i]| > OVERLOAD && Flat(batches[i][2..]) != []
  }

  /** Lines are missing if and only if an overlong batch had lines beyond its second buffer; as many
      are missing as those buffers held. */
  lemma {:induction false} MissingLines(batches: seq<Batch>)
    ensures |AllLines(batches)| == |KeptLines(batches)| + |GivenUp(batches)|
    ensures GivenUp(batches) != [] <==> Overlong(batches)
    ensures !Overlong(batches) ==> KeptLines(batches) == AllLines(batches)
  {
    if batches != [] {
      var rest := batches[1..];
      MissingLines(rest);
      KeptAndDropped(batches[0]);
      if Overlong(rest) {
        var i :| 0 <= i < |rest| && |rest[i]| > OVERLOAD && Flat(rest[i][2..]) != [];
        assert batches[i + 1] == rest[i];
      }
      if Overlong(batches) {
        var i :| 0 <= i < |batches| && |batches[i]| > OVERLOAD && Flat(batches[i][2..]) != [];
        assert i > 0 ==> batches[i] == rest[i - 1];
      }
    }
  }

  // ----- Where the lines are -----

  /** Every line appended, by where it is: in the batches dealt with, in the batch the writer has
      taken, in the queued buffers, in the current buffer. */
  datatype History = History(done: seq<Batch>, batch: Batch, queued: Batch, current: Chunk)
  {
    function Lines(): seq<Line> { AllLines(done) + Flat(batch) + Flat(queued) + current }

    /** The lines written when the first i buffers of the writer's batch are. */
    function Written(i: nat): seq<Line>
      requires i <= |Kept(batch)|
    {
      KeptLines(done) + Flat(Kept(batch)[..i])
    }

    /** The lines that have reached the file or will. */
    function Surviving(): seq<Line> {
      KeptLines(done) + Flat(Kept(batch)) + Flat(queued) + current
    }

    function Add(line: Line): History { this.(current := current + [line]) }
    function Rotate(): History { this.(queued := queued + [current], current := []) }
    function Swap(): History { this.(batch := queued + [current], queued := [], current := []) }
    function Retire(): History { this.(done := done + [batch], batch := []) }
  }

  lemma MovesKeepLines(h: History)
    ensures h.Rotate().Lines() == h.Lines()
    ensures h.batch == [] ==> h.Swap().Lines() == h.Lines()
    ensures h.Retire().Lines() == h.Lines()
  {
    hide Flat, AllLines, KeptLines;
    FlatOneMore(h.queued, h.current);
    LinesConcat(h.done, h.batch);
    Empty();
  }

  lemma AddKeepsLines(h: History, line: Line)
    ensures h.Add(line).Lines() == h.Lines() + [line]
  {
    hide Flat, AllLines, KeptLines;
  }

  lemma WrittenGrows(h: History, i: nat)
    requires i < |Kept(h.batch)|
    ensures Join(h.Written(i + 1)) == Join(h.Written(i)) + Join(Kept(h.batch)[i])
  {
    hide Flat, AllLines, KeptLines, Join;
    var kept := Kept(h.batch);
    assert kept[..i + 1] == kept[..i] + [kept[i]];
    FlatOneMore(kept[..i], kept[i]);
    assert h.Written(i + 1) == h.Written(i) + kept[i];
    JoinConcat(h.Written(i), kept[i]);
  }

  lemma WrittenTurns(h: History)
    ensures h.batch == [] ==> h.Swap().Written(0) == h.Written(0)
    ensures h.Retire().Written(0) == h.Written(|Kept(h.batch)|)
  {
    hide Flat, AllLines, KeptLines;
    Empty();
    LinesConcat(h.done, h.batch);
    assert Kept(h.batch)[..|Kept(h.batch)|] == Kept(h.batch);
  }

  /** Of everything ever appended, what has reached the file or still will is all of it, in order and
      line by line, but for the lines given up, which are exactly those beyond the second buffer of
      the overlong batches. */
  lemma SurvivingLines(h: History)
    ensures Subsequence(h.Surviving(), h.Lines())
    ensures |h.Lines()| == |h.Surviving()| + |GivenUp(h.done + [h.batch])|
    ensures !Overlong(h.done + [h.batch]) <==> h.Surviving() == h.Lines()
  {
    hide Subsequence, Flat, AllLines, KeptLines, GivenUp, Overlong;
    LinesConcat(h.done, h.batch);
    var batches := h.done + [h.batch];
    WrittenInOrder(batches);
    MissingLines(batches);
    var s := Flat(h.queued) + h.current;
    SubsequenceSuffix(KeptLines(batches), AllLines(batches), s);
    assert h.Lines() == AllLines(batches) + s;
    assert h.Surviving() == KeptLines(batches) + s;
  }

  /** The characters written, and those waiting in the rest of the batch, in the queued buffers and in
      the current one, are together the surviving lines. */
  lemma SurvivingText(h: History, i: nat)
    requires i <= |Kept(h.batch)|
    ensures Join(h.Written(i)) + Join(Flat(Kept(h.batch)[i..])) + Join(Flat(h.queued)) + Join(h.current) == Join(h.Surviving())
  {
    hide Join, Flat, AllLines, KeptLines, Kept;
    var kept := Kept(h.batch);
    assert kept == kept[..i] + kept[i..];
    FlatConcat(kept[..i], kept[i..]);
    JoinConcat(h.Written(i), Flat(kept[i..]));
    JoinConcat(h.Written(i) + Flat(kept[i..]), Flat(h.queued));
    JoinConcat(h.Written(i) + Flat(kept[i..]) + Flat(h.queued), h.current);
    assert h.Written(i) + Flat(kept[i..]) + Flat(h.queued) + h.current == h.Surviving();
  }

  /** Who holds a buffer, and which lines are in it.  That the holder is a function of the buffer is
      what makes all holders distinct. */
  datatype Place = Current | Next | Queued(i: nat) | Spare1 | Spare2 | ToWrite(i: nat)

  datatype Held = Held(place: Place, lines: Chunk)

  /** The writer is at its loop head, or has written the first `i` buffers of its batch. */
  datatype Phase = Idle | Writing(i: nat)

  /** Every pointer to a buffer, the lines in every buffer, and where the writer is.  `ledger` may go
      on listing a buffer that nobody points to any more. */
  datatype Pointers = Pointers(
    current: FixedBuffer,
    next: FixedBuffer?,
    queued: seq<FixedBuffer>,
    spare1: FixedBuffer?,
    spare2: FixedBuffer?,
    toWrite: seq<FixedBuffer>,
    phase: Phase,
    ledger: map<FixedBuffer, Held>,
    h: History)
  {
    predicate At(b: FixedBuffer?, place: Place, lines: Chunk) {
      b != null && b in ledger && ledger[b] == Held(place, lines)
    }

    /** Every pointer is where the ledger says, so no buffer is held twice; spares are empty; the next
        buffer is missing exactly while full buffers wait; the writer can always refill its spares. */
    predicate Owned() {
      && At(current, Current, h.current)
      && (next != null ==> At(next, Next, []))
      && |h.queued| == |queued|
      && (forall i :: 0 <= i < |queued| ==> At(queued[i], Queued(i), h.queued[i]))
      && (spare1 != null ==> At(spare1, Spare1, []))
      && (spare2 != null ==> At(spare2, Spare2, []))
      && (next == null <==> queued != [])
      && WriterOwned()
    }

    predicate WriterOwned() {
      match phase
      case Idle => spare1 != null && spare2 != null && toWrite == [] && h.batch == []
      case Writing(i) =>
        && spare1 == null && i <= |toWrite| && 1 <= |toWrite|
        && (spare2 == null ==> 2 <= |toWrite|)
        && |Kept(h.batch)| == |toWrite|
        && (forall k :: 0 <= k < |toWrite| ==> At(toWrite[k], ToWrite(k), Kept(h.batch)[k]))
    }

    /** What the writer has written so far. */
    function Written(): string {
      Join(h.Written(if phase.Writing? && phase.i <= |Kept(h.batch)| then phase.i else 0))
    }

    /** The pointers that are not null, in a fixed order. */
    function All(): seq<FixedBuffer> {
      [current] + One(next) + queued + One(spare1) + One(spare2) + toWrite
    }

    static function One(b: FixedBuffer?): (r: seq<FixedBuffer>) { if b == null then [] else [b] }

    function Add(line: Line): Pointers {
      this.(h := h.Add(line), ledger := ledger[current := Held(Current, h.current + [line])])
    }

    /** Queues the current buffer; `b` is the next one, or a new one. */
    function Rotate(b: FixedBuffer): Pointers {
      Pointers(b, null, queued + [current], spare1, spare2, toWrite, phase,
               ledger[current := Held(Queued(|queued|), h.current)][b := Held(Current, [])], h.Rotate())
    }

    /** The writer takes everything, cuts an overlong batch down, and its spares step in. */
    function Swap(): Pointers
      requires spare1 != null && spare2 != null
    {
      var batch := queued + [current];
      var pushed := ledger[current := Held(Queued(|queued|), h.current)];
      var taken := Taken(pushed)[spare1 := Held(Current, [])];
      Pointers(spare1, if next == null then spare2 else next, [], null, if next == null then null else spare2,
               if |batch| > OVERLOAD then batch[..2] else batch, Writing(0),
               if next == null then taken[spare2 := Held(Next, [])] else taken, h.Swap())
    }

    static function Taken(m: map<FixedBuffer, Held>): map<FixedBuffer, Held> {
      map b | b in m :: if m[b].place.Queued? then Held(ToWrite(m[b].place.i), m[b].lines) else m[b]
    }

    /** The writer keeps the last one or two of its first two buffers as spares and drops the rest. */
    function Recycle(): Pointers
      requires Owned() && phase == Writing(|toWrite|)
    {
      var (s1, s2) := Recovered(spare2, toWrite);
      this.(spare1 := s1, spare2 := s2, toWrite := [], phase := Idle, h := h.Retire(),
            ledger := ledger[s1 := Held(Spare1, [])][s2 := Held(Spare2, [])])
    }
  }

  /** The spares the writer goes on with: the last of the first two buffers it wrote, and the other one
      if its second spare is in use. */
  function Recovered(spare2: FixedBuffer?, toWrite: seq<FixedBuffer>): (FixedBuffer, FixedBuffer)
    requires 1 <= |toWrite| && (spare2 == null ==> 2 <= |toWrite|)
  {
    var n := if |toWrite| > 2 then 2 else |toWrite|;
    (toWrite[n - 1], if spare2 == null then toWrite[n - 2] else spare2)
  }

  lemma StartOwned(p: Pointers)
    requires p.spare1 != null && p.spare2 != null && p.next != null && p.phase.Idle?
    requires p.At(p.current, Current, []) && p.At(p.next, Next, []) && p.At(p.spare1, Spare1, []) && p.At(p.spare2, Spare2, [])
    requires p.queued == [] && p.toWrite == [] && p.h == History([], [], [], [])
    ensures p.Owned() && p.h.Lines() == [] && p.Written() == ""
  {
  }

  /** What the shared operations need to know of the pointers they touch. */
  lemma Facts(p: Pointers)
    requires p.Owned()
    ensures p.At(p.current, Current, p.h.current)
    ensures p.next != null ==> p.At(p.next, Next, [])
    ensures p.spare1 != null ==> p.At(p.spare1, Spare1, [])
    ensures p.spare2 != null ==> p.At(p.spare2, Spare2, [])
  {
  }

  lemma AddOwned(p: Pointers, line: Line)
    requires p.Owned()
    ensures p.Add(line).Owned() && p.Add(line).Written() == p.Written()
  {
  }

  lemma EnlistOwned(p: Pointers, b: FixedBuffer)
    requires p.Owned() && b !in p.ledger
    ensures var q := p.(ledger := p.ledger[b := Held(Next, [])]); q.Owned() && q.Written() == p.Written()
  {
  }

  lemma RotateOwned(p: Pointers, b: FixedBuffer)
    requires p.Owned() && p.At(b, Next, []) && (p.next == null || p.next == b)
    ensures p.Rotate(b).Owned() && p.Rotate(b).Written() == p.Written()
  {
  }

  lemma SwapTakes(p: Pointers)
    requires p.Owned() && p.phase.Idle?
    ensures p.Swap().WriterOwned()
  {
    hide Join;
    var q := p.Swap();
    var batch := p.queued + [p.current];
    assert forall i :: 0 <= i < |batch| ==> q.At(batch[i], ToWrite(i), q.h.batch[i]);
    assert forall k :: 0 <= k < |q.toWrite| ==> q.toWrite[k] == batch[k] && Kept(q.h.batch)[k] == q.h.batch[k];
  }

  lemma SwapOwned(p: Pointers)
    requires p.Owned() && p.phase.Idle?
    ensures p.Swap().Owned() && p.Swap().Written() == p.Written()
  {
    hide Join, AllLines, KeptLines, Flat;
    WrittenTurns(p.h);
    SwapTakes(p);
    hide Pointers.WriterOwned;
  }

  lemma RecycleOwned(p: Pointers)
    requires p.Owned() && p.phase == Writing(|p.toWrite|)
    ensures p.Recycle().Owned() && p.Recycle().Written() == p.Written()
  {
    WrittenTurns(p.h);
  }

  /** No two holders share a buffer, and at the writer's loop head there are exactly
      3 + max(1, waiting) buffers. */
  lemma HoldersAreDistinct(p: Pointers)
    requires p.Owned()
    ensures forall i, j :: 0 <= i < j < |p.All()| ==> p.All()[i] != p.All()[j]
    ensures p.phase.Idle? ==> |p.All()| == 3 + (if |p.queued| > 1 then |p.queued| else 1)
  {
    var all := p.All();
    forall i | 0 <= i < |all|
      ensures all[i] in p.ledger && Rank(p, p.ledger[all[i]].place) == i
    {
      var n := 1 + |Pointers.One(p.next)|;
      if n <= i < n + |p.queued| { assert all[i] == p.queued[i - n]; }
      var m := n + |p.queued| + |Pointers.One(p.spare1)| + |Pointers.One(p.spare2)|;
      if m <= i { assert all[i] == p.toWrite[i - m]; }
    }
  }

  lemma HoldersAreListed(p: Pointers)
    requires p.Owned()
    ensures forall b :: b in p.All() ==> b in p.ledger
  {
  }

  /** The index of a place among the pointers. */
  function Rank(p: Pointers, place: Place): nat {
    var n := 1 + |Pointers.One(p.next)|;
    var m := n + |p.queued|;
    match place
    case Current => 0
    case Next => 1
    case Queued(i) => n + i
    case Spare1 => m
    case Spare2 => m + |Pointers.One(p.spare1)|
    case ToWrite(i) => m + |Pointers.One(p.spare1)| + |Pointers.One(p.spare2)| + i
  }

  // ----- The code -----

  /** The lines other threads append during one round of the writer. */
  datatype Round = Round(before: seq<Line>, waiting: seq<Line>, writing: seq<seq<Line>>, after: seq<Line>)

  class AsyncLogging {
    // shared, under the mutex
    var currentBuffer: FixedBuffer
    var nextBuffer: FixedBuffer?
    var buffers: seq<FixedBuffer>
    // local to the writer
    var newBuffer1: FixedBuffer?
    var newBuffer2: FixedBuffer?
    var buffersToWrite: seq<FixedBuffer>
    const output: AppendFile

    ghost var phase: Phase
    ghost var ledger: map<FixedBuffer, Held>
    /** Whose storage an array is; so no two buffers share any. */
    ghost var owner: map<array<char>, FixedBuffer>
    /** The buffers and their storage. */
    ghost var repr: set<object>
    ghost var h: History
    /** Every line appended, in the order of the mutex. */
    ghost var appended: seq<Line>

    ghost function P(): Pointers
      reads this
    {
      Pointers(currentBuffer, nextBuffer, buffers, newBuffer1, newBuffer2, buffersToWrite, phase, ledger, h)
    }

    /** A buffer holds exactly these lines, in storage of its own. */
    ghost predicate Sound(b: FixedBuffer, lines: Chunk)
      reads this`owner, this`repr, b, b.data
    {
      && b in repr && b.data in repr && b.data in owner && owner[b.data] == b
      && b.Valid() && b.data.Length == LARGE_BUFFER && b.text == Join(lines)
    }

    ghost predicate Intact()
      reads this`ledger, this`owner, this`repr, repr
    {
      && this !in repr && output !in repr
      && (forall b :: b in ledger ==> b in repr && b.data in repr)
      && (forall b :: b in ledger ==> Sound(b, ledger[b].lines))
    }

    ghost predicate Recorded()
      reads this, output
    {
      appended == h.Lines() && (!output.error ==> output.contents == P().Written())
    }

    ghost predicate Valid()
      reads this, output, repr
    {
      P().Owned() && Intact() && Recorded()
    }

    constructor (file: AppendFile)
      requires file.contents == "" && !file.error
      ensures Valid() && phase.Idle? && output == file && appended == []
      ensures fresh(repr)
    {
      hide Join, History.Lines, Pointers.Written, Pointers.Owned, FixedBuffer.Valid, Sound;
      var b1 := new FixedBuffer(LARGE_BUFFER);
      var b2 := new FixedBuffer(LARGE_BUFFER);
      var b3 := new FixedBuffer(LARGE_BUFFER);
      var b4 := new FixedBuffer(LARGE_BUFFER);
      currentBuffer, nextBuffer, buffers := b1, b2, [];
      newBuffer1, newBuffer2, buffersToWrite := b3, b4, [];
      output := file;
      phase, appended, h := Idle, [], History([], [], [], []);
      ledger, owner, repr := map[], map[], {};
      new;
      Start();
    }

    ghost method Start()
      requires ledger == map[] && owner == map[] && repr == {}
      requires nextBuffer != null && newBuffer1 != null && newBuffer2 != null
      requires var bs := [currentBuffer, nextBuffer, newBuffer1, newBuffer2];
        && (forall i :: 0 <= i < 4 ==> bs[i] as object != this && bs[i] as object != output)
        && (forall i, j :: 0 <= i < j < 4 ==> bs[i] != bs[j] && bs[i].data != bs[j].data)
        && (forall i :: 0 <= i < 4 ==> bs[i].Valid() && bs[i].text == "" && bs[i].data.Length == LARGE_BUFFER)
      requires buffers == [] && buffersToWrite == [] && phase.Idle? && h == History([], [], [], []) && appended == []
      requires output.contents == ""
      modifies this`ledger, this`owner, this`repr
      ensures Valid()
      ensures repr == {currentBuffer, nextBuffer, newBuffer1, newBuffer2, currentBuffer.data, nextBuffer.data, newBuffer1.data, newBuffer2.data}
    {
      hide Join, History.Lines, Pointers.Written, Pointers.Owned, FixedBuffer.Valid, Sound;
      ghost var bs := [currentBuffer, nextBuffer, newBuffer1, newBuffer2];
      assert bs[0] == currentBuffer && bs[1] == nextBuffer && bs[2] == newBuffer1 && bs[3] == newBuffer2;
      EnlistFour(bs);
      StartOwned(P());
    }

    ghost method EnlistFour(bs: seq<FixedBuffer>)
      requires ledger == map[] && owner == map[] && repr == {} && |bs| == 4
      requires forall i :: 0 <= i < 4 ==> bs[i] as object != this && bs[i] as object != output
      requires forall i, j :: 0 <= i < j < 4 ==> bs[i] != bs[j] && bs[i].data != bs[j].data
      requires forall i :: 0 <= i < 4 ==> bs[i].Valid() && bs[i].text == "" && bs[i].data.Length == LARGE_BUFFER
      modifies this`ledger, this`owner, this`repr
      ensures Intact() && repr == {bs[0], bs[1], bs[2], bs[3], bs[0].data, bs[1].data, bs[2].data, bs[3].data}
      ensures ledger == map[bs[0] := Held(Current, []), bs[1] := Held(Next, []), bs[2] := Held(Spare1, []), bs[3] := Held(Spare2, [])]
    {
      hide Join, FixedBuffer.Valid, Sound;
      Enlist(bs[0], Current);
      Enlist(bs[1], Next);
      Enlist(bs[2], Spare1);
      Enlist(bs[3], Spare2);
    }

    /** m_currentBuffer->append */
    method Put(line: Line)
      requires Valid()
      modifies this`appended, this`h, this`ledger, currentBuffer, currentBuffer.data
      ensures Valid()
      ensures P() == if old(currentBuffer.Avail()) > |line| then old(P()).Add(line) else old(P())
      ensures appended == old(appended) + if old(currentBuffer.Avail()) > |line| then [line] else []
      ensures currentBuffer.text == old(currentBuffer.text) + if old(currentBuffer.Avail()) > |line| then line else ""
    {
      hide Join, History.Lines, Pointers.Written, Pointers.Owned, FixedBuffer.Valid, Sound;
      Facts(P());
      AddKeepsLines(h, line);
      AddOwned(P(), line);
      var fits := currentBuffer.Avail() > |line|;
      PutText(currentBuffer, line);
      if fits {
        h, appended := h.Add(line), appended + [line];
      }
    }

    method PutText(b: FixedBuffer, line: Line)
      requires Intact() && b in ledger
      modifies this`ledger, b, b.data
      ensures Intact()
      ensures ledger == if old(b.Avail()) > |line|
        then old(ledger)[b := Held(old(ledger)[b].place, old(ledger)[b].lines + [line])] else old(ledger)
      ensures b.text == old(b.text) + if old(b.Avail()) > |line| then line else ""
    {
      hide Join, FixedBuffer.Valid;
      JoinOneMore(ledger[b].lines, line);
      if b.Avail() > |line| {
        ledger := ledger[b := Held(ledger[b].place, ledger[b].lines + [line])];
      }
      b.Append(line);
    }

    /** Enters a new, empty buffer in the books. */
    ghost method Enlist(b: FixedBuffer, place: Place)
      requires Intact() && b.Valid() && b.text == "" && b.data.Length == LARGE_BUFFER
      requires b as object != this && b as object != output && b !in ledger && b.data !in owner
      modifies this`ledger, this`owner, this`repr
      ensures Intact() && repr == old(repr) + {b, b.data}
      ensures ledger == old(ledger)[b := Held(place, [])] && owner == old(owner)[b.data := b]
    {
      hide FixedBuffer.Valid;
      ledger, owner, repr := ledger[b := Held(place, [])], owner[b.data := b], repr + {b, b.data};
      Empty();
    }

    /** A new buffer to follow the current one. */
    method NewBuffer() returns (b: FixedBuffer)
      requires Intact()
      modifies this`ledger, this`owner, this`repr
      ensures Intact() && fresh(repr - old(repr))
      ensures fresh(b) && b !in old(ledger) && ledger == old(ledger)[b := Held(Next, [])]
    {
      hide FixedBuffer.Valid;
      b := new FixedBuffer(LARGE_BUFFER);
      Enlist(b, Next);
    }

    /** The current buffer is full: queue it and go on with the next one, or with a new one. */
    method Rotate()
      requires Valid()
      modifies this`currentBuffer, this`nextBuffer, this`buffers, this`ledger, this`h, this`owner, this`repr
      ensures Valid() && fresh(repr - old(repr))
      ensures h == old(h).Rotate() && currentBuffer.text == ""
      ensures buffers == old(buffers) + [old(currentBuffer)] && nextBuffer == null
      ensures if old(nextBuffer) != null then currentBuffer == old(nextBuffer) else fresh(currentBuffer)
    {
      hide Join, History.Lines, Pointers.Written, Pointers.Owned, FixedBuffer.Valid;
      Facts(P());
      MovesKeepLines(h);
      Empty();
      var b := nextBuffer;
      if b == null {
        ghost var p := P();
        b := NewBuffer();
        EnlistOwned(p, b);
      }
      Turn(b);
    }

    method Turn(b: FixedBuffer)
      requires Valid() && P().At(b, Next, []) && (nextBuffer == null || nextBuffer == b)
      modifies this`currentBuffer, this`nextBuffer, this`buffers, this`ledger, this`h
      ensures Valid() && P() == old(P()).Rotate(b)
    {
      hide Join, History.Lines, Pointers.Written, Pointers.Owned, FixedBuffer.Valid, Sound, Kept, Flat, AllLines, KeptLines, History.Written;
      ghost var q := P().Rotate(b);
      Facts(P());
      MovesKeepLines(h);
      RotateOwned(P(), b);
      ledger, h := q.ledger, q.h;
      TurnPointers(b);
    }

    method TurnPointers(b: FixedBuffer)
      modifies this`currentBuffer, this`nextBuffer, this`buffers
      ensures buffers == old(buffers) + [old(currentBuffer)] && currentBuffer == b && nextBuffer == null
    {
      buffers := buffers + [currentBuffer];
      currentBuffer, nextBuffer := b, null;
    }

    /** append: the critical section of any thread that logs.  A line is kept if and only if it is
        shorter than a whole buffer. */
    method Append(line: Line)
      requires Valid()
      modifies this, repr
      ensures Valid() && fresh(repr - old(repr))
      ensures appended == old(appended) + if |line| < LARGE_BUFFER then [line] else []
      ensures old(currentBuffer.Avail()) > |line| ==>
        && currentBuffer == old(currentBuffer) && currentBuffer.text == old(currentBuffer.text) + line
        && buffers == old(buffers) && nextBuffer == old(nextBuffer)
      ensures old(currentBuffer.Avail()) <= |line| ==>
        && buffers == old(buffers) + [old(currentBuffer)] && nextBuffer == null
        && (if old(nextBuffer) != null then currentBuffer == old(nextBuffer) else fresh(currentBuffer))
        && currentBuffer.text == if |line| < 4096 * 1000 then line else ""
      ensures phase == old(phase) && h.done == old(h.done) && h.batch == old(h.batch)
      ensures buffersToWrite == old(buffersToWrite)
    {
      hide Join, History.Lines, Pointers.Written, Pointers.Owned, FixedBuffer.Valid, Sound;
      CurrentIsSound();
      if currentBuffer.Avail() > |line| {
        Put(line);
      } else {
        Rotate();
        CurrentIsSound();
        Put(line);
      }
    }

    lemma CurrentIsSound()
      requires Valid()
      ensures currentBuffer in ledger && Sound(currentBuffer, ledger[currentBuffer].lines)
      ensures currentBuffer in repr && currentBuffer.data in repr
      ensures |currentBuffer.text| <= LARGE_BUFFER && currentBuffer.Avail() == LARGE_BUFFER - |currentBuffer.text|
    {
    }

    /** The writer's critical section: everything queued, with the current buffer, becomes its batch,
        and its spares take their places; then an overlong batch is cut down to two buffers. */
    method Swap()
      requires Valid() && phase.Idle?
      modifies this`currentBuffer, this`nextBuffer, this`buffers, this`newBuffer1, this`newBuffer2,
               this`buffersToWrite, this`phase, this`ledger, this`h
      ensures Valid() && P() == old(P()).Swap() && phase == Writing(0) && h == old(h).Swap()
      ensures var all := old(buffers) + [old(currentBuffer)];
        buffersToWrite == (if |all| > 25 then all[..2] else all) && buffers == []
      ensures currentBuffer == old(newBuffer1) && newBuffer1 == null
      ensures if old(nextBuffer) == null then nextBuffer == old(newBuffer2) && newBuffer2 == null
              else nextBuffer == old(nextBuffer) && newBuffer2 == old(newBuffer2)
    {
      hide Join, History.Lines, Pointers.Written, Pointers.Owned, FixedBuffer.Valid, Sound, Pointers.Swap;
      ghost var p := P();
      IdleFacts(p);
      SwapOwned(p);
      SwapKeepsTexts(p);
      MovesKeepLines(h);
      SwapPointers();
      Relabel(p.Swap().ledger);
      phase, h := Writing(0), h.Swap();
    }

    /** The books give the same buffers new places; what is in them stays. */
    ghost method Relabel(books: map<FixedBuffer, Held>)
      requires Intact() && books.Keys == ledger.Keys
      requires forall b :: b in books ==> books[b].lines == ledger[b].lines
      modifies this`ledger
      ensures Intact() && ledger == books
    {
      hide Join, FixedBuffer.Valid, Sound;
      ledger := books;
    }

    method SwapPointers()
      requires newBuffer1 != null && newBuffer2 != null
      modifies this`currentBuffer, this`nextBuffer, this`buffers, this`newBuffer1, this`newBuffer2, this`buffersToWrite
      ensures var q := old(P()).Swap();
        && currentBuffer == q.current && nextBuffer == q.next && buffers == q.queued
        && newBuffer1 == q.spare1 && newBuffer2 == q.spare2 && buffersToWrite == q.toWrite
      ensures var all := old(buffers) + [old(currentBuffer)];
        buffersToWrite == (if |all| > 25 then all[..2] else all) && buffers == []
      ensures currentBuffer == old(newBuffer1) && newBuffer1 == null
      ensures if old(nextBuffer) == null then nextBuffer == old(newBuffer2) && newBuffer2 == null
              else nextBuffer == old(nextBuffer) && newBuffer2 == old(newBuffer2)
    {
      buffers := buffers + [currentBuffer];
      currentBuffer, newBuffer1 := newBuffer1, null;
      buffersToWrite, buffers := buffers, [];
      if nextBuffer == null {
        nextBuffer, newBuffer2 := newBuffer2, null;
      }
      assert buffersToWrite != [];
      if |buffersToWrite| > OVERLOAD {
        buffersToWrite := buffersToWrite[..2];
      }
    }

    /** Writes the next buffer of the batch to the file. */
    method WriteNext(i: nat)
      requires Valid() && phase == Writing(i) && i < |buffersToWrite|
      modifies this`phase, output
      ensures Valid() && P() == old(P()).(phase := Writing(i + 1))
      ensures output.contents == old(output.contents) + buffersToWrite[i].text || output.error
    {
      hide Join, History.Lines, FixedBuffer.Valid, Kept, Pointers.Owned;
      BatchFacts(P(), i);
      var b := buffersToWrite[i];
      var text := b.Data();
      var n := output.Append(text);
      phase := Writing(i + 1);
    }

    /** The batch is written: the writer recovers its spares from it and lets go of the rest. */
    method Recycle()
      requires Valid() && phase == Writing(|buffersToWrite|)
      modifies this`newBuffer1, this`newBuffer2, this`buffersToWrite, this`phase, this`ledger, this`h, repr
      ensures Valid() && P() == old(P()).Recycle() && h == old(h).Retire()
      ensures Spares(old(newBuffer2), old(buffersToWrite)) && buffersToWrite == []
    {
      hide Join, History.Lines, Pointers.Written, Pointers.Owned, FixedBuffer.Valid, Sound, Pointers.Recycle;
      ghost var p := P();
      RecycleFacts(p);
      RecycleOwned(p);
      MovesKeepLines(h);
      RecyclePointers();
      phase, h := Idle, h.Retire();
    }

    /** The spares are the last of the first two buffers written, and the one there was or the other one of the two. */
    ghost predicate Spares(spare2: FixedBuffer?, written: seq<FixedBuffer>)
      reads this`newBuffer1, this`newBuffer2
    {
      var two := if |written| > 2 then written[..2] else written;
      && two != [] && newBuffer1 == two[|two| - 1]
      && newBuffer2 == if spare2 != null then spare2 else if |two| > 1 then two[0] else null
    }

    method RecyclePointers()
      requires Intact() && newBuffer1 == null
      requires 1 <= |buffersToWrite| && (newBuffer2 == null ==> 2 <= |buffersToWrite|)
      requires forall i :: 0 <= i < |buffersToWrite| ==> buffersToWrite[i] in ledger
      requires newBuffer2 != null ==>
        newBuffer2 in ledger && ledger[newBuffer2] == Held(Spare2, []) && newBuffer2 !in buffersToWrite
      requires newBuffer2 == null ==> buffersToWrite[0] != buffersToWrite[1]
      modifies this`newBuffer1, this`newBuffer2, this`buffersToWrite, this`ledger, repr
      ensures Intact() && buffersToWrite == [] && Spares(old(newBuffer2), old(buffersToWrite))
      ensures var (s1, s2) := Recovered(old(newBuffer2), old(buffersToWrite));
        newBuffer1 == s1 && newBuffer2 == s2 && ledger == old(ledger)[s1 := Held(Spare1, [])][s2 := Held(Spare2, [])]
    {
      hide Join, FixedBuffer.Valid, Sound;
      if |buffersToWrite| > 2 {
        buffersToWrite := buffersToWrite[..2];
      }
      if newBuffer1 == null {
        newBuffer1 := TakeBack(Spare1);
      }
      if newBuffer2 == null {
        newBuffer2 := TakeBack(Spare2);
      }
      buffersToWrite := [];
    }

    /** back, pop_back, reset */
    method TakeBack(ghost place: Place) returns (b: FixedBuffer)
      requires Intact() && buffersToWrite != [] && buffersToWrite[|buffersToWrite| - 1] in ledger
      modifies this`buffersToWrite, this`ledger, buffersToWrite[|buffersToWrite| - 1]
      ensures Intact()
      ensures b == old(buffersToWrite[|buffersToWrite| - 1]) && buffersToWrite == old(buffersToWrite[..|buffersToWrite| - 1])
      ensures ledger == old(ledger)[b := Held(place, [])]
    {
      hide FixedBuffer.Valid;
      Empty();
      b := buffersToWrite[|buffersToWrite| - 1];
      buffersToWrite := buffersToWrite[..|buffersToWrite| - 1];
      b.Reset();
      ledger := ledger[b := Held(place, [])];
    }

    /** Any number of other threads append. */
    method Others(lines: seq<Line>)
      requires Valid()
      modifies this, repr
      ensures Valid() && fresh(repr - old(repr))
      ensures old(appended) <= appended
      ensures phase == old(phase) && h.done == old(h.done) && h.batch == old(h.batch)
      ensures buffersToWrite == old(buffersToWrite)
    {
      hide Join, History.Lines, Pointers.Written, Pointers.Owned, FixedBuffer.Valid, Sound, Intact;
      for i := 0 to |lines|
        invariant Valid() && fresh(repr - old(repr))
        invariant old(appended) <= appended
        invariant phase == old(phase) && h.done == old(h.done) && h.batch == old(h.batch)
        invariant buffersToWrite == old(buffersToWrite)
      {
        Append(lines[i]);
      }
    }

    /** The writer's loop, until it is told to stop, with other threads appending before it takes
        the mutex, while it waits on the condition, and while it writes. */
    method ThreadFunc(rounds: seq<Round>)
      requires Valid() && phase.Idle?
      modifies this, repr, output
      ensures Valid() && phase.Idle?
      ensures old(appended) <= appended && |h.done| == |old(h.done)| + |rounds|
      ensures rounds != [] ==> old(appended) <= AllLines(h.done)
    {
      hide Join, History.Lines, Pointers.Written, Pointers.Owned, FixedBuffer.Valid, Sound, Intact;
      var n := 0;
      while n < |rounds|
        invariant 0 <= n <= |rounds| && Valid() && phase.Idle? && fresh(repr - old(repr))
        invariant old(appended) <= appended && |h.done| == |old(h.done)| + n
        invariant n > 0 ==> old(appended) <= AllLines(h.done)
      {
        OneRound(rounds[n]);
        n := n + 1;
      }
    }

    /** One iteration.  Whatever had been appended when it began has been dealt with when it ends: it is in
        the file, unless it was given up with an overlong batch. */
    method OneRound(round: Round)
      requires Valid() && phase.Idle?
      modifies this, repr, output
      ensures Valid() && phase.Idle? && fresh(repr - old(repr))
      ensures old(appended) <= appended && |h.done| == |old(h.done)| + 1
      ensures old(appended) <= AllLines(h.done)
    {
      hide Join, History.Lines, Pointers.Written, Pointers.Owned, FixedBuffer.Valid, Sound, Intact;
      TakeBatch(round.before, round.waiting);
      ghost var batches := h.done + [h.batch];
      WriteBatch(round.writing);
      WriterHasABatch();
      Recycle();
      assert h.done == batches;
      Others(round.after);
    }

    /** From the asserts at the head of the loop to the end of the critical section. */
    method TakeBatch(before: seq<Line>, waiting: seq<Line>)
      requires Valid() && phase.Idle?
      modifies this, repr
      ensures Valid() && phase == Writing(0) && fresh(repr - old(repr))
      ensures old(appended) <= appended && h.done == old(h.done)
      ensures old(appended) <= AllLines(h.done + [h.batch])
    {
      hide Join, History.Lines, Pointers.Written, Pointers.Owned, FixedBuffer.Valid, Sound, Intact;
      SparesAreEmpty();
      assert newBuffer1 != null && newBuffer1.text == "";
      assert newBuffer2 != null && newBuffer2.text == "";
      assert buffersToWrite == [];
      Others(before);
      if buffers == [] {
        Others(waiting);
      }
      Swap();
      WriterHasABatch();
      assert buffersToWrite != [];
      EverythingIsTaken();
    }

    /** The writing loop, without the mutex. */
    method WriteBatch(writing: seq<seq<Line>>)
      requires Valid() && phase == Writing(0)
      modifies this, repr, output
      ensures Valid() && phase == Writing(|buffersToWrite|) && fresh(repr - old(repr))
      ensures old(appended) <= appended && h.done == old(h.done) && h.batch == old(h.batch)
    {
      hide Join, History.Lines, Pointers.Written, Pointers.Owned, FixedBuffer.Valid, Sound, Intact;
      var i := 0;
      WriterHasABatch();
      while i < |buffersToWrite|
        invariant Valid() && phase == Writing(i) && i <= |buffersToWrite| && this !in repr
        invariant fresh(repr - old(repr)) && old(appended) <= appended && h.done == old(h.done) && h.batch == old(h.batch)
      {
        Others(if i < |writing| then writing[i] else []);
        WriteNext(i);
        WriterHasABatch();
        i := i + 1;
      }
    }

    lemma EverythingIsTaken()
      requires Valid() && h.queued == [] && h.current == []
      ensures appended == AllLines(h.done + [h.batch])
    {
      hide AllLines, KeptLines, Flat;
      Empty();
      LinesConcat(h.done, h.batch);
    }

    /** The characters in a sequence of buffers. */
    static ghost function Texts(bs: seq<FixedBuffer>): string
      reads bs
    {
      if bs == [] then "" else bs[0].text + Texts(bs[1..])
    }

    lemma TextsOf(bs: seq<FixedBuffer>, chunks: Batch)
      requires |bs| == |chunks| && forall i :: 0 <= i < |bs| ==> bs[i].text == Join(chunks[i])
      ensures Texts(bs) == Join(Flat(chunks))
    {
      if bs != [] {
        TextsOf(bs[1..], chunks[1..]);
        JoinConcat(chunks[0], Flat(chunks[1..]));
      }
    }

    /** What is still on its way to the file. */
    ghost function Unwritten(): string
      reads this, buffers, buffersToWrite, currentBuffer
    {
      Texts(if phase.Writing? && phase.i <= |buffersToWrite| then buffersToWrite[phase.i..] else [])
        + Texts(buffers) + currentBuffer.text
    }

    /** In every reachable state without a file error, the file and the buffers together hold the
        surviving lines, whole and in order, of everything that was appended. */
    lemma Conservation()
      requires Valid() && !output.error
      ensures output.contents + Unwritten() == Join(h.Surviving())
      ensures appended == h.Lines() && Subsequence(h.Surviving(), appended)
    {
      hide Join, Flat, Kept, Subsequence, History.Lines, History.Surviving, History.Written, Texts, FixedBuffer.Valid;
      SurvivingLines(h);
      Empty();
      TextsOf(buffers, h.queued);
      if phase.Writing? {
        SurvivingText(h, phase.i);
        TextsOf(buffersToWrite[phase.i..], Kept(h.batch)[phase.i..]);
      } else {
        NothingTaken(h);
        SurvivingText(h, 0);
        TextsOf([], []);
      }
    }

    /** At the writer's loop head the file holds just the batches dealt with; and if none of them was
        overlong, every line of theirs. */
    lemma FileAtLoopHead()
      requires Valid() && phase.Idle? && !output.error
      ensures output.contents == Join(KeptLines(h.done))
      ensures !Overlong(h.done) ==> output.contents == Join(AllLines(h.done))
    {
      hide Join, Flat, AllLines, KeptLines, Overlong, History.Lines, FixedBuffer.Valid;
      Empty();
      MissingLines(h.done);
      assert Kept(h.batch)[..0] == [];
      assert h.Written(0) == KeptLines(h.done);
    }

    /** Current, next, both spares, all queued buffers and the writer's batch are different objects
        with storage of their own, and at the writer's loop head there are 3 + max(1, queued) of them. */
    lemma NoAliasing()
      requires Valid()
      ensures forall i, j :: 0 <= i < j < |P().All()| ==>
        P().All()[i] != P().All()[j] && P().All()[i].data != P().All()[j].data
      ensures phase.Idle? ==> |P().All()| == 3 + (if |buffers| > 1 then |buffers| else 1)
    {
      hide Pointers.Owned, Pointers.All, FixedBuffer.Valid, Join;
      HoldersAreDistinct(P());
      HoldersAreListed(P());
      var all := P().All();
      forall i, j | 0 <= i < j < |all|
        ensures all[i] != all[j] && all[i].data != all[j].data
      {
        assert all[i] in all && all[j] in all;
        assert Sound(all[i], ledger[all[i]].lines) && Sound(all[j], ledger[all[j]].lines);
      }
    }

    lemma SparesAreEmpty()
      requires Valid() && phase.Idle?
      ensures newBuffer1 != null && newBuffer1.text == "" && newBuffer2 != null && newBuffer2.text == ""
      ensures buffersToWrite == []
    {
      Empty();
    }

    lemma WriterHasABatch()
      requires Valid() && phase.Writing?
      ensures 1 <= |buffersToWrite| && phase.i <= |buffersToWrite| && this !in repr
    {
    }
  }

  lemma NothingTaken(h: History)
    ensures h.batch == [] ==> Kept(h.batch)[0..] == []
  {
  }

  lemma SwapKeepsTexts(p: Pointers)
    requires p.Owned() && p.phase.Idle?
    ensures p.Swap().ledger.Keys == p.ledger.Keys
    ensures forall b :: b in p.ledger ==> p.Swap().ledger[b].lines == p.ledger[b].lines
    ensures p.Swap().phase == Writing(0) && p.Swap().h == p.h.Swap()
  {
  }

  lemma RecycleFacts(p: Pointers)
    requires p.Owned() && p.phase == Writing(|p.toWrite|)
    ensures p.spare1 == null && 1 <= |p.toWrite| && (p.spare2 == null ==> 2 <= |p.toWrite|)
    ensures forall i :: 0 <= i < |p.toWrite| ==> p.toWrite[i] in p.ledger
    ensures p.spare2 == null ==> p.toWrite[0] != p.toWrite[1]
    ensures p.spare2 != null ==> p.At(p.spare2, Spare2, []) && p.spare2 !in p.toWrite
    ensures var (s1, s2) := Recovered(p.spare2, p.toWrite);
      p.Recycle() == p.(spare1 := s1, spare2 := s2, toWrite := [], phase := Idle, h := p.h.Retire(),
                        ledger := p.ledger[s1 := Held(Spare1, [])][s2 := Held(Spare2, [])])
  {
  }

  lemma BatchFacts(p: Pointers, i: nat)
    requires p.Owned() && p.phase == Writing(i) && i < |p.toWrite|
    ensures p.toWrite[i] in p.ledger
    ensures var q := p.(phase := Writing(i + 1));
      q.Owned() && q.Written() == p.Written() + Join(p.ledger[p.toWrite[i]].lines)
  {
    WrittenGrows(p.h, i);
  }

  lemma IdleFacts(p: Pointers)
    requires p.Owned() && p.phase.Idle?
    ensures p.At(p.current, Current, p.h.current)
    ensures p.At(p.spare1, Spare1, []) && p.At(p.spare2, Spare2, [])
    ensures p.h.batch == []
  {
  }
}
