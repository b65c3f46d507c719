/**
  The formatting stream behind one log line.  Every insertion either goes in whole or is dropped
  whole, and a line never fills the small buffer.
 */
module LogStream {
  import opened Buffers
  import Decimal

  /** What operator<< takes.  A floating-point number stands for the text snprintf makes of it, which with
      twelve significant digits is never longer than 31 characters; a C string is null or the characters
      before its NUL. */
  datatype Insertion =
    | Integer(v: int)
    | Float(text: string)
    | Flag(b: bool)
    | Character(c: char)
    | Null
    | CString(text: string)
    | Str(text: string)
  {
    predicate Valid() {
      && (Integer? ==> Decimal.IsWord(v))
      && (Float? ==> |text| < MAX_NUMERIC_SIZE)
    }

    predicate Numeric() { Integer? || Float? }
  }

  const MAX_NUMERIC_SIZE: nat := 32

  function Rendering(ins: Insertion): string {
    match ins
    case Integer(v) => Decimal.Text(v)
    case Float(text) => text
    case Flag(b) => if b then "1" else "0"
    case Character(c) => [c]
    case Null => "<null>"
    case CString(text) => text
    case Str(text) => if text == "" then "<null>" else text
  }

  /** Whether an insertion still goes into a line of `used` characters. */
  predicate Fits(used: nat, ins: Insertion) {
    if ins.Numeric() then used + MAX_NUMERIC_SIZE <= SMALL_BUFFER
    else used + |Rendering(ins)| < SMALL_BUFFER
  }

  /** The insertions that go in, of those made on a line that starts with `used` characters. */
  function Kept(used: nat, inss: seq<Insertion>): seq<Insertion>
    decreases |inss|
  {
    if inss == [] then []
    else if Fits(used, inss[0]) then [inss[0]] + Kept(used + |Rendering(inss[0])|, inss[1..])
    else Kept(used, inss[1..])
  }

  function Joined(inss: seq<Insertion>): string {
    if inss == [] then [] else Rendering(inss[0]) + Joined(inss[1..])
  }

  predicate AllValid(inss: seq<Insertion>) { forall i :: 0 <= i < |inss| ==> inss[i].Valid() }

  /** At most 20 characters for an integer. */
  lemma IntegerWidth(v: int)
    requires Decimal.IsWord(v)
    ensures |Decimal.Text(v)| <= 20
  {
    Decimal.MagnitudeBound(v);
    NumeralWidth(Decimal.Abs(v), Decimal.MaxDigits(v));
  }

  lemma {:induction false} NumeralWidth(n: nat, width: nat)
    requires 0 < width && n < Decimal.Pow10(width)
    ensures |Decimal.Numeral(n)| <= width
    decreases width
  {
    if n >= 10 {
      Decimal.ShiftBound(n, width);
      assert Decimal.Pow10(0) == 1;
      NumeralWidth(n / 10, width - 1);
    }
  }

  /** No line ever fills the small buffer: at most 4095 characters. */
  lemma {:induction false} LineStaysShort(used: nat, inss: seq<Insertion>)
    requires used < SMALL_BUFFER && AllValid(inss)
    ensures used + |Joined(Kept(used, inss))| < SMALL_BUFFER
    decreases |inss|
  {
    if inss != [] {
      if inss[0].Integer? { IntegerWidth(inss[0].v); }
      LineStaysShort(if Fits(used, inss[0]) then used + |Rendering(inss[0])| else used, inss[1..]);
    }
  }

  /** Nothing is dropped from a line that leaves room for one more number. */
  lemma {:induction false} ShortLinesAreComplete(used: nat, inss: seq<Insertion>)
    requires used + |Joined(inss)| + MAX_NUMERIC_SIZE <= SMALL_BUFFER
    ensures Kept(used, inss) == inss
    decreases |inss|
  {
    if inss != [] {
      ShortLinesAreComplete(used + |Rendering(inss[0])|, inss[1..]);
    }
  }

  /** The line that results from inserting `inss` after `text`. */
  function Line(text: string, inss: seq<Insertion>): string {
    text + Joined(Kept(|text|, inss))
  }

  lemma LineStep(text: string, inss: seq<Insertion>, i: nat)
    requires i < |inss|
    ensures Line(text, inss[i..]) == Line(text + if Fits(|text|, inss[i]) then Rendering(inss[i]) else [], inss[i + 1..])
  {
    assert inss[i..][1..] == inss[i + 1..];
  }

  class Stream {
    const buffer: FixedBuffer

    ghost predicate Valid()
      reads this, buffer, buffer.data
    {
      buffer.Valid() && buffer.data.Length == SMALL_BUFFER && buffer.cur < SMALL_BUFFER
    }

    constructor ()
      ensures Valid() && buffer.text == [] && fresh(buffer) && fresh(buffer.data)
    {
      buffer := new FixedBuffer(SMALL_BUFFER);
    }

    /** operator<<, for each of the types it is overloaded on. */
    method Insert(ins: Insertion)
      requires Valid() && ins.Valid()
      modifies buffer, buffer.data
      ensures Valid()
      ensures buffer.text == old(buffer.text) + if Fits(old(buffer.cur), ins) then Rendering(ins) else []
      ensures var used := |old(buffer.text)|;
        match ins
        case Integer(v) =>
          if used + 32 <= 4096
          then exists digits :: buffer.text == old(buffer.text) + digits && Decimal.IsCanonical(digits) && Decimal.Parse(digits) == v
          else buffer.text == old(buffer.text)
        case Float(text) => buffer.text == old(buffer.text) + if used + 32 <= 4096 then text else ""
        case Flag(b) => buffer.text == old(buffer.text) + if used + 1 < 4096 then (if b then "1" else "0") else ""
        case Character(c) => buffer.text == old(buffer.text) + if used + 1 < 4096 then [c] else ""
        case Null => buffer.text == old(buffer.text) + if used + 6 < 4096 then "<null>" else ""
        case CString(text) => buffer.text == old(buffer.text) + if used + |text| < 4096 then text else ""
        case Str(text) =>
          if text == "" then buffer.text == old(buffer.text) + if used + 6 < 4096 then "<null>" else ""
          else buffer.text == old(buffer.text) + if used + |text| < 4096 then text else ""
    {
      if ins.Integer? { Decimal.TextRoundTrip(ins.v); }
      match ins {
        case Integer(v) => FormatInteger(v);
        case Float(text) => FormatFloat(text);
        case Flag(b) => buffer.Append(if b then "1" else "0");
        case Character(c) => buffer.Append([c]);
        case Null => buffer.Append("<null>");
        case CString(text) => buffer.Append(text);
        case Str(text) =>
          if text != "" { buffer.Append(text); } else { buffer.Append("<null>"); }
      }
    }

    /** Formats at the cursor itself, provided the reserve of 32 characters is there. */
    method FormatInteger(v: int)
      requires Valid() && Decimal.IsWord(v)
      modifies buffer, buffer.data
      ensures Valid()
      ensures buffer.text == old(buffer.text) + if Fits(old(buffer.cur), Integer(v)) then Decimal.Text(v) else []
    {
      if buffer.Avail() >= MAX_NUMERIC_SIZE {
        var at := buffer.cur;
        var len := Decimal.Convert(buffer.data, at, v);
        assert buffer.data[..at] == buffer.text;
        buffer.Add(len);
      }
    }

    /** operator<<(double): snprintf at the cursor, under the same reserve. */
    method FormatFloat(text: string)
      requires Valid() && |text| < MAX_NUMERIC_SIZE
      modifies buffer, buffer.data
      ensures Valid()
      ensures buffer.text == old(buffer.text) + if old(buffer.cur) + MAX_NUMERIC_SIZE <= SMALL_BUFFER then text else []
    {
      if buffer.Avail() >= MAX_NUMERIC_SIZE {
        var at := buffer.cur;
        forall i | 0 <= i < |text| {
          buffer.data[at + i] := text[i];
        }
        buffer.data[at + |text|] := '\0';
        assert buffer.data[..at] == buffer.text;
        assert buffer.data[at..at + |text|] == text;
        buffer.Add(|text|);
      }
    }

    /** A whole statement of insertions. */
    method InsertAll(inss: seq<Insertion>)
      requires Valid() && AllValid(inss)
      modifies buffer, buffer.data
      ensures Valid()
      ensures buffer.text == Line(old(buffer.text), inss)
    {
      ghost var line := Line(buffer.text, inss);
      var i := 0;
      assert inss[0..] == inss;
      while i < |inss|
        invariant 0 <= i <= |inss| && Valid()
        invariant Line(buffer.text, inss[i..]) == line
      {
        ghost var text := buffer.text;
        LineStep(text, inss, i);
        Insert(inss[i]);
        i := i + 1;
      }
      assert Line(buffer.text, []) == buffer.text;
    }
  }
}
