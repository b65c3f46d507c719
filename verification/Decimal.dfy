/**
  Integer formatting: digits are produced least significant first, through a digit table that is
  mirrored so that negative remainders index it as well, and the whole text is reversed at the end.
 */
module Decimal {

  /** C's truncating division and remainder by ten. */
  function TruncDiv10(i: int): int { if i >= 0 then i / 10 else -((-i) / 10) }

  function TruncMod10(i: int): int { if i >= 0 then i % 10 else -((-i) % 10) }

  const DIGITS := "9876543210123456789"
  const ZERO := 9

  /** Every value of the signed and unsigned integer types up to 64 bits. */
  predicate IsWord(v: int) { -0x8000_0000_0000_0000 <= v <= 0xffff_ffff_ffff_ffff }

  function Abs(i: int): nat { if i >= 0 then i else -i }

  // ----- What decimal notation means -----

  predicate IsDigit(c: char) { '0' <= c <= '9' }

  function DigitValue(c: char): nat
    requires IsDigit(c)
  {
    c as nat - '0' as nat
  }

  predicate AllDigits(s: string) { forall i :: 0 <= i < |s| ==> IsDigit(s[i]) }

  function ParseDigits(s: string): nat
    requires AllDigits(s)
  {
    if s == [] then 0 else 10 * ParseDigits(s[..|s| - 1]) + DigitValue(s[|s| - 1])
  }

  /** A numeral without superfluous zeros: "0", or digits that do not start with '0'. */
  predicate IsNumeral(s: string) {
    s != [] && AllDigits(s) && (|s| > 1 ==> s[0] != '0')
  }

  predicate IsCanonical(s: string) {
    if s != [] && s[0] == '-' then IsNumeral(s[1..]) && s[1] != '0' else IsNumeral(s)
  }

  function Parse(s: string): int
    requires IsCanonical(s)
  {
    if s[0] == '-' then 0 - ParseDigits(s[1..]) else ParseDigits(s)
  }

  // ----- The numeral of a number -----

  function Digit(d: nat): char
    requires d < 10
  {
    '0' + d as char
  }

  function Numeral(n: nat): string {
    if n < 10 then [Digit(n)] else Numeral(n / 10) + [Digit(n % 10)]
  }

  function Text(v: int): string {
    if v < 0 then "-" + Numeral(-v) else Numeral(v)
  }

  lemma {:induction false} NumeralParses(n: nat)
    ensures IsNumeral(Numeral(n)) && ParseDigits(Numeral(n)) == n
    ensures n > 0 ==> Numeral(n)[0] != '0'
  {
    if n >= 10 {
      NumeralParses(n / 10);
      var s := Numeral(n);
      assert s[..|s| - 1] == Numeral(n / 10);
    } else {
      assert Numeral(n)[..0] == [];
    }
  }

  lemma {:induction false} NumeralIsUnique(s: string)
    requires IsNumeral(s)
    ensures Numeral(ParseDigits(s)) == s
    decreases |s|
  {
    var init, d := s[..|s| - 1], DigitValue(s[|s| - 1]);
    if init == [] {
      assert s == [Digit(d)];
    } else {
      NumeralIsUnique(init);
      Positive(init);
      var n := ParseDigits(s);
      assert n / 10 == ParseDigits(init) && n % 10 == d;
      assert s == init + [Digit(d)];
    }
  }

  lemma {:induction false} Positive(s: string)
    requires IsNumeral(s) && s[0] != '0'
    ensures ParseDigits(s) > 0
    decreases |s|
  {
    if |s| > 1 { Positive(s[..|s| - 1]); }
  }

  /** Formatting inverts parsing and parsing inverts formatting. */
  lemma TextRoundTrip(v: int)
    ensures IsCanonical(Text(v)) && Parse(Text(v)) == v
  {
    NumeralParses(Abs(v));
    if v < 0 { assert Text(v)[1..] == Numeral(-v); }
  }

  lemma ParseRoundTrip(s: string)
    requires IsCanonical(s)
    ensures Text(Parse(s)) == s
  {
    if s[0] == '-' {
      NumeralIsUnique(s[1..]);
      Positive(s[1..]);
      assert s == "-" + s[1..];
    } else {
      NumeralIsUnique(s);
    }
  }

  // ----- The code -----

  function Pow10(n: nat): nat { if n == 0 then 1 else 10 * Pow10(n - 1) }

  /** The number of digits the largest magnitudes need. */
  function MaxDigits(v: int): nat { if v < 0 then 19 else 20 }

  lemma MagnitudeBound(v: int)
    requires IsWord(v)
    ensures Abs(v) < Pow10(MaxDigits(v))
  {
    assert Pow10(10) == 1_00000_00000;
    assert Pow10(15) == 1_00000_00000_00000;
    assert Pow10(19) == 1_0000_00000_00000_00000;
  }

  function Reverse(s: string): (r: string)
    ensures |r| == |s| && forall i :: 0 <= i < |s| ==> r[i] == s[|s| - 1 - i]
  {
    if s == [] then [] else Reverse(s[1..]) + [s[0]]
  }

  lemma ReverseAppend(s: string, c: char)
    ensures Reverse(s + [c]) == [c] + Reverse(s)
  {
    var l, r := Reverse(s + [c]), [c] + Reverse(s);
    forall i | 0 <= i < |l|
      ensures l[i] == r[i]
    {
    }
  }

  lemma Mirrored(before: string, after: string, lo: nat, hi: nat)
    requires lo <= hi <= |before| == |after|
    requires forall k :: lo <= k < hi ==> after[k] == before[lo + hi - 1 - k]
    ensures after[lo..hi] == Reverse(before[lo..hi])
  {
    forall k | 0 <= k < hi - lo
      ensures after[lo..hi][k] == Reverse(before[lo..hi])[k]
    {
      assert after[lo..hi][k] == before[lo + hi - 1 - (lo + k)];
    }
  }

  /** std::reverse on buf[lo..hi]. */
  method ReverseRange(buf: array<char>, lo: nat, hi: nat)
    requires lo <= hi <= buf.Length
    modifies buf
    ensures buf[lo..hi] == Reverse(old(buf[lo..hi]))
    ensures forall k :: 0 <= k < lo || hi <= k < buf.Length ==> buf[k] == old(buf[k])
  {
    ghost var was := buf[..];
    var i, j := lo, hi;
    while i < j
      invariant lo <= i <= j + 1 <= hi + 1 && i - lo == hi - j
      invariant forall k :: lo <= k < i ==> buf[k] == was[lo + hi - 1 - k]
      invariant forall k :: j <= k < hi ==> buf[k] == was[lo + hi - 1 - k]
      invariant forall k :: i <= k < j ==> buf[k] == was[k]
      invariant forall k :: 0 <= k < lo || hi <= k < buf.Length ==> buf[k] == was[k]
    {
      j := j - 1;
      if i < j {
        buf[i], buf[j] := buf[j], buf[i];
      }
      i := i + 1;
    }
    Mirrored(was, buf[..], lo, hi);
    assert buf[..][lo..hi] == buf[lo..hi] && was[lo..hi] == old(buf[lo..hi]);
  }

  /** `digits`, least significant first, are what has been split off `value` when `rest` remains. */
  predicate SplitOff(value: int, rest: int, digits: string) {
    && (value < 0 ==> rest <= 0)
    && (value >= 0 ==> rest >= 0)
    && |digits| <= MaxDigits(value)
    && Abs(rest) < Pow10(MaxDigits(value) - |digits|)
    && if digits == [] then rest == value
       else Numeral(Abs(value)) == (if rest == 0 then [] else Numeral(Abs(rest))) + Reverse(digits)
  }

  lemma SplitNext(value: int, rest: int, digits: string)
    requires SplitOff(value, rest, digits) && (rest != 0 || digits == [])
    ensures 0 <= ZERO + TruncMod10(rest) < |DIGITS|
    ensures SplitOff(value, TruncDiv10(rest), digits + [DIGITS[ZERO + TruncMod10(rest)]])
    ensures |digits| < MaxDigits(value)
  {
    MirroredTable(rest);
    ShiftBound(Abs(rest), MaxDigits(value) - |digits|);
    SplitNumeral(Abs(rest), digits);
  }

  /** The table looks up the last digit of the magnitude, whatever the sign. */
  lemma MirroredTable(i: int)
    ensures 0 <= ZERO + TruncMod10(i) < |DIGITS|
    ensures DIGITS[ZERO + TruncMod10(i)] == Digit(Abs(i) % 10)
    ensures Abs(TruncDiv10(i)) == Abs(i) / 10
  {
  }

  lemma ShiftBound(n: nat, room: nat)
    requires n < Pow10(room) && (n != 0 || room > 0)
    ensures room > 0 && n / 10 < Pow10(room - 1)
  {
    assert Pow10(0) == 1;
  }

  lemma StartSplit(value: int)
    requires IsWord(value)
    ensures SplitOff(value, value, [])
  {
    MagnitudeBound(value);
  }

  lemma EndSplit(value: int, digits: string)
    requires SplitOff(value, 0, digits) && digits != []
    ensures Text(value) == Reverse(if value < 0 then digits + ['-'] else digits)
  {
    ReverseAppend(digits, '-');
  }

  lemma SplitNumeral(n: nat, digits: string)
    ensures var more := digits + [Digit(n % 10)];
      Numeral(n) + Reverse(digits) == (if n / 10 == 0 then [] else Numeral(n / 10)) + Reverse(more)
  {
    ReverseAppend(digits, Digit(n % 10));
  }

  /** Writes the decimal text of the value at buf[at..], closes it with NUL, and returns its length:
      at most 20 characters for any 64-bit value, so the 32 that callers reserve are enough. */
  method Convert(buf: array<char>, at: nat, value: int) returns (len: nat)
    requires IsWord(value) && at + 32 <= buf.Length
    modifies buf
    ensures 1 <= len <= 20
    ensures buf[at..at + len] == Text(value) && buf[at + len] == '\0'
    ensures IsCanonical(buf[at..at + len]) && Parse(buf[at..at + len]) == value
    ensures forall k :: 0 <= k < at || at + len < k < buf.Length ==> buf[k] == old(buf[k])
  {
    var p := PutBackwards(buf, at, value);
    buf[p] := '\0';
    ReverseRange(buf, at, p);
    len := p - at;
    TextRoundTrip(value);
  }

  /** The digit loop and the sign: the text, backwards, at buf[at..p]. */
  method PutBackwards(buf: array<char>, at: nat, value: int) returns (p: nat)
    requires IsWord(value) && at + 32 <= buf.Length
    modifies buf
    ensures at + 1 <= p <= at + 20
    ensures Reverse(buf[at..p]) == Text(value)
    ensures forall k :: 0 <= k < at || p <= k < buf.Length ==> buf[k] == old(buf[k])
  {
    var i := value;
    p := at;
    ghost var digits := [];
    StartSplit(value);
    while i != 0 || p == at
      invariant SplitOff(value, i, digits)
      invariant p == at + |digits| <= at + MaxDigits(value) && buf[at..p] == digits
      invariant forall k :: 0 <= k < at || p <= k < buf.Length ==> buf[k] == old(buf[k])
      decreases MaxDigits(value) - |digits|
    {
      i, digits := PutDigit(buf, at, p, value, i, digits);
      p := p + 1;
    }
    EndSplit(value, digits);
    if value < 0 {
      digits := Put(buf, at, p, '-');
      p := p + 1;
    }
  }

  /** The body of the digit loop. */
  method PutDigit(buf: array<char>, at: nat, p: nat, ghost value: int, i: int, ghost digits: string)
    returns (rest: int, ghost more: string)
    requires at <= p < buf.Length && buf[at..p] == digits
    requires SplitOff(value, i, digits) && (i != 0 || digits == [])
    modifies buf
    ensures SplitOff(value, rest, more) && |more| == |digits| + 1 <= MaxDigits(value)
    ensures buf[at..p + 1] == more
    ensures forall k :: 0 <= k < buf.Length && k != p ==> buf[k] == old(buf[k])
  {
    SplitNext(value, i, digits);
    var lsd := TruncMod10(i);
    rest := TruncDiv10(i);
    more := Put(buf, at, p, DIGITS[ZERO + lsd]);
  }

  /** *p++ = c */
  method Put(buf: array<char>, at: nat, p: nat, c: char) returns (ghost text: string)
    requires at <= p < buf.Length
    modifies buf
    ensures text == old(buf[at..p]) + [c] == buf[at..p + 1]
    ensures forall k :: 0 <= k < buf.Length && k != p ==> buf[k] == old(buf[k])
  {
    buf[p] := c;
    text := buf[at..p + 1];
  }
}
