/**
  The fixed-size character buffer under every log line.
 */
module Buffers {

  const SMALL_BUFFER: nat := 4096
  const LARGE_BUFFER: nat := 4096 * 1000

  class FixedBuffer {
    const data: array<char>
    var cur: nat
    /** What the buffer holds. */
    ghost var text: string

    ghost predicate Valid()
      reads this, data
    {
      cur <= data.Length && data[..cur] == text
    }

    constructor (size: nat)
      ensures Valid() && text == "" && data.Length == size && fresh(data)
    {
      data := new char[size](_ => '\0');
      cur := 0;
      text := "";
    }

    function Avail(): int
      reads this
    {
      data.Length - cur
    }

    /** Appends a line when more than enough room is left; otherwise drops it silently. */
    method Append(line: string)
      requires Valid()
      modifies this, data
      ensures Valid() && text == old(text) + if old(Avail()) > |line| then line else []
    {
      if Avail() > |line| {
        forall i | 0 <= i < |line| {
          data[cur + i] := line[i];
        }
        cur := cur + |line|;
        text := text + line;
      }
    }

    /** Moves the cursor past `len` characters that a caller has written at the cursor itself. */
    method Add(len: nat)
      requires cur + len <= data.Length && data[..cur] == text
      modifies this
      ensures Valid() && text == old(text) + data[old(cur)..old(cur) + len]
    {
      text := data[..cur + len];
      cur := cur + len;
    }

    /** getData and getLength: what has been put in. */
    method Data() returns (s: string)
      requires Valid()
      ensures s == text
    {
      s := data[..cur];
    }

    method Reset()
      requires Valid()
      modifies this
      ensures Valid() && text == ""
    {
      cur := 0;
      text := "";
    }
  }
}
