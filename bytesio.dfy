/** The in-memory byte stream (`io.BytesIO`) every read of the decoder goes
    through: an immutable buffer and a cursor that reads move forward and
    `seek` sets anywhere, including past the end. */
module Cursor {
  import opened Common

  /** What `read(n)` returns from `buf` with the cursor at `pos`: never an
      error, a short read at the end of the buffer, everything that is left
      when `n` is negative, and nothing once the cursor is at or past the end. */
  function ReadAt(buf: seq<Byte>, pos: nat, n: int): (r: seq<Byte>)
    ensures pos <= |buf| ==> pos + |r| <= |buf| && r == buf[pos..pos + |r|]
    ensures pos >= |buf| ==> r == []
    ensures pos <= |buf| && n < 0 ==> |r| == |buf| - pos
    ensures pos <= |buf| && n >= 0 ==> |r| == Min(n, |buf| - pos)
  {
    if pos >= |buf| then []
    else if n < 0 || pos + n > |buf| then buf[pos..]
    else buf[pos..pos + n]
  }

  /** Two adjacent slices make up the slice that spans both. */
  lemma {:induction false} SliceJoin(s: seq<Byte>, i: nat, j: nat, k: nat)
    requires i <= j <= k <= |s|
    ensures s[i..j] + s[j..k] == s[i..k]
  {
  }

  class BytesIO {
    const buf: seq<Byte>
    var pos: nat

    /** `BytesIO(b)`: the cursor starts at offset 0. */
    constructor (b: seq<Byte>)
      ensures buf == b && pos == 0
    {
      buf := b;
      pos := 0;
    }

    /** `read(n)`: returns the bytes `ReadAt` describes and moves the cursor
        past them. */
    method Read(n: int) returns (r: seq<Byte>)
      modifies this`pos
      ensures r == ReadAt(buf, old(pos), n)
      ensures pos == old(pos) + |r|
    {
      r := ReadAt(buf, pos, n);
      pos := pos + |r|;
    }

    /** `seek(p)` and `seek(d, 1)`: sets the cursor, which may pass the end. */
    method Seek(p: nat)
      modifies this`pos
      ensures pos == p
    {
      pos := p;
    }

    method Tell() returns (p: nat)
      ensures p == pos
    {
      p := pos;
    }
  }
}
