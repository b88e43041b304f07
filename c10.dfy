/** The packet stream (`C10.__next__`): try to read a packet at the
    current offset; return it when it checks out, stop on `struct.error`,
    and on any other failure retry one byte further on. */
module Stream {
  import opened Common
  import opened Cursor
  import opened BitFormat
  import opened Header
  import opened Body
  import opened Packets

  /** The result of one call of `__next__`: the packet, the offset it was
      read from and the offset its reads stopped at, or the end of
      iteration raised at offset `at`. */
  datatype Outcome = Found(packet: PacketValue, at: nat, next: nat) | Stop(at: nat)

  /** What `Packet(file)` does with the cursor at each offset of a source:
      a built packet and where its reads stopped, or the exception raised. */
  type Attempts = nat -> Result<Decoded>

  /** The attempts on `src` with the generic packet class. */
  function AttemptsOn(x: Codec, src: seq<Byte>): Attempts
  {
    (k: nat) => Decode(BASE, x, src, k)
  }

  /** From offset `size` on, every attempt raises `struct.error`. */
  ghost predicate EndsAt(a: Attempts, size: nat)
  {
    forall k :: k >= size ==> a(k) == Err(StructError)
  }

  /** An attempt at offset `k` that the loop retries from: the packet is
      built but fails `check()`, or its construction raises something other
      than `struct.error`. */
  predicate Retries(a: Attempts, k: nat)
  {
    match a(k)
    case Ok(d) => !Check(d.packet)
    case Err(e) => e != StructError
  }

  /** An attempt the loop does not retry from ends the call. */
  function Settle(a: Attempts, k: nat): Outcome
  {
    match a(k)
    case Ok(d) => Found(d.packet, k, d.next)
    case Err(_) => Stop(k)
  }

  /** `__next__` with the cursor at `start` of a source of `size` bytes,
      with the retry seeking to the failed attempt's own start plus one. The
      loop is cut at the end of the source; there every attempt raises
      `struct.error` (`AttemptsEnd`), so the cut never changes the outcome. */
  function NextFrom(a: Attempts, size: nat, start: nat): Outcome
    decreases size - start
  {
    if start < size && Retries(a, start) then NextFrom(a, size, start + 1) else Settle(a, start)
  }

  /** On a real source, attempts raise `struct.error` once the cursor is at
      or past the end. */
  lemma {:induction false} AttemptsEnd(x: Codec, src: seq<Byte>)
    ensures EndsAt(AttemptsOn(x, src), |src|)
  {
    forall k: nat | k >= |src|
      ensures AttemptsOn(x, src)(k) == Err(StructError)
    {
      ShortHeaderFails(BASE, x, src, k);
    }
  }

  /** `__next__` settles at the first offset at or after `start` that it
      does not retry from, and every offset before it was retried, each one
      byte after the last. */
  lemma {:induction false} NextFromSettles(a: Attempts, size: nat, start: nat)
    requires EndsAt(a, size)
    ensures var at := NextFrom(a, size, start).at;
            start <= at && !Retries(a, at) && NextFrom(a, size, start) == Settle(a, at) &&
            forall k :: start <= k < at ==> Retries(a, k)
    decreases size - start
  {
    if Retries(a, start) {
      NextFromSettles(a, size, start + 1);
    }
  }

  /** What `__next__` returns or raises: a packet from the first offset at
      or after `start` where one is built and checks out, every offset
      before it having been retried; or the end of iteration at the first
      offset where `struct.error` is raised. */
  lemma {:induction false} NextFromSpec(a: Attempts, size: nat, start: nat)
    requires EndsAt(a, size)
    ensures match NextFrom(a, size, start)
            case Found(p, at, next) =>
              start <= at && a(at) == Ok(Decoded(p, next)) && Check(p) &&
              forall k :: start <= k < at ==> Retries(a, k)
            case Stop(at) =>
              start <= at && a(at) == Err(StructError) &&
              forall k :: start <= k < at ==> Retries(a, k)
  {
    NextFromSettles(a, size, start);
  }

  /** Conversely, the first offset that does not retry decides the outcome. */
  lemma {:induction false} FirstChanceDecides(a: Attempts, size: nat, start: nat, at: nat)
    requires EndsAt(a, size)
    requires start <= at && !Retries(a, at)
    requires forall k :: start <= k < at ==> Retries(a, k)
    ensures NextFrom(a, size, start) == Settle(a, at)
    decreases at - start
  {
    if start < at {
      assert Retries(a, start);
      FirstChanceDecides(a, size, start + 1, at);
    }
  }

  /** Iteration always ends once the cursor is at or past the end. */
  lemma {:induction false} EndOfSourceStops(a: Attempts, size: nat, start: nat)
    requires EndsAt(a, size) && start >= size
    ensures NextFrom(a, size, start) == Stop(start)
  {
    assert a(start) == Err(StructError);
  }

  /** A returned packet's `check()` always holds for the generic packet: its
      construction already raised on every error `check()` reports. */
  lemma {:induction false} FoundPacketsAlwaysCheck(x: Codec, src: seq<Byte>, k: nat)
    requires Lawful(x)
    requires Decode(BASE, x, src, k).Ok?
    ensures !Retries(AttemptsOn(x, src), k)
  {
    PrimaryIs24Bytes();
    DecodedPacketChecks(BASE, x, src, k);
  }

  // ---------------------------------------------------------- as written

  /** `__next__` as written: the retry seeks to `p.pos + 1`, but `p` is
      unbound when construction raised, and a built packet has no `pos`, so
      every retry raises instead. */
  datatype AsWritten = Returned(packet: PacketValue, next: nat) | Stopped | Crashed

  function NextAsWritten(a: Attempts, start: nat): (r: AsWritten)
    ensures r == Crashed <==> Retries(a, start)
  {
    match a(start)
    case Ok(d) => if Check(d.packet) then Returned(d.packet, d.next) else Crashed
    case Err(StructError) => Stopped
    case Err(_) => Crashed
  }

  /** A single stray byte: the sum of an odd number of bytes raises
      `ValueError`, so the loop as written crashes where the retry reaches
      the end of the source and stops. */
  lemma {:induction false} StrayByteCrashes(x: Codec)
    ensures NextAsWritten(AttemptsOn(x, [0]), 0) == Crashed
    ensures NextFrom(AttemptsOn(x, [0]), 1, 0) == Stop(1)
  {
    PrimaryIs24Bytes();
    assert Decode(BASE, x, [0], 0) == Err(ValueError);
    AttemptsEnd(x, [0]);
    EndOfSourceStops(AttemptsOn(x, [0]), 1, 1);
  }

  /** A misaligned attempt fewer than 48 bytes before the end, whose 24
      bytes decode with `secondary_header` set, reads the secondary header
      short: with an even remainder or a full first 12 bytes, the second
      12-byte read is short and `unpack` raises `struct.error`. */
  lemma {:induction false} BogusSecondaryStops(x: Codec, src: seq<Byte>, k: nat)
    requires k + 24 <= |src| < k + 48
    requires (|src| - k - 24) % 2 == 0 || |src| - k - 24 >= 12
    requires HasSecondary(x(PRIMARY, src[k..k + 24]))
    ensures Decode(BASE, x, src, k) == Err(StructError)
  {
    PrimaryIs24Bytes();
    assert ReadAt(src, k, 24) == src[k..k + 24];
  }

  /** So `__next__` can stop before a packet that checks out: every offset
      from `start` to `k` is retried, the attempt at `k` raises
      `struct.error` as above, and the packet at `j` after it is never
      reached; the literal loop started at `k` stops there too. Retrying
      on every failure instead returns the packet at `j`. */
  lemma {:induction false} LaterPacketMissed(x: Codec, src: seq<Byte>, start: nat, k: nat, j: nat)
    requires start <= k < j
    requires k + 24 <= |src| < k + 48
    requires (|src| - k - 24) % 2 == 0 || |src| - k - 24 >= 12
    requires HasSecondary(x(PRIMARY, src[k..k + 24]))
    requires forall i :: start <= i < k ==> Retries(AttemptsOn(x, src), i)
    requires Yields(AttemptsOn(x, src), j)
    requires forall i :: start <= i < j ==> !Yields(AttemptsOn(x, src), i)
    ensures NextFrom(AttemptsOn(x, src), |src|, start) == Stop(k)
    ensures NextAsWritten(AttemptsOn(x, src), k) == Stopped
    ensures Resync(AttemptsOn(x, src), |src|, start) ==
            Found(Decode(BASE, x, src, j).value.packet, j, Decode(BASE, x, src, j).value.next)
  {
    BogusSecondaryStops(x, src, k);
    AttemptsEnd(x, src);
    FirstChanceDecides(AttemptsOn(x, src), |src|, start, k);
    ResyncNeverMisses(x, src, start, j);
  }

  /** Neither loop returns a packet from, or stops at, an offset before the
      one it starts from. */
  lemma {:induction false} NeitherLoopGoesBack(a: Attempts, size: nat, from: nat)
    requires EndsAt(a, size)
    ensures NextFrom(a, size, from).at >= from && Resync(a, size, from).at >= from
  {
    NextFromSpec(a, size, from);
    ResyncSpec(a, size, from);
  }

  /** After a packet whose reads stopped 12 bytes past its end, as
      `SecondaryOvershoots` shows they do for a whole packet with a secondary
      header, neither loop can return a packet that begins right at that
      end: the next call starts where the reads stopped (`DecodedNext`). */
  lemma {:induction false} NextPacketSkipped(x: Codec, src: seq<Byte>, start: nat, end: nat)
    requires OpenAt(x, src, start).Ok? && OpenAt(x, src, start).value.next == end + 12
    ensures NextFrom(AttemptsOn(x, src), |src|, OpenAt(x, src, start).value.next).at > end
    ensures Resync(AttemptsOn(x, src), |src|, OpenAt(x, src, start).value.next).at > end
  {
    AttemptsEnd(x, src);
    NeitherLoopGoesBack(AttemptsOn(x, src), |src|, end + 12);
  }

  // ------------------------------------------------------------ corrected

  /** An attempt that builds a packet passing `check()`. */
  predicate Yields(a: Attempts, k: nat)
  {
    a(k).Ok? && Check(a(k).value.packet)
  }

  /** Resynchronisation as intended: every failed attempt, `struct.error`
      included, is retried one byte further on, and iteration ends only
      once fewer than 24 bytes remain. */
  function Resync(a: Attempts, size: nat, start: nat): Outcome
    decreases size - start
  {
    if size < start + 24 then Stop(start)
    else if Yields(a, start) then Found(a(start).value.packet, start, a(start).value.next)
    else Resync(a, size, start + 1)
  }

  /** What `Resync` returns: the first offset that yields a packet, or the
      end once fewer than 24 bytes remain, with nothing yielded before. */
  lemma {:induction false} ResyncSpec(a: Attempts, size: nat, start: nat)
    ensures match Resync(a, size, start)
            case Found(p, at, next) =>
              start <= at && at + 24 <= size && a(at) == Ok(Decoded(p, next)) && Check(p) &&
              forall k :: start <= k < at ==> !Yields(a, k)
            case Stop(at) =>
              at == (if size < start + 24 then start else size - 23) &&
              forall k :: start <= k < at ==> !Yields(a, k)
    decreases size - start
  {
    if size >= start + 24 && !Yields(a, start) {
      ResyncSpec(a, size, start + 1);
    }
  }

  /** Conversely, a packet that checks out at `j` is returned when no
      offset from `start` to `j` yields one. */
  lemma {:induction false} ResyncFindsFirst(a: Attempts, size: nat, start: nat, j: nat)
    requires start <= j && j + 24 <= size && Yields(a, j)
    requires forall k :: start <= k < j ==> !Yields(a, k)
    ensures Resync(a, size, start) == Found(a(j).value.packet, j, a(j).value.next)
    decreases j - start
  {
    if start < j {
      assert !Yields(a, start);
      ResyncFindsFirst(a, size, start + 1, j);
    }
  }

  /** On a real source no packet is missed: the first offset at or after
      `start` where a packet checks out is the one returned, however many
      stray bytes come before it. */
  lemma {:induction false} ResyncNeverMisses(x: Codec, src: seq<Byte>, start: nat, j: nat)
    requires start <= j && Yields(AttemptsOn(x, src), j)
    requires forall k :: start <= k < j ==> !Yields(AttemptsOn(x, src), k)
    ensures Resync(AttemptsOn(x, src), |src|, start) ==
            Found(Decode(BASE, x, src, j).value.packet, j, Decode(BASE, x, src, j).value.next)
  {
    if j + 24 > |src| {
      ShortHeaderFails(BASE, x, src, j);
      assert false;
    }
    ResyncFindsFirst(AttemptsOn(x, src), |src|, start, j);
  }

  // ------------------------------------------------------------- class

  class C10 {
    const file: BytesIO

    constructor (f: BytesIO)
      ensures file == f
    {
      file := f;
    }

    /** `__next__`: `None` stands for `StopIteration`. After a returned
        packet the cursor stays where the packet's reads left it. */
    method Next(x: Codec) returns (r: Option<Packet>)
      modifies file`pos
      ensures match NextFrom(AttemptsOn(x, file.buf), |file.buf|, old(file.pos))
              case Found(p, at, next) => r.Some? && fresh(r.value) && r.value.Value() == p && file.pos == next
              case Stop(_) => r.None?
    {
      PrimaryIs24Bytes();
      ghost var a := AttemptsOn(x, file.buf);
      AttemptsEnd(x, file.buf);
      var start := file.pos;
      while true
        invariant file.pos == start
        invariant NextFrom(a, |file.buf|, start) == NextFrom(a, |file.buf|, old(file.pos))
        decreases |file.buf| - start
      {
        var attempt := ReadPacket(file, BASE, x);
        assert a(start) == Decode(BASE, x, file.buf, start);
        if attempt.Ok? && Check(attempt.value.Value()) {
          return Some(attempt.value);
        }
        if attempt.Err? && attempt.error == StructError {
          return None;
        }
        assert Retries(a, start);
        file.Seek(start + 1);
        start := start + 1;
      }
    }

    /** The intended `__next__`: retry on every failure, `struct.error`
        included, until fewer than 24 bytes remain. */
    method NextResynced(x: Codec) returns (r: Option<Packet>)
      modifies file`pos
      ensures match Resync(AttemptsOn(x, file.buf), |file.buf|, old(file.pos))
              case Found(p, at, next) => r.Some? && fresh(r.value) && r.value.Value() == p && file.pos == next
              case Stop(_) => r.None?
    {
      ghost var a := AttemptsOn(x, file.buf);
      var start := file.pos;
      while start + 24 <= |file.buf|
        invariant file.pos == start
        invariant Resync(a, |file.buf|, start) == Resync(a, |file.buf|, old(file.pos))
        decreases |file.buf| - start
      {
        var attempt := ReadPacket(file, BASE, x);
        assert a(start) == Decode(BASE, x, file.buf, start);
        if attempt.Ok? && Check(attempt.value.Value()) {
          return Some(attempt.value);
        }
        assert !Yields(a, start);
        file.Seek(start + 1);
        start := start + 1;
      }
      return None;
    }
  }
}
