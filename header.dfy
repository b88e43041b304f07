/** The Chapter 10 packet headers: the 24-byte primary header and the
    optional 12-byte secondary header, their 16-bit word sums, and the
    ordered validation `get_errors` performs.

    Word sums are taken over little-endian 16-bit words. The source sums
    `array('H', ...)`, whose byte order is that of the host; the model fixes
    the little-endian hosts it is normally run on. */
module Header {
  import opened Common
  import opened BitFormat

  const SYNC_PATTERN: nat := 0xEB25
  const MAX_DATA_LENGTH: nat := 524288
  const PRIMARY_SIZE: nat := 24
  const SECONDARY_SIZE: nat := 12

  function U(name: string, width: nat): Field { Field(Some(name), width) }

  /** The primary header layout (`Packet.FORMAT`). */
  const PRIMARY: Format := [
    U("sync_pattern", 16), U("channel_id", 16), U("packet_length", 32),
    U("data_length", 32), U("header_version", 8), U("sequence_number", 8),
    U("secondary_header", 1), U("ipts_source", 1), U("rtc_sync_error", 1),
    U("data_overflow_error", 1), U("secondary_format", 2),
    U("data_checksum_present", 2), U("data_type", 8), U("rtc", 48),
    U("header_checksum", 16)]

  /** The secondary header layout (`Packet.SECONDARY_FORMAT`); its 16
      reserved bits are padding. */
  const SECONDARY: Format := [
    U("secondary_time", 64), Field(None, 16), U("secondary_checksum", 16)]

  /** The little-endian 16-bit word `i` of `s`. */
  function Word(s: seq<Byte>, i: nat): nat
    requires 2 * i + 1 < |s|
  {
    s[2 * i] as int + 256 * (s[2 * i + 1] as int)
  }

  /** The plain sum of the first `k` words of `s`. */
  function WordSum(s: seq<Byte>, k: nat): nat
    requires 2 * k <= |s|
  {
    if k == 0 then 0 else WordSum(s, k - 1) + Word(s, k - 1)
  }

  /** `sum(array('H', s)[:-1]) & 0xffff`: every word but the last, modulo
      2^16; an odd number of bytes is a `ValueError`. */
  function HeaderSums(s: seq<Byte>): (r: Result<nat>)
    ensures r.Err? <==> |s| % 2 == 1
    ensures r.Err? ==> r.error == ValueError
    ensures r.Ok? ==> r.value < 65536
  {
    if |s| % 2 == 1 then Err(ValueError)
    else Ok(WordSum(s, if |s| == 0 then 0 else |s| / 2 - 1) % 65536)
  }

  lemma {:induction false} WordSumOfPrefix(s: seq<Byte>, t: seq<Byte>, k: nat)
    requires 2 * k <= |s| && 2 * k <= |t|
    requires s[..2 * k] == t[..2 * k]
    ensures WordSum(s, k) == WordSum(t, k)
  {
    if k > 0 {
      assert s[..2 * (k - 1)] == s[..2 * k][..2 * (k - 1)];
      assert t[..2 * (k - 1)] == t[..2 * k][..2 * (k - 1)];
      WordSumOfPrefix(s, t, k - 1);
      assert s[2 * (k - 1)] == s[..2 * k][2 * (k - 1)];
      assert s[2 * (k - 1) + 1] == s[..2 * k][2 * (k - 1) + 1];
    }
  }

  /** The sums cover every word except the final one: the checksum word
      itself never influences them. For a 24-byte primary header they are
      the sum of its first 11 words. */
  lemma {:induction false} ChecksumWordExcluded(h: seq<Byte>, g: seq<Byte>)
    requires |h| == |g| && |h| % 2 == 0 && |h| >= 2
    requires h[..|h| - 2] == g[..|g| - 2]
    ensures HeaderSums(h) == HeaderSums(g)
    ensures |h| == PRIMARY_SIZE ==> HeaderSums(h) == Ok(WordSum(h, 11) % 65536)
  {
    WordSumOfPrefix(h, g, |h| / 2 - 1);
  }

  lemma {:induction false} WordSumUpdate(s: seq<Byte>, i: nat, b: Byte, k: nat)
    requires i < |s| && 2 * k <= |s|
    ensures WordSum(s[i := b], k) ==
            WordSum(s, k) + (if i < 2 * k then (b - s[i]) * (if i % 2 == 0 then 1 else 256) else 0)
  {
    if k > 0 {
      WordSumUpdate(s, i, b, k - 1);
    }
  }

  lemma {:induction false} ModuloSeparates(a: int, e: int)
    requires a >= 0 && a + e >= 0
    requires 0 < e < 65536 || -65536 < e < 0
    ensures (a + e) % 65536 != a % 65536
  {
    var q, q' := a / 65536, (a + e) / 65536;
    assert a == q * 65536 + a % 65536;
    assert a + e == q' * 65536 + (a + e) % 65536;
    if q' > q {
      assert (q' - q) * 65536 >= 65536;
    } else if q' < q {
      assert (q - q') * 65536 >= 65536;
    }
  }

  /** Changing any one byte of the first 22 bytes of a primary header (any
      single-bit flip in particular) always changes its sums. */
  lemma {:induction false} ByteChangeChangesSums(h: seq<Byte>, i: nat, b: Byte)
    requires |h| == PRIMARY_SIZE && i < 22 && b != h[i]
    ensures HeaderSums(h[i := b]) != HeaderSums(h)
  {
    WordSumUpdate(h, i, b, 11);
    var e := (b - h[i]) * (if i % 2 == 0 then 1 else 256);
    assert 0 < e < 65536 || -65536 < e < 0 by {
      if i % 2 == 0 {
        assert e == b - h[i];
      } else {
        assert e == (b - h[i]) * 256;
        assert -255 <= b - h[i] <= 255;
      }
    }
    ModuloSeparates(WordSum(h, 11), e);
  }

  predicate SyncOk(fields: Fields) { Get(fields, "sync_pattern") == SYNC_PATTERN }
  predicate HeaderSumOk(fields: Fields, headerSums: nat) { headerSums == Get(fields, "header_checksum") }
  predicate HasSecondary(fields: Fields) { Get(fields, "secondary_header") != 0 }
  predicate SecondarySumOk(fields: Fields, secondarySums: nat) { secondarySums == Get(fields, "secondary_checksum") }

  /** `get_errors`: the first failing test in a fixed order, or nothing. The
      sync pattern wins over everything; a checksum mismatch is reported only
      with a good sync; the secondary sum is tested only when a secondary
      header is flagged, and the length cap only when it is not, so a packet
      with a secondary header is never length-capped. */
  function GetErrors(fields: Fields, headerSums: nat, secondarySums: nat): (r: Option<Reason>)
    ensures !SyncOk(fields) ==> r == Some(BadSyncPattern)
    ensures r == Some(HeaderChecksumMismatch) <==>
              SyncOk(fields) && !HeaderSumOk(fields, headerSums)
    ensures r == Some(SecondaryChecksumMismatch) <==>
              SyncOk(fields) && HeaderSumOk(fields, headerSums) && HasSecondary(fields) &&
              !SecondarySumOk(fields, secondarySums)
    ensures r == Some(DataLengthTooLarge) <==>
              SyncOk(fields) && HeaderSumOk(fields, headerSums) && !HasSecondary(fields) &&
              Get(fields, "data_length") > MAX_DATA_LENGTH
    ensures r.None? <==>
              SyncOk(fields) && HeaderSumOk(fields, headerSums) &&
              (if HasSecondary(fields) then SecondarySumOk(fields, secondarySums)
               else Get(fields, "data_length") <= MAX_DATA_LENGTH)
  {
    if Get(fields, "sync_pattern") != SYNC_PATTERN then Some(BadSyncPattern)
    else if headerSums != Get(fields, "header_checksum") then Some(HeaderChecksumMismatch)
    else if Get(fields, "secondary_header") != 0 then
      (if secondarySums != Get(fields, "secondary_checksum") then Some(SecondaryChecksumMismatch) else None)
    else if Get(fields, "data_length") > MAX_DATA_LENGTH then Some(DataLengthTooLarge)
    else None
  }

  lemma {:induction false} PrimaryIs24Bytes()
    ensures SizeBits(PRIMARY) == 8 * PRIMARY_SIZE
    ensures SizeBits(SECONDARY) == 8 * SECONDARY_SIZE
  {
    assert SizeFrom(PRIMARY, 8) == 78;
  }
}
