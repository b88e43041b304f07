/** Values shared by every part of the Chapter 10 decoder: bytes, optional
    values, and the failures a decode attempt can end with. */
module Common {

  /** One byte of a recording. */
  type Byte = b: int | 0 <= b < 256

  datatype Option<+T> = None | Some(value: T)

  /** Why `get_errors` rejects a packet (the four `InvalidPacket` messages). */
  datatype Reason =
    | BadSyncPattern             // 'Incorrect sync pattern!'
    | HeaderChecksumMismatch     // 'Header checksum mismatch!'
    | SecondaryChecksumMismatch  // 'Secondary header checksum mismatch!'
    | DataLengthTooLarge         // 'Data length larger than allowed!'

  /** The exceptions a packet read can raise.
      StructError: the bit-field codec was handed fewer bytes than its format needs.
      ValueError: `array('H', ...)` was handed an odd number of bytes.
      InvalidPacket: construction found a non-empty `get_errors()`. */
  datatype Failure = StructError | ValueError | InvalidPacket(reason: Reason)

  /** A value or the exception that replaced it; usable with `:-`. */
  datatype Result<+T> = Ok(value: T) | Err(error: Failure) {
    predicate IsFailure() { Err? }
    function PropagateFailure<U>(): Result<U>
      requires Err?
    {
      Err(error)
    }
    function Extract(): T
      requires Ok?
    {
      value
    }
  }

  function Pow2(n: nat): (r: nat)
    ensures r >= 1
  {
    if n == 0 then 1 else 2 * Pow2(n - 1)
  }

  /** The field-width bounds the schemas need. */
  lemma {:induction false} Pow2Values()
    ensures Pow2(2) == 4 && Pow2(16) == 65536
  {
    assert Pow2(1) == 2;
    assert Pow2(2) == 4;
    assert Pow2(3) == 8;
    assert Pow2(4) == 16;
    assert Pow2(5) == 32;
    assert Pow2(6) == 64;
    assert Pow2(7) == 128;
    assert Pow2(8) == 256;
    assert Pow2(9) == 512;
    assert Pow2(10) == 1024;
    assert Pow2(11) == 2048;
    assert Pow2(12) == 4096;
    assert Pow2(13) == 8192;
    assert Pow2(14) == 16384;
    assert Pow2(15) == 32768;
  }

  function Min(a: int, b: int): int { if a <= b then a else b }
}
