/** One Chapter 10 packet read from a byte stream: the header reads and
    sums, the retained raw buffer, validation, body parsing, re-serialisation
    and snapshot/restore. */
module Packets {
  import opened Common
  import opened Cursor
  import opened BitFormat
  import opened Header
  import opened Body

  // ------------------------------------------------------ specification

  /** What the constructor has read before it validates: the decoded header
      fields, both sums, the retained buffer (header, secondary header,
      body), the header size and the source offset its reads reached. */
  datatype Opened = Opened(
    fields: Fields, headerSums: nat, secondarySums: nat,
    raw: seq<Byte>, headerSize: nat, next: nat)

  /** The body read and the validation that end the header stage: it fails
      exactly when `get_errors` reports something, and otherwise retains the
      headers followed by the body bytes read from `pos` on. */
  function Finish(fields: Fields, headerSums: nat, secondarySums: nat,
                  header: seq<Byte>, secondary: seq<Byte>, src: seq<Byte>, pos: nat): (r: Result<Opened>)
    ensures r.Err? <==> GetErrors(fields, headerSums, secondarySums).Some?
    ensures r.Err? ==> r.error == InvalidPacket(GetErrors(fields, headerSums, secondarySums).value)
    ensures r.Ok? ==> r.value.fields == fields && r.value.headerSums == headerSums &&
                      r.value.secondarySums == secondarySums && r.value.headerSize == |header| + |secondary|
    ensures r.Ok? && pos <= |src| ==>
              pos <= r.value.next <= |src| && r.value.raw == header + secondary + src[pos..r.value.next]
    ensures r.Ok? && pos <= |src| && |header| + |secondary| <= Get(fields, "packet_length") ==>
              r.value.next == pos + Min(Get(fields, "packet_length") - |header| - |secondary|, |src| - pos)
    ensures r.Ok? && pos <= |src| && |header| + |secondary| > Get(fields, "packet_length") ==>
              r.value.next == |src|
  {
    var headerSize := |header| + |secondary|;
    var body := ReadAt(src, pos, Get(fields, "packet_length") - headerSize);
    match GetErrors(fields, headerSums, secondarySums)
    case Some(reason) => Err(InvalidPacket(reason))
    case None => Ok(Opened(fields, headerSums, secondarySums, header + secondary + body, headerSize, pos + |body|))
  }

  /** The header stage of `Packet.__init__` at offset `start` of `src`: the
      24-byte primary header, its sums and fields, then the secondary header
      when one is flagged. */
  function OpenAt(x: Codec, src: seq<Byte>, start: nat): (r: Result<Opened>)
    ensures r.Ok? ==> GetErrors(r.value.fields, r.value.headerSums, r.value.secondarySums).None?
  {
    var header := ReadAt(src, start, 24);
    var sums :- HeaderSums(header);
    var primary :- Unpack(x, PRIMARY, header);
    if HasSecondary(primary) then SecondaryAt(x, src, start + |header|, primary, sums, header)
    else Finish(primary, sums, 0, header, [], src, start + |header|)
  }

  /** The secondary header is read twice: its sums come from the 12 bytes at
      `pos`, its fields from the 12 bytes after those, and the body read
      starts after both. */
  function SecondaryAt(x: Codec, src: seq<Byte>, pos: nat, primary: Fields, sums: nat, header: seq<Byte>): (r: Result<Opened>)
    ensures r.Ok? ==> pos + 24 <= r.value.next <= |src| && r.value.headerSize == |header| + 12 &&
                      r.value.fields == primary + x(SECONDARY, src[pos + 12..pos + 24]) &&
                      r.value.raw == header + src[pos..pos + 12] + src[pos + 24..r.value.next]
    ensures r.Ok? ==> r.value.headerSums == sums &&
                      r.value.secondarySums == HeaderSums(src[pos..pos + 12]).value
    ensures r.Ok? ==> GetErrors(r.value.fields, r.value.headerSums, r.value.secondarySums).None?
  {
    var secondary := ReadAt(src, pos, 12);
    var secondarySums :- HeaderSums(secondary);
    var again := ReadAt(src, pos + |secondary|, 12);
    var secondaryFields :- Unpack(x, SECONDARY, again);
    Finish(primary + secondaryFields, sums, secondarySums, header, secondary, src,
           pos + |secondary| + |again|)
  }

  /** `Packet.parse_data` from cursor `pos` of the retained buffer: a flat
      body, or the item walker bounded by the CSDW's start plus
      `data_length`; `data` is only replaced by a flat body. */
  function PacketData(s: Schema, x: Codec, buf: seq<Byte>, pos: nat, fields: Fields, data: seq<Byte>): Result<Parsed>
    requires Walkable(s)
  {
    if s.iph.None? then FlatBody(s, x, buf, pos, Get(fields, "packet_length") - HeaderLen(fields), fields, [])
    else WalkBody(s, x, buf, pos, pos - 4 + Get(fields, "data_length"), fields, data)
  }

  /** `Packet.parse`: the CSDW, then the data. */
  function PacketBody(s: Schema, x: Codec, buf: seq<Byte>, pos: nat, fields: Fields, data: seq<Byte>): Result<Parsed>
    requires Walkable(s)
  {
    var c :- CsdwAt(s, x, buf, pos);
    PacketData(s, x, buf, c.pos, fields + c.fields, data)
  }

  /** Everything a constructed packet holds. */
  datatype PacketValue = PacketValue(
    schema: Schema, fields: Fields, headerSums: nat, secondarySums: nat,
    raw: seq<Byte>, cursor: nat, data: seq<Byte>, items: seq<Item>)

  datatype Decoded = Decoded(packet: PacketValue, next: nat)

  /** `Packet(file)` with the file at `start` of `src`: the packet and the
      source offset where its reads stopped, or the exception raised. */
  function Decode(s: Schema, x: Codec, src: seq<Byte>, start: nat): Result<Decoded>
    requires Walkable(s)
  {
    var o :- OpenAt(x, src, start);
    var b :- PacketBody(s, x, o.raw, o.headerSize, o.fields, []);
    Ok(Decoded(PacketValue(s, b.fields, o.headerSums, o.secondarySums, o.raw, b.pos, b.data, b.items), o.next))
  }

  /** A built packet got past the header stage, and the source is left
      where that stage's reads stopped. */
  lemma {:induction false} DecodedNext(s: Schema, x: Codec, src: seq<Byte>, start: nat)
    requires Walkable(s) && Decode(s, x, src, start).Ok?
    ensures OpenAt(x, src, start).Ok? && Decode(s, x, src, start).value.next == OpenAt(x, src, start).value.next
  {
  }

  /** `check()`: `get_errors()` finds nothing. */
  predicate Check(p: PacketValue)
  {
    GetErrors(p.fields, p.headerSums, p.secondarySums).None?
  }

  /** `check()` holds exactly when the sync pattern and the header sum
      match and, with a secondary header, its sum matches, or, without one,
      `data_length` is within the cap. */
  lemma {:induction false} CheckIffValid(p: PacketValue)
    ensures Check(p) <==>
            SyncOk(p.fields) && HeaderSumOk(p.fields, p.headerSums) &&
            (if HasSecondary(p.fields) then SecondarySumOk(p.fields, p.secondarySums)
             else Get(p.fields, "data_length") <= MAX_DATA_LENGTH)
  {
  }

  /** The attribute names `get_errors` reads: five decoded fields and the
      two sums the constructor sets. The model keeps the sums apart from the
      decoded fields, but in a packet object a body field of either name
      would overwrite them, so a body format must not declare them either. */
  const CHECKED_NAMES: set<string> :=
    {"sync_pattern", "header_checksum", "secondary_header", "secondary_checksum", "data_length",
     "header_sums", "secondary_sums"}

  /** A body format declares no field that would overwrite an attribute
      `get_errors` reads. */
  predicate KeepsChecked(f: Option<Format>)
  {
    f.Some? ==> forall i :: 0 <= i < |f.value| && f.value[i].name.Some? ==> f.value[i].name.value !in CHECKED_NAMES
  }

  // ------------------------------------------------------------ lemmas

  /** Merging what a body format decodes leaves every checked attribute as
      it was, when the format declares none of them. */
  lemma {:induction false} MergeKeepsChecked(m: Fields, f: Option<Format>, extra: Fields)
    requires KeepsChecked(f)
    requires f.Some? ==> Shaped(f.value, extra)
    requires f.None? ==> extra == map[]
    ensures forall k :: k in CHECKED_NAMES ==> Get(m + extra, k) == Get(m, k)
  {
    if f.Some? {
      forall k | k in CHECKED_NAMES
        ensures k !in extra
      {
        assert forall i :: 0 <= i < |f.value| && f.value[i].name.Some? ==> f.value[i].name.value != k;
      }
    }
  }

  /** Parsing the body leaves every checked attribute as the header set it,
      given body formats that do not declare one. */
  lemma {:induction false} BodyKeepsChecked(s: Schema, x: Codec, buf: seq<Byte>, pos: nat, fields: Fields, data: seq<Byte>)
    requires Lawful(x) && Walkable(s) && KeepsChecked(s.csdw) && KeepsChecked(s.dataFormat)
    requires PacketBody(s, x, buf, pos, fields, data).Ok?
    ensures forall k :: k in CHECKED_NAMES ==>
              Get(PacketBody(s, x, buf, pos, fields, data).value.fields, k) == Get(fields, k)
  {
    var c := CsdwAt(s, x, buf, pos).value;
    if s.csdw.Some? {
      UnpackShaped(x, s.csdw.value, ReadAt(buf, pos, 4));
    }
    MergeKeepsChecked(fields, s.csdw, c.fields);
    var merged := fields + c.fields;
    if s.iph.None? && s.dataFormat.Some? {
      var n := Get(merged, "packet_length") - HeaderLen(merged);
      var flat := FlatAt(s, x, buf, c.pos, n).value;
      UnpackShaped(x, s.dataFormat.value, flat.data[..Min(SizeBits(s.dataFormat.value), |flat.data|)]);
      MergeKeepsChecked(merged, s.dataFormat, flat.fields);
    }
  }

  /** Construction raises whenever `get_errors` finds something, so every
      packet it returns passes `check()` (given body formats that do not
      overwrite the checked attributes, as none does). */
  lemma {:induction false} DecodedPacketChecks(s: Schema, x: Codec, src: seq<Byte>, start: nat)
    requires Lawful(x) && Walkable(s) && KeepsChecked(s.csdw) && KeepsChecked(s.dataFormat)
    requires Decode(s, x, src, start).Ok?
    ensures Check(Decode(s, x, src, start).value.packet)
  {
    PrimaryIs24Bytes();
    var o := OpenAt(x, src, start).value;
    BodyKeepsChecked(s, x, o.raw, o.headerSize, o.fields, []);
  }

  /** The header stage without a secondary header: the retained buffer is
      one contiguous stretch of the source, ending where the reads stopped. */
  lemma {:induction false} OpenedPlain(x: Codec, src: seq<Byte>, start: nat, primary: Fields)
    requires OpenAt(x, src, start).Ok?
    requires Unpack(x, PRIMARY, ReadAt(src, start, 24)) == Ok(primary) && !HasSecondary(primary)
    ensures var o := OpenAt(x, src, start).value;
            o.fields == primary && o.headerSize == 24 && start + 24 <= o.next <= |src| &&
            o.raw == src[start..o.next] && o.headerSums == HeaderSums(src[start..start + 24]).value
  {
    PrimaryIs24Bytes();
    var header := ReadAt(src, start, 24);
    assert |header| == 24;
    var o := Finish(primary, HeaderSums(header).value, 0, header, [], src, start + 24);
    assert OpenAt(x, src, start) == o;
    assert header + [] == header;
    SliceJoin(src, start, start + 24, o.value.next);
  }

  /** The secondary header stage: the secondary fields decoded by a lawful
      codec never clear the flag that called for them. */
  lemma {:induction false} SecondaryFlagKept(x: Codec, primary: Fields, again: seq<Byte>)
    requires Lawful(x) && HasSecondary(primary)
    ensures HasSecondary(primary + x(SECONDARY, again))
  {
    var m := x(SECONDARY, again);
    assert Shaped(SECONDARY, m);
    assert forall i :: 0 <= i < |SECONDARY| ==> SECONDARY[i].name != Some("secondary_header");
  }

  /** Where the header stage's bytes come from. A packet always starts with
      24 whole header bytes. Without a secondary header the retained buffer is
      one contiguous stretch of the source. With one it is the first 36 bytes
      followed by the body read 12 bytes later: the 12 bytes decoded for the
      secondary fields are in neither. Either way the source is left right
      after the body, with no skip to `packet_length`. */
  lemma {:induction false} OpenedLayout(x: Codec, src: seq<Byte>, start: nat)
    requires Lawful(x)
    requires OpenAt(x, src, start).Ok?
    ensures var o := OpenAt(x, src, start).value;
            start + 24 <= o.next <= |src| &&
            o.headerSums == HeaderSums(src[start..start + 24]).value &&
            (!HasSecondary(o.fields) ==> o.headerSize == 24 && o.raw == src[start..o.next]) &&
            (HasSecondary(o.fields) ==>
               o.headerSize == 36 && start + 48 <= o.next &&
               o.raw == src[start..start + 36] + src[start + 48..o.next] &&
               o.secondarySums == HeaderSums(src[start + 24..start + 36]).value)
  {
    PrimaryIs24Bytes();
    var header := ReadAt(src, start, 24);
    var primary := Unpack(x, PRIMARY, header).value;
    if HasSecondary(primary) {
      assert |header| == 24 && header == src[start..start + 24];
      var o := SecondaryAt(x, src, start + 24, primary, HeaderSums(header).value, header);
      assert OpenAt(x, src, start) == o;
      SecondaryFlagKept(x, primary, src[start + 36..start + 48]);
      SliceJoin(src, start, start + 24, start + 36);
    } else {
      OpenedPlain(x, src, start, primary);
    }
  }

  /** With the packet's bytes all present and `packet_length` at least the
      header size, the retained buffer is exactly `packet_length` bytes. */
  lemma {:induction false} OpenedLength(x: Codec, src: seq<Byte>, start: nat)
    requires Lawful(x)
    requires OpenAt(x, src, start).Ok?
    requires var o := OpenAt(x, src, start).value;
             o.headerSize <= Get(o.fields, "packet_length") &&
             start + Get(o.fields, "packet_length") + (if HasSecondary(o.fields) then 12 else 0) <= |src|
    ensures var o := OpenAt(x, src, start).value;
            |o.raw| == Get(o.fields, "packet_length") &&
            o.next == start + Get(o.fields, "packet_length") + (if HasSecondary(o.fields) then 12 else 0)
  {
    PrimaryIs24Bytes();
    OpenedLayout(x, src, start);
    var header := ReadAt(src, start, 24);
    var primary := Unpack(x, PRIMARY, header).value;
    if HasSecondary(primary) {
      var secondary := ReadAt(src, start + 24, 12);
      var again := ReadAt(src, start + 36, 12);
      assert |header| == 24 && |secondary| == 12 && |again| == 12;
      assert OpenAt(x, src, start) ==
             Finish(primary + x(SECONDARY, again), HeaderSums(header).value, HeaderSums(secondary).value,
                    header, secondary, src, start + 48);
    } else {
      assert |header| == 24;
      assert OpenAt(x, src, start) == Finish(primary, HeaderSums(header).value, 0, header, [], src, start + 24);
    }
  }

  /** The double read of the secondary header, for a whole packet whose
      primary header flags one: the reads stop 12 bytes past
      `packet_length`. */
  lemma {:induction false} SecondaryOvershoots(x: Codec, src: seq<Byte>, start: nat)
    requires start + 24 <= |src| && HasSecondary(x(PRIMARY, src[start..start + 24]))
    requires OpenAt(x, src, start).Ok?
    requires var o := OpenAt(x, src, start).value;
             36 <= Get(o.fields, "packet_length") && start + Get(o.fields, "packet_length") + 12 <= |src|
    ensures var o := OpenAt(x, src, start).value;
            o.next == start + Get(o.fields, "packet_length") + 12
  {
    PrimaryIs24Bytes();
    var header := ReadAt(src, start, 24);
    assert |header| == 24 && header == src[start..start + 24];
    var primary := x(PRIMARY, header);
    var secondary := ReadAt(src, start + 24, 12);
    var again := ReadAt(src, start + 36, 12);
    assert |secondary| == 12 && |again| == 12;
    assert OpenAt(x, src, start) ==
           Finish(primary + x(SECONDARY, again), HeaderSums(header).value, HeaderSums(secondary).value,
                  header, secondary, src, start + 48);
  }

  /** So `bytes(packet)` is not the packet's bytes: the retained buffer
      drops the 12 bytes after the first 36 and ends with the 12 bytes that
      follow the packet. */
  lemma {:induction false} RetainedBytesShifted(x: Codec, src: seq<Byte>, start: nat)
    requires start + 24 <= |src| && HasSecondary(x(PRIMARY, src[start..start + 24]))
    requires OpenAt(x, src, start).Ok?
    requires var o := OpenAt(x, src, start).value;
             36 <= Get(o.fields, "packet_length") && start + Get(o.fields, "packet_length") + 12 <= |src|
    ensures var o := OpenAt(x, src, start).value;
            o.raw == src[start..start + 36] + src[start + 48..start + Get(o.fields, "packet_length") + 12]
  {
    PrimaryIs24Bytes();
    SecondaryOvershoots(x, src, start);
    var header := ReadAt(src, start, 24);
    assert |header| == 24 && header == src[start..start + 24];
    assert OpenAt(x, src, start) == SecondaryAt(x, src, start + 24, x(PRIMARY, header), HeaderSums(header).value, header);
    SliceJoin(src, start, start + 24, start + 36);
  }

  /** With a secondary header, the `secondary_checksum` that `check()`
      compares is decoded from the 12 bytes after the first 36, and the sum
      it is compared with is taken over bytes 24 to 36: a packet passes only
      when those two sets of bytes happen to agree. */
  lemma {:induction false} SecondaryCheckedAgainstBody(x: Codec, src: seq<Byte>, start: nat)
    requires Lawful(x)
    requires OpenAt(x, src, start).Ok? && HasSecondary(OpenAt(x, src, start).value.fields)
    ensures start + 48 <= |src|
    ensures Get(x(SECONDARY, src[start + 36..start + 48]), "secondary_checksum") ==
            HeaderSums(src[start + 24..start + 36]).value
  {
    PrimaryIs24Bytes();
    OpenedLayout(x, src, start);
    var header := ReadAt(src, start, 24);
    var primary := Unpack(x, PRIMARY, header).value;
    if !HasSecondary(primary) {
      OpenedPlain(x, src, start, primary);
      assert false;
    }
    var o := SecondaryAt(x, src, start + 24, primary, HeaderSums(header).value, header);
    assert OpenAt(x, src, start) == o;
    SecondaryChecksumOf(primary, x(SECONDARY, src[start + 36..start + 48]));
  }

  /** At the end of the source a read attempt fails: with no bytes left, or
      an even number below 24, the header codec raises `struct.error`; with
      an odd number the word sum raises `ValueError` first. */
  lemma {:induction false} ShortHeaderFails(s: Schema, x: Codec, src: seq<Byte>, start: nat)
    requires Walkable(s)
    requires start + 24 > |src|
    ensures Decode(s, x, src, start) ==
            Err(if start < |src| && (|src| - start) % 2 == 1 then ValueError else StructError)
  {
    PrimaryIs24Bytes();
  }

  // ---------------------------------------------------------- corrected

  /** The secondary header read once: its 12 bytes give both the sums and
      the fields, and the body read starts right after them. */
  function SecondaryOnce(x: Codec, src: seq<Byte>, pos: nat, primary: Fields, sums: nat, header: seq<Byte>): (r: Result<Opened>)
    ensures r.Ok? ==> pos + 12 <= r.value.next <= |src| && r.value.headerSize == |header| + 12 &&
                      r.value.fields == primary + x(SECONDARY, src[pos..pos + 12]) &&
                      r.value.raw == header + src[pos..r.value.next]
    ensures r.Ok? ==> r.value.headerSums == sums &&
                      r.value.secondarySums == HeaderSums(src[pos..pos + 12]).value
  {
    var secondary := ReadAt(src, pos, 12);
    var secondarySums :- HeaderSums(secondary);
    var secondaryFields :- Unpack(x, SECONDARY, secondary);
    PrimaryIs24Bytes();
    var r := Finish(primary + secondaryFields, sums, secondarySums, header, secondary, src, pos + |secondary|);
    if r.Ok? then SliceJoin(src, pos, pos + 12, r.value.next); r else r
  }

  /** The header stage with the secondary header read once. The retained
      buffer is then one contiguous stretch of the source, and a whole
      packet is retained exactly: `packet_length` bytes from its start, with
      the source left at its end, where the next packet begins. */
  function OpenOnceAt(x: Codec, src: seq<Byte>, start: nat): (r: Result<Opened>)
    ensures r.Ok? ==> GetErrors(r.value.fields, r.value.headerSums, r.value.secondarySums).None?
    ensures r.Ok? && HasSecondary(r.value.fields) ==>
              start + 36 <= |src| &&
              r.value.fields == x(PRIMARY, src[start..start + 24]) + x(SECONDARY, src[start + 24..start + 36]) &&
              r.value.secondarySums == HeaderSums(src[start + 24..start + 36]).value
    ensures r.Ok? ==> start + 24 <= r.value.next <= |src| && r.value.raw == src[start..r.value.next]
    ensures r.Ok? && r.value.headerSize <= Get(r.value.fields, "packet_length") &&
            start + Get(r.value.fields, "packet_length") <= |src| ==>
              r.value.next == start + Get(r.value.fields, "packet_length")
  {
    PrimaryIs24Bytes();
    var header := ReadAt(src, start, 24);
    var sums :- HeaderSums(header);
    var primary :- Unpack(x, PRIMARY, header);
    assert |header| == 24 && header + [] == header;
    var r := if HasSecondary(primary) then SecondaryOnce(x, src, start + 24, primary, sums, header)
             else Finish(primary, sums, 0, header, [], src, start + 24);
    if r.Ok? then SliceJoin(src, start, start + 24, r.value.next); r else r
  }

  /** The `secondary_checksum` of merged header fields is the one the
      secondary header decoded. */
  lemma {:induction false} SecondaryChecksumOf(primary: Fields, m: Fields)
    requires Shaped(SECONDARY, m)
    ensures Get(primary + m, "secondary_checksum") == Get(m, "secondary_checksum")
  {
    assert forall j :: 0 <= j < |SECONDARY| && j != 2 ==> SECONDARY[j].name != SECONDARY[2].name;
    ShapedValue(SECONDARY, m, 2);
  }

  /** Read once, the secondary checksum is compared with the sum of the
      same 12 bytes it was decoded from. */
  lemma {:induction false} OnceChecksSecondaryItself(x: Codec, src: seq<Byte>, start: nat)
    requires Lawful(x)
    requires OpenOnceAt(x, src, start).Ok? && HasSecondary(OpenOnceAt(x, src, start).value.fields)
    ensures start + 36 <= |src|
    ensures Get(x(SECONDARY, src[start + 24..start + 36]), "secondary_checksum") ==
            HeaderSums(src[start + 24..start + 36]).value
  {
    SecondaryChecksumOf(x(PRIMARY, src[start..start + 24]), x(SECONDARY, src[start + 24..start + 36]));
  }

  // ---------------------------------------------------------- snapshot

  /** The state `__getstate__` captures: the decoded attributes and the raw
      bytes in place of the buffer object. */
  datatype Snapshot = Snapshot(
    schema: Schema, fields: Fields, headerSums: nat, secondarySums: nat,
    raw: seq<Byte>, data: seq<Byte>, items: seq<Item>)

  // ------------------------------------------------------------- class

  class Packet {
    const schema: Schema
    const headerSums: nat
    const secondarySums: nat
    /** The retained buffer, with its own cursor. */
    const file: BytesIO
    var fields: Fields
    var data: seq<Byte>
    var all: seq<Item>

    function Value(): PacketValue
      reads this, file
    {
      PacketValue(schema, fields, headerSums, secondarySums, file.buf, file.pos, data, all)
    }

    /** The end of the header stage: the retained buffer becomes a fresh
        stream positioned after the headers. */
    constructor (s: Schema, fields: Fields, headerSums: nat, secondarySums: nat, raw: seq<Byte>, headerSize: nat)
      ensures fresh(file)
      ensures Value() == PacketValue(s, fields, headerSums, secondarySums, raw, headerSize, [], [])
    {
      schema := s;
      this.fields := fields;
      this.headerSums := headerSums;
      this.secondarySums := secondarySums;
      data := [];
      all := [];
      file := new BytesIO(raw);
      new;
      file.Seek(headerSize);
    }

    /** `__setstate__`: the raw bytes are wrapped back into a stream at
        offset 0 and the attributes restored. */
    constructor FromState(st: Snapshot)
      ensures fresh(file)
      ensures Value() == PacketValue(st.schema, st.fields, st.headerSums, st.secondarySums, st.raw, 0, st.data, st.items)
    {
      schema := st.schema;
      fields := st.fields;
      headerSums := st.headerSums;
      secondarySums := st.secondarySums;
      data := st.data;
      all := st.items;
      file := new BytesIO(st.raw);
    }

    /** `len(packet)`: the number of walked items. */
    function Len(): (n: nat)
      reads this, file
      ensures n == |Value().items|
    {
      |all|
    }

    /** `parse_csdw`. */
    method ParseCsdw(x: Codec) returns (r: Result<()>)
      modifies this`fields, file`pos
      ensures old(file.pos) <= file.pos
      ensures match CsdwAt(schema, x, file.buf, old(file.pos))
              case Ok(c) => r.Ok? && fields == old(fields) + c.fields && file.pos == c.pos
              case Err(e) => r == Err(e)
    {
      var csdw := ReadCsdw(file, schema, x);
      if csdw.Err? {
        return Err(csdw.error);
      }
      fields := fields + csdw.value;
      return Ok(());
    }

    /** `parse_data`. */
    method ParseData(x: Codec) returns (r: Result<()>)
      requires Walkable(schema)
      modifies this`fields, this`data, this`all, file`pos
      ensures old(file.pos) <= file.pos
      ensures match PacketData(schema, x, file.buf, old(file.pos), old(fields), old(data))
              case Ok(b) => r.Ok? && fields == b.fields && data == b.data && all == b.items && file.pos == b.pos
              case Err(e) => r == Err(e)
    {
      ghost var spec := PacketData(schema, x, file.buf, file.pos, fields, data);
      all := [];
      var parsed: Result<Parsed>;
      if schema.iph.None? {
        parsed := ParseFlat(file, schema, x, Get(fields, "packet_length") - HeaderLen(fields), fields, []);
      } else {
        var at := file.Tell();
        parsed := ParseWalk(file, schema, x, at - 4 + Get(fields, "data_length"), fields, data);
      }
      assert parsed == spec;
      if parsed.Err? {
        return Err(parsed.error);
      }
      fields, data, all := parsed.value.fields, parsed.value.data, parsed.value.items;
      return Ok(());
    }

    /** `parse`. */
    method Parse(x: Codec) returns (r: Result<()>)
      requires Walkable(schema)
      modifies this`fields, this`data, this`all, file`pos
      ensures old(file.pos) <= file.pos
      ensures match PacketBody(schema, x, file.buf, old(file.pos), old(fields), old(data))
              case Ok(b) => r.Ok? && fields == b.fields && data == b.data && all == b.items && file.pos == b.pos
              case Err(e) => r == Err(e)
    {
      r := ParseCsdw(x);
      if r.Err? {
        return;
      }
      r := ParseData(x);
    }

    /** `bytes(packet)`: the whole retained buffer, wherever the cursor was;
        the cursor is left at the end. */
    method ToBytes() returns (r: seq<Byte>)
      modifies file`pos
      ensures r == file.buf && file.pos == |file.buf|
    {
      file.Seek(0);
      r := file.Read(-1);
    }

    /** `__getstate__`: the attributes with `bytes(self)` in place of the
        buffer. */
    method GetState() returns (st: Snapshot)
      modifies file`pos
      ensures st == Snapshot(schema, fields, headerSums, secondarySums, file.buf, data, all)
      ensures file.pos == |file.buf|
    {
      var raw := ToBytes();
      st := Snapshot(schema, fields, headerSums, secondarySums, raw, data, all);
    }
  }

  /** Pickling and unpickling a packet: the snapshot carries `bytes(packet)`
      and restoring wraps it back into a stream, so the restored packet holds
      the same raw bytes and attributes, with its cursor at 0. */
  method SnapshotRestore(p: Packet) returns (q: Packet)
    modifies p.file`pos
    ensures fresh(q) && q.Value() == old(p.Value()).(cursor := 0)
  {
    var st := p.GetState();
    q := new Packet.FromState(st);
  }

  /** The body read and validation that end the header stage of
      `Packet.__init__`. */
  method FinishHeaders(file: BytesIO, fields: Fields, headerSums: nat, secondarySums: nat,
                       header: seq<Byte>, secondary: seq<Byte>) returns (r: Result<Opened>)
    modifies file`pos
    ensures old(file.pos) <= file.pos
    ensures r == Finish(fields, headerSums, secondarySums, header, secondary, file.buf, old(file.pos))
    ensures r.Ok? ==> file.pos == r.value.next
  {
    PrimaryIs24Bytes();
    var headerSize := |header| + |secondary|;
    var body := file.Read(Get(fields, "packet_length") - headerSize);
    var error := GetErrors(fields, headerSums, secondarySums);
    if error.Some? {
      return Err(InvalidPacket(error.value));
    }
    return Ok(Opened(fields, headerSums, secondarySums, header + secondary + body, headerSize, file.pos));
  }

  /** The secondary header reads of `Packet.__init__`. */
  method ReadSecondary(file: BytesIO, x: Codec, primary: Fields, sums: nat, header: seq<Byte>)
    returns (r: Result<Opened>)
    modifies file`pos
    ensures old(file.pos) <= file.pos
    ensures r == SecondaryAt(x, file.buf, old(file.pos), primary, sums, header)
    ensures r.Ok? ==> file.pos == r.value.next
  {
    PrimaryIs24Bytes();
    var secondary := file.Read(12);
    var secondarySums :- HeaderSums(secondary);
    var again := file.Read(12);
    var secondaryFields :- Unpack(x, SECONDARY, again);
    r := FinishHeaders(file, primary + secondaryFields, sums, secondarySums, header, secondary);
  }

  /** The header stage of `Packet.__init__`: the primary header, its sums
      and fields, the secondary header when one is flagged, then the body. */
  method OpenHeaders(file: BytesIO, x: Codec) returns (r: Result<Opened>)
    modifies file`pos
    ensures old(file.pos) <= file.pos
    ensures r == OpenAt(x, file.buf, old(file.pos))
    ensures r.Ok? ==> file.pos == r.value.next
  {
    PrimaryIs24Bytes();
    var header := file.Read(24);
    var sums :- HeaderSums(header);
    var primary :- Unpack(x, PRIMARY, header);
    if HasSecondary(primary) {
      r := ReadSecondary(file, x, primary, sums, header);
    } else {
      r := FinishHeaders(file, primary, sums, 0, header, []);
    }
  }

  /** `Packet(file)`: read and validate the headers, keep the raw bytes,
      then parse the body; any exception is returned instead of a packet. */
  method ReadPacket(file: BytesIO, s: Schema, x: Codec) returns (r: Result<Packet>)
    requires Walkable(s)
    modifies file`pos
    ensures old(file.pos) <= file.pos
    ensures match Decode(s, x, file.buf, old(file.pos))
            case Ok(d) => r.Ok? && fresh(r.value) && fresh(r.value.file) &&
                          r.value.Value() == d.packet && r.value.Len() == |d.packet.items| &&
                          file.pos == d.next
            case Err(e) => r == Err(e)
  {
    PrimaryIs24Bytes();
    var o :- OpenHeaders(file, x);
    var p := new Packet(s, o.fields, o.headerSums, o.secondarySums, o.raw, o.headerSize);
    var parsed := p.Parse(x);
    if parsed.Err? {
      return Err(parsed.error);
    }
    return Ok(p);
  }
}
