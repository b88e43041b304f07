# Chapter 10 packet reader: a verified model of the decode path

This project models how pychapter10 reads IRIG 106 Chapter 10 packets out of a
byte stream, and proves properties of that model in Dafny.

- **Header stage** (`Packet.__init__`). The 24-byte primary header is read and its
  16-bit word sum is taken. The header fields are decoded. When a secondary header
  is flagged, it is read too: 12 bytes for its sum, then a different 12 bytes for
  its fields. The body is read up to `packet_length`. The header, secondary header
  and body are kept in a private byte stream positioned after the headers, and
  `get_errors` is run; a packet with an error raises `InvalidPacket`.
- **Body parsing** (`parse`, `parse_csdw`, `parse_data`). An optional 4-byte
  channel specific data word (CSDW) is read. Then either a flat body is read (with
  optional data fields), or the items are walked: each item is a prologue header
  (IPH), a payload of `length` or `item_size` bytes, and a filler byte after an odd
  length. The walk stops at a nonzero `count` or at an end offset.
- **Data-type objects** (`datatypes/base.py`). `Base` and `IterativeBase` re-read
  a packet's body through the packet's own stream. `parse` seeks to 24 or 36
  first, and the walker's end is keyed on the cursor at construction.
- **Stream resynchronisation** (`C10.__next__`). It tries a packet at the current
  offset. It returns the packet when `check()` holds, stops on `struct.error`, and
  otherwise retries one byte further on.
- **Two concrete packet types**, `ARINC429F0` and `MessageF0`, as schema
  constants, with their sizes, labels, lengths and counts proved.

The bit-field codec (`compile_fmt`, not part of this model) is a parameter.

- A `Codec` maps a format and bytes to named field values.
- `Unpack` is assumed to fail with `struct.error` exactly when the bytes hold
  fewer bits than the format (see "## Left out").
- A *lawful* codec yields exactly the format's field names, each value within its
  declared width. `FieldCodec`, which sets the fields one by one from an
  extractor's readings cut to their widths, is proved lawful.

Words for the header sums are assembled little-endian. The source uses
`array('H')`, which is in host byte order; the model fixes the little-endian hosts
it normally runs on.

Imperative code stays imperative:

- `BytesIO` is a class with a cursor.
- `Packet` and `Base` are classes whose methods update their fields and move the
  shared cursor.
- The walker and the resynchronisation loop are `while` loops.

Each method is proved against a pure specification function (`OpenAt`,
`PacketBody`, `Walk`, `BaseBody`, `NextFrom`), and the properties are proved
about those functions.

Header sums are kept apart from the decoded fields, as `headerSums` and
`secondarySums`. In the source they are attributes of the same packet object, so
a body format declaring `header_sums` or `secondary_sums` would overwrite them.
The lemmas about body parsing keeping `check()` therefore ask that no body format
declares any attribute `get_errors` reads, these two included (`CHECKED_NAMES`).

The data format of a flat body is decoded from `data[:calcsize()]`
(`chapter10/packet.py:94`, `chapter10/datatypes/base.py:53`). `calcsize` counts
bits, but the slice counts bytes, so the prefix is the format's size in bits,
taken as a byte count. The IPH uses `calcsize() // 8` bytes
(`chapter10/packet.py:101`). `Body.FlatAt` models both units as written.

Where the code and the intended behaviour of the format disagree, the model
follows the code. An items body of zero length is meant to yield no items. The walker is
a do-while (`chapter10/packet.py:98-120`), so it always reads at least one item;
`Body.Walk` and `Body.WalkBodyStops` state this.

Resynchronisation is meant never to miss a valid packet after stray bytes, but
`__next__` ends iteration on any `struct.error` (`chapter10/c10.py:44-45`). A
misaligned attempt fewer than 48 bytes before the end whose misread header
flags a secondary header reads that header short and raises `struct.error`
(`chapter10/packet.py:56-59`), so a valid packet after it is lost
(`Stream.LaterPacketMissed`). `Stream.Resync` and `Stream.C10.NextResynced`
retry on every failure until fewer than 24 bytes remain. Within one call,
`Stream.ResyncNeverMisses` proves that they return the first packet at or after
the cursor that checks out. Across calls a packet can still be lost, because of
the double read below. `Stream.C10.Next` keeps the loop as written, apart from
the retry offset (see "## Findings").

The secondary header is meant to be read once, as the 12 bytes after the
primary header. The constructor reads 12 bytes for its sum and then another 12
bytes for its fields (`chapter10/packet.py:56-59`), and the model keeps both
reads. Three things follow for a whole packet with a secondary header:

- Its reads stop 12 bytes past `packet_length` (`Packets.SecondaryOvershoots`).
  The next call starts there, so even the retrying loop never returns a packet
  that begins right at the end of this one (`Stream.NextPacketSkipped`).
- `check()` compares the sum of bytes 24 to 36 with a `secondary_checksum`
  decoded from bytes 36 to 48, which are the first 12 body bytes
  (`Packets.SecondaryCheckedAgainstBody`). A genuine packet passes only when
  these happen to agree.
- `bytes(packet)` is not the packet's bytes. It drops bytes 36 to 48 and ends
  with the 12 bytes after the packet (`Packets.RetainedBytesShifted`).

`Packets.OpenOnceAt` reads the secondary header once. It retains exactly
`src[start..start + packet_length]`, leaves the source at the packet's end, and
checks the secondary sum against the same 12 bytes
(`Packets.OnceChecksSecondaryItself`). The rest of the model keeps the double
read, as the code has it.

## Model

| member | source | states |
|---|---|---|
| Cursor.ReadAt | chapter10/packet.py:62 | `read(n)` never fails. It short-reads at the end of the buffer, reads everything left when `n` is negative, and returns nothing at or past the end. |
| BitFormat.Unpack | chapter10/packet.py:51 | `unpack` fails, always with `struct.error`, exactly when the bytes hold fewer bits than the format (the codec's assumed failure mode; see "## Left out"). |
| BitFormat.FieldCodecLawful | chapter10/packet.py:51 | Decoding field by field yields every named field of the format and no other name, each value below 2^width. |
| BitFormat.FieldsOfValues | chapter10/packet.py:51 | With the field-by-field codec, a field whose name no later field reuses holds the codec's reading cut to its width. |
| BitFormat.UnpackShaped | chapter10/packet.py:103 | A successful `unpack` by a lawful codec has exactly the format's names, within their widths. |
| Header.HeaderSums | chapter10/packet.py:48 | The header sum is a `ValueError` exactly for an odd byte count; otherwise it is below 2^16. |
| Header.ChecksumWordExcluded | chapter10/packet.py:47-48 | The sum never depends on the final (checksum) word. For a 24-byte header it is the sum of the first 11 words mod 2^16. |
| Header.ByteChangeChangesSums | chapter10/packet.py:48 | Changing any one of the first 22 bytes of a primary header always changes its sum. |
| Header.GetErrors | chapter10/packet.py:128-139 | Errors come in a fixed order: a bad sync pattern whatever else holds; a header sum mismatch only with a good sync; a secondary sum mismatch only with a secondary header; the length cap only without one; None exactly when all tests pass (each both ways). |
| Header.PrimaryIs24Bytes | chapter10/packet.py:15-35 | The primary format is 192 bits (24 bytes) and the secondary format 96 bits (12 bytes). |
| Body.CsdwAt | chapter10/packet.py:82-85 | Without a CSDW format nothing is read or set. With one, at most 4 bytes are consumed, exactly 4 for a format wider than 24 bits, and the only failure is `struct.error`. |
| Body.ReadCsdw | chapter10/packet.py:82-85 | The CSDW read on the stream returns what `CsdwAt` describes and leaves the cursor where it says. |
| Body.FlatAt | chapter10/packet.py:87-95 | The flat `data` is the next `packet_length - header_len - 4` bytes, or fewer at the end of the buffer, or the whole rest when that count is negative. Without a data format no field is set. With one, it fails exactly when `data` holds fewer bits than the format, and the fields are decoded from the first `SizeBits` bytes of `data` (bits used as a byte count). |
| Body.Step | chapter10/packet.py:99-114 | One walker pass fails only with `struct.error`. It needs a whole IPH in the buffer, and it advances the cursor by the item's cost and strictly shrinks what is left. |
| Body.StepReads | chapter10/packet.py:99-114 | The IPH is the next `calcsize()//8` bytes, and a byte-aligned IPH that fits always decodes. The payload is the following bytes: `length` of them when present, else `item_size`. One filler byte is skipped after an odd length. |
| Body.Walk | chapter10/packet.py:98-120 | A walk fails only with `struct.error`. It yields at least one item, and it ends with the item count equal to a nonzero `count` or with the cursor at or past `end`. |
| Body.WalkFootprint | chapter10/packet.py:98-120 | The walk moves the cursor by exactly the sum of `iph_size + len(data) + length % 2` over its items. |
| Body.WalkStopsAtFirstChance | chapter10/packet.py:116-120 | Before the last item, the count was never yet reached and the cursor was still before `end`: the walk stops at the first chance. |
| Body.WalkCountBound | chapter10/packet.py:116-117 | A nonzero `count` bounds the number of items. |
| Body.WalkLabels | chapter10/packet.py:109-110 | Every item carries the class's `item_label` and the IPH format. |
| Body.WalkItemsShaped | chapter10/packet.py:103-110 | Every item's IPH fields have the IPH format's shape, and its payload is at most its length. |
| Body.ReadItem | chapter10/packet.py:99-114 | One pass of the loop on the stream returns the item `Step` describes and leaves the cursor at its `next`. |
| Body.WalkOnce | chapter10/packet.py:98-120 | One loop pass keeps the loop invariant: the items so far, followed by the rest of the walk, are the whole walk. It also reports whether the loop stops. |
| Body.WalkItems | chapter10/packet.py:97-120 | The `while True` loop returns exactly the walk's items and leaves the cursor where the walk ends, or raises the walk's error. |
| Body.WalkBodyStops | chapter10/packet.py:97-120 | An items body has at least one item. Its cursor ends at its start plus the items' footprint, and it stops at a nonzero count or at `end`, never past the count. |
| Body.ParseFlat | chapter10/packet.py:88-95 | The flat body read on the stream agrees with `FlatBody` and leaves the cursor after the data. |
| Body.ParseWalk | chapter10/packet.py:96-120 | The item walk on the stream agrees with `WalkBody` and leaves the cursor where the walk ends. |
| Packets.Finish | chapter10/packet.py:61-68 | The header stage fails exactly when `get_errors` reports something, with that error. Otherwise the kept buffer is the headers followed by the bytes read from the body offset, and the read count is `packet_length - header_size` (or everything left when that is negative). |
| Packets.SecondaryAt | chapter10/packet.py:56-68 | With a secondary header, the source must hold the 24 bytes after the primary. The secondary sums are taken over the first 12 of them and the fields come from the second 12; the kept buffer skips the second 12. The primary sums are unchanged, the header size grows by 12, and validation has passed. |
| Packets.OpenAt | chapter10/packet.py:43-68 | Construction gets past the header stage only when `get_errors` finds nothing. |
| Packets.BodyKeepsChecked | chapter10/packet.py:74-95 | Parsing the body never changes an attribute `get_errors` reads, given body formats that do not declare one. |
| Packets.DecodedPacketChecks | chapter10/packet.py:141-142 | Every packet that construction returns satisfies `check()`. |
| Packets.OpenedPlain | chapter10/packet.py:47-64 | Without a secondary header, the kept buffer is one contiguous stretch of the source, starting at the packet, and the header sums are those of its first 24 bytes. |
| Packets.SecondaryFlagKept | chapter10/packet.py:56-59 | The secondary fields never clear the `secondary_header` flag that called for them. |
| Packets.OpenedLayout | chapter10/packet.py:55-64 | The source offset ends right after the body, with no skip to `packet_length`. Without a secondary header the buffer is `src[start..next]`. With one it is the first 36 bytes plus the body read 12 bytes later. The header sums come from `src[start..start+24]`, and the secondary sums from the 12 bytes after them. |
| Packets.OpenedLength | chapter10/packet.py:61-63 | With all bytes present and `packet_length` at least the header size, the kept buffer is `packet_length` bytes. The source advances by that plus 12 with a secondary header. |
| Packets.DecodedNext | chapter10/packet.py:61-64 | A built packet got past the header stage, and the source is left where that stage's reads stopped. |
| Packets.SecondaryOvershoots | chapter10/packet.py:56-63 | For a whole packet whose primary header flags a secondary header, the reads stop 12 bytes past `packet_length`. |
| Packets.RetainedBytesShifted | chapter10/packet.py:56-64 | For such a packet, the kept buffer is its first 36 bytes followed by the bytes from 48 up to 12 past its end. |
| Packets.SecondaryCheckedAgainstBody | chapter10/packet.py:56-59 | With a secondary header, a packet passes only if the `secondary_checksum` decoded from bytes 36 to 48 equals the sum of bytes 24 to 36. |
| Packets.SecondaryOnce | chapter10/packet.py:56-59 | Read once, the secondary header's 12 bytes give both its sums and its fields, and the kept buffer continues from those bytes without a gap. |
| Packets.OpenOnceAt | chapter10/packet.py:47-64 | With the single read, the kept buffer is one contiguous stretch of the source. A whole packet is kept exactly, as `packet_length` bytes, and the source is left at its end. With a secondary header, its fields and sums come from the same 12 bytes. |
| Packets.OnceChecksSecondaryItself | chapter10/packet.py:56-59 | With the single read, the `secondary_checksum` is compared with the sum of the 12 bytes it was decoded from. |
| Packets.ShortHeaderFails | chapter10/packet.py:47-51 | Fewer than 24 bytes left raises `ValueError` for an odd count and `struct.error` otherwise. |
| Packets.Packet.constructor | chapter10/packet.py:63-64 | The kept buffer becomes a fresh stream, positioned after the headers. |
| Packets.Packet.FromState | chapter10/packet.py:163-165 | Restoring wraps the raw bytes in a fresh stream at offset 0 and restores every attribute. |
| Packets.Packet.ParseCsdw | chapter10/packet.py:82-85 | `parse_csdw` merges what `CsdwAt` decodes into the attributes and moves the cursor as it says. |
| Packets.Packet.ParseData | chapter10/packet.py:87-120 | `parse_data` resets the items, then sets the fields, data, items and cursor that `PacketData` describes: the flat body, or the walk bounded by the CSDW start plus `data_length`. |
| Packets.Packet.Parse | chapter10/packet.py:74-80 | `parse` is the CSDW and then the data, as `PacketBody` describes, or the first error. |
| Packets.Packet.ToBytes | chapter10/packet.py:151-155 | `bytes(packet)` is the whole kept buffer wherever the cursor was, and the cursor ends at the end. |
| Packets.Packet.GetState | chapter10/packet.py:167-173 | The snapshot holds the decoded attributes and `bytes(packet)` in place of the stream. |
| Packets.SnapshotRestore | chapter10/packet.py:163-173 | A snapshot and a restore give a fresh packet with the same raw bytes and attributes, its cursor at 0. |
| Packets.FinishHeaders | chapter10/packet.py:61-68 | The body read and validation on the stream agree with `Finish`, and the cursor ends after the body. |
| Packets.ReadSecondary | chapter10/packet.py:56-59 | The secondary header reads on the stream agree with `SecondaryAt`. |
| Packets.OpenHeaders | chapter10/packet.py:46-68 | The header stage on the stream agrees with `OpenAt`, and the cursor ends after the body. |
| Packets.ReadPacket | chapter10/packet.py:43-80 | `Packet(file)` builds a fresh packet whose state is what `Decode` gives, and leaves the file after the body; or it raises `Decode`'s error. `len` of the new packet is its number of decoded items. |
| Packets.Packet.Len | chapter10/packet.py:148-149 | `len(packet)` is the number of items in the packet's state. |
| Packets.CheckIffValid | chapter10/packet.py:141-142 | `check()` holds exactly when the sync pattern and header sum match and, with a secondary header, its sum matches, or, without one, `data_length` is within the cap. |
| DataTypes.IterativeWithoutIphIsFlat | chapter10/datatypes/base.py:85-88 | An `IterativeBase` without an IPH format parses exactly as a `Base`: flat data and no items. |
| DataTypes.BaseWalk | chapter10/datatypes/base.py:85-113 | The walk starts after the CSDW read at the end of the headers. It consumes each item's IPH, payload and filler, yields at least one item, and stops at a nonzero count or at `pos + data_length`. |
| DataTypes.Base.constructor | chapter10/datatypes/base.py:13-19 | Construction remembers the packet's cursor as `pos`. |
| DataTypes.Base.ParseCsdw | chapter10/datatypes/base.py:43-46 | 4 bytes are read only when a CSDW format is set, and their fields are merged. |
| DataTypes.Base.ParseData | chapter10/datatypes/base.py:48-113 | `parse_data` sets what `BaseData` describes. An `IterativeBase` with an IPH walks to `pos + data_length`; otherwise the flat body is read. Only an `IterativeBase` resets its items. |
| DataTypes.Base.Parse | chapter10/datatypes/base.py:26-41 | `parse` seeks to 36 or 24, whatever the cursor, then reads the CSDW and the data as `BaseBody` describes. |
| DataTypes.Build | chapter10/datatypes/base.py:13-24 | Building parses as `BaseBody` describes. `len()` (`Base.__len__` at base.py:56-57, `IterativeBase.__len__` at base.py:118-119) is `data_length` for a `Base` and the number of items for an `IterativeBase`. |
| Stream.AttemptsEnd | chapter10/c10.py:39-45 | At or past the end of the source every attempt raises `struct.error`. |
| Stream.NextFromSettles | chapter10/c10.py:39-48 | `__next__` settles at the first offset at or after the start that it does not retry from, and every offset before it was retried. |
| Stream.NextFromSpec | chapter10/c10.py:39-48 | It returns a packet only from an attempt that built one and passed `check()`, or it stops where `struct.error` was raised. Every earlier offset was retried, one byte after the last. |
| Stream.FirstChanceDecides | chapter10/c10.py:39-48 | Conversely, the first offset not retried decides the outcome. |
| Stream.EndOfSourceStops | chapter10/c10.py:44-45 | At or past the end of the source, iteration stops at once. |
| Stream.FoundPacketsAlwaysCheck | chapter10/c10.py:41-43 | A packet that the generic class builds is never retried: its `check()` holds. |
| Stream.NextAsWritten | chapter10/c10.py:48 | The loop as written crashes on exactly the attempts it should retry. |
| Stream.StrayByteCrashes | chapter10/c10.py:48 | On a single stray byte, the loop as written crashes, where the intended loop stops iteration. |
| Stream.BogusSecondaryStops | chapter10/packet.py:56-59 | A misaligned attempt fewer than 48 bytes before the end, whose 24 bytes decode with `secondary_header` set, raises `struct.error` on the short second read of the secondary header. |
| Stream.LaterPacketMissed | chapter10/c10.py:44-45 | After such an attempt, iteration stops there even though a later offset holds the first packet that checks out; the literal loop started at that attempt stops too; and the retrying loop returns the later packet. |
| Stream.NeitherLoopGoesBack | chapter10/c10.py:34-48 | Neither loop returns a packet from, or stops at, an offset before the one it starts from. |
| Stream.NextPacketSkipped | chapter10/c10.py:34-48 | When a packet's reads stopped 12 bytes past its end, neither loop started there returns a packet that begins at that end. |
| Stream.ResyncSpec | chapter10/c10.py:34-48 | The intended loop returns a packet from the first offset that yields one, with at least 24 bytes there, or stops once fewer than 24 bytes remain; no earlier offset yields a packet. |
| Stream.ResyncFindsFirst | chapter10/c10.py:34-48 | Conversely, a packet that checks out at `j`, with none before it, is the one the intended loop returns. |
| Stream.ResyncNeverMisses | chapter10/c10.py:34-48 | On a real source, the intended loop returns the first packet at or after the cursor that checks out, however many stray bytes precede it. |
| Stream.C10.NextResynced | chapter10/c10.py:34-48 | The intended `__next__` returns a fresh packet equal to the one `Resync` finds, leaving the file where its reads stopped, or nothing when `Resync` stops. |
| Stream.C10.Next | chapter10/c10.py:34-48 | `__next__` returns a fresh packet equal to the one `NextFrom` finds, leaving the file where that packet's reads stopped, or returns nothing when `NextFrom` stops. |
| Arinc429.Arinc429Sizes | chapter10/arinc429.py:7-16 | The CSDW is 32 bits and the IPH 32 bits, so `iph_size` is 4 and the schema can be walked. |
| Arinc429.Arinc429Length | chapter10/arinc429.py:10-17 | The IPH has no `length`, so every payload length is `item_size`, 4, which is even. |
| Arinc429.Arinc429Step | chapter10/arinc429.py:10-18 | An item is labelled 'ARINC-429 Data Word'. It consumes 4 + its payload bytes, exactly 8 when the buffer holds them. |
| Arinc429.Arinc429Walk | chapter10/arinc429.py:6-18 | Every item is labelled and at most 4 bytes. The cursor moves at most 8 bytes per item, and a nonzero count bounds the items. |
| Arinc429.Arinc429Count | chapter10/arinc429.py:7-9 | The decoded `count` is present and below 2^16, and the CSDW takes 4 bytes. |
| Message.MessageSizes | chapter10/message.py:7-16 | The CSDW is 32 bits and the IPH 96 bits, so `iph_size` is 12 and the schema can be walked. |
| Message.MessageLength | chapter10/message.py:11-16 | Every decoded IPH has a `length` below 2^16, and it is the payload length. |
| Message.ShapedLength | chapter10/message.py:13 | Any fields of the IPH's shape have a `length` below 2^16 that is the item length. |
| Message.MessageStep | chapter10/message.py:11-17 | A message of length L is labelled 'Message Data'. It consumes 12 + L + L mod 2 bytes when the buffer holds them, and a short buffer cuts the payload short. |
| Message.MessageWalk | chapter10/message.py:6-17 | Every message is labelled with a length below 2^16. A nonzero count bounds the messages, and it is met exactly unless `end` came first. |
| Message.CsdwBounds | chapter10/message.py:7-10 | Fields of the CSDW's shape hold `count` below 2^16 and `packet_type` below 4. |
| Message.MessageCount | chapter10/message.py:7-10 | The decoded `count` is below 2^16 and `packet_type` below 4, and the CSDW takes 4 bytes. |

## Left out

- The bit-field codec (`compile_fmt`, `chapter10/util.py`) is not part of this model. Its bit order and `pack` are a parameter. So are `Item.pack`/`__bytes__` and the second argument `'22'` of the ARINC-429 IPH format.
- The data-type registry `format(data_type)`, imported from `chapter10.datatypes`, is not part of this model. Its result is not used by the parsing shown. The attributes `type`, `_format` and `time` are not modelled.
- The `lazy` argument is left out. `C10.__next__` passes it to `Packet`, but the `Packet.__init__` shown takes only the file, so the call as written would raise `TypeError`. The model calls `Packet(file)`.
- File plumbing in `c10.py`: opening by name, `atexit`, `close`, `__repr__`, `from_string` and `Buffer`. `chapter10/buffer.py` is not part of this model, and the source is a `BytesIO` over a byte sequence.
- The codec's failure mode is an assumption. `chapter10/util.py` is not part of this model, and the only evidence that `unpack` raises `struct.error` on short input is that `C10.__next__` catches it (`chapter10/c10.py:44-45`). `BitFormat.Unpack` assumes it raises exactly then. `Stream.AttemptsEnd`, `Stream.EndOfSourceStops`, `Packets.ShortHeaderFails` and the stop case of `Stream.StrayByteCrashes` rest on that assumption.
- `EOFError`: `BytesIO` never raises it, so only `struct.error` ends iteration.
- Dynamic attributes: the `__dict__` updates are an explicit map of decoded fields. `__getstate__` drops callables, and the model's snapshot holds only plain values, so there are none to drop.
- When construction raises partway through, the partial object is discarded. So are the items a failing walk had already appended.
- Stream.NextFrom: the loop is cut at the end of the source. There every attempt raises `struct.error` (`Stream.AttemptsEnd`), so the cut never changes the outcome.
- Stream.C10.Next: the file position after `StopIteration` is not stated.
- Body.Walkable: an IPH format of zero bits with no payload would make the source loop forever. The walker requires at least one IPH bit, and both schemas here have one.
- Host byte order: word sums are little-endian. A big-endian host would sum byte-swapped words.
- `__iter__`, `__repr__` and `from_string` on `Packet` only wrap the operations modelled here.

## Findings

| source | as written | input that shows it | evidently intended | confidence | as-written member | corrected member |
|---|---|---|---|---|---|---|
| chapter10/c10.py:48 | After a failed attempt the loop seeks to `p.pos + 1`. But `p` is unbound when `Packet(...)` raised, and a built packet has no `pos` attribute, so every retry raises instead of resynchronising. | A source of one byte `[0]`: the header sum of an odd byte count raises `ValueError`, and the retry then crashes. | Retry at the failed attempt's start offset plus one; iteration then stops at the end of the source. | not executed | Stream.StrayByteCrashes | Stream.NextFromSpec |
| chapter10/c10.py:44-45 | Every `struct.error` ends iteration, including one raised by a misaligned attempt that reads a bogus secondary header short near the end. | One stray byte before a final 36-byte packet, where the 24 bytes read at the stray byte decode with `secondary_header` set: the second secondary read gets 1 byte, `struct.error` is raised, and the packet is lost. | Retry on every failure until fewer than 24 bytes remain; the first packet that checks out is returned. | not executed | Stream.LaterPacketMissed | Stream.ResyncNeverMisses |
| chapter10/packet.py:57-59 | The secondary header is read twice: 12 bytes for its sum, then the next 12 bytes for its fields, so the body read starts 12 bytes late. | A whole packet with a secondary header: `check()` compares the sum of bytes 24 to 36 with a checksum decoded from bytes 36 to 48, and the reads stop 12 bytes past `packet_length`, inside the next packet. | One 12-byte read that supplies both the sum and the fields; the packet is kept as its own `packet_length` bytes, and the source is left at its end. | not executed | Packets.SecondaryCheckedAgainstBody | Packets.OpenOnceAt |
