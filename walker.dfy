/** Packet bodies: the class-level schema a packet type declares, the
    channel specific data word (CSDW), the flat body, and the item walker
    that splits an items body into item prologue headers (IPH) and payloads.

    `Packet.parse_csdw`/`parse_data` and `Base.parse_csdw`/`parse_data` with
    `IterativeBase.parse_data` are two copies of the same code that differ
    only in where the walker's end bound comes from; both copies call the
    readers below with their own bound. */
module Body {
  import opened Common
  import opened Cursor
  import opened BitFormat
  import opened Header

  /** The class attributes `csdw_format`, `data_format`, `iph_format`,
      `item_size` (0 when the class has none) and `item_label`. */
  datatype Schema = Schema(
    csdw: Option<Format>,
    dataFormat: Option<Format>,
    iph: Option<Format>,
    itemSize: nat,
    itemLabel: Option<string>)

  /** The plain `Packet` class: no CSDW, no data format, no items. */
  const BASE: Schema := Schema(None, None, None, 0, None)

  /** An IPH format of zero bits would let the walker loop forever on an
      empty item; every item format has at least one bit. */
  predicate Walkable(s: Schema)
  {
    s.iph.Some? ==> SizeBits(s.iph.value) > 0
  }

  /** One walked item: its payload, the schema's label, the IPH format
      (`item_format`) and the decoded IPH fields. */
  datatype Item = Item(data: seq<Byte>, itemLabel: Option<string>, format: Format, fields: Fields)

  /** `36 if secondary_header else 24`. */
  function HeaderLen(fields: Fields): nat
  {
    if HasSecondary(fields) then 36 else 24
  }

  // ---------------------------------------------------------------- CSDW

  datatype CsdwRead = CsdwRead(fields: Fields, pos: nat)

  /** `parse_csdw` from cursor `pos`: nothing at all without a CSDW format;
      otherwise 4 bytes decoded with it. */
  function CsdwAt(s: Schema, x: Codec, buf: seq<Byte>, pos: nat): (r: Result<CsdwRead>)
    ensures s.csdw.None? ==> r == Ok(CsdwRead(map[], pos))
    ensures r.Ok? && s.csdw.Some? ==> pos <= r.value.pos <= pos + 4
    ensures r.Ok? && s.csdw.Some? && SizeBits(s.csdw.value) > 24 ==> r.value.pos == pos + 4
    ensures r.Err? ==> s.csdw.Some? && r.error == StructError
  {
    if s.csdw.None? then Ok(CsdwRead(map[], pos))
    else
      var raw := ReadAt(buf, pos, 4);
      var fields :- Unpack(x, s.csdw.value, raw);
      Ok(CsdwRead(fields, pos + |raw|))
  }

  method ReadCsdw(file: BytesIO, s: Schema, x: Codec) returns (r: Result<Fields>)
    modifies file`pos
    ensures old(file.pos) <= file.pos
    ensures match CsdwAt(s, x, file.buf, old(file.pos))
            case Ok(c) => r == Ok(c.fields) && file.pos == c.pos
            case Err(e) => r == Err(e)
  {
    if s.csdw.None? {
      return Ok(map[]);
    }
    var raw := file.Read(4);
    r := Unpack(x, s.csdw.value, raw);
  }

  // ----------------------------------------------------------- flat body

  datatype FlatRead = FlatRead(data: seq<Byte>, fields: Fields, pos: nat)

  /** The fields of `data_format`, decoded from the first `calcsize()` bytes
      of the body: the size in bits is used as a byte count. */
  function DataFields(s: Schema, x: Codec, data: seq<Byte>): Result<Fields>
  {
    if s.dataFormat.None? then Ok(map[])
    else Unpack(x, s.dataFormat.value, data[..Min(SizeBits(s.dataFormat.value), |data|)])
  }

  /** The flat `parse_data` from cursor `pos`, for a packet whose length
      less its header length is `dataLen`: the next `dataLen - 4` bytes, or
      what is left of the buffer. */
  function FlatAt(s: Schema, x: Codec, buf: seq<Byte>, pos: nat, dataLen: int): (r: Result<FlatRead>)
    ensures r.Ok? && pos <= |buf| ==> pos <= r.value.pos <= |buf| && r.value.data == buf[pos..r.value.pos]
    ensures r.Ok? && pos <= |buf| && dataLen >= 4 ==> |r.value.data| == Min(dataLen - 4, |buf| - pos)
    ensures r.Ok? && pos <= |buf| && dataLen < 4 ==> r.value.pos == |buf|
    ensures r.Ok? && pos > |buf| ==> r.value.data == [] && r.value.pos == pos
    ensures s.dataFormat.None? ==> r.Ok? && r.value.fields == map[]
    ensures s.dataFormat.Some? ==>
              (r.Err? <==> |ReadAt(buf, pos, dataLen - 4)| * 8 < SizeBits(s.dataFormat.value))
    ensures r.Ok? && s.dataFormat.Some? ==>
              r.value.fields == x(s.dataFormat.value, r.value.data[..Min(SizeBits(s.dataFormat.value), |r.value.data|)])
  {
    var data := ReadAt(buf, pos, dataLen - 4);
    var fields :- DataFields(s, x, data);
    Ok(FlatRead(data, fields, pos + |data|))
  }

  // --------------------------------------------------------- item walker

  /** `calcsize() // 8`: the IPH size in whole bytes. */
  function IphSize(s: Schema): nat
    requires s.iph.Some?
  {
    SizeBits(s.iph.value) / 8
  }

  /** The payload length of an item: the IPH `length` field when the IPH
      has one, else `item_size`, else 0. */
  function ItemLength(s: Schema, iph: Fields): nat
  {
    if "length" in iph then iph["length"] else s.itemSize
  }

  /** What a walk can still consume from `pos`; it shrinks with every item. */
  function Measure(buf: seq<Byte>, pos: nat): nat
  {
    if pos <= |buf| then |buf| + 1 - pos else 0
  }

  datatype Stepped = Stepped(item: Item, next: nat)

  /** One pass of the walker's loop body from cursor `pos`: read and decode
      the IPH, read the payload, skip a filler byte after an odd length. */
  function Step(s: Schema, x: Codec, buf: seq<Byte>, pos: nat): (r: Result<Stepped>)
    requires Walkable(s) && s.iph.Some?
    ensures r.Err? ==> r.error == StructError
    ensures r.Ok? ==> pos + IphSize(s) <= |buf|
    ensures r.Ok? ==> Measure(buf, r.value.next) < Measure(buf, pos)
    ensures r.Ok? ==> r.value.next == pos + Cost(s, r.value.item)
  {
    var raw := ReadAt(buf, pos, IphSize(s));
    var iph :- Unpack(x, s.iph.value, raw);
    var length := ItemLength(s, iph);
    var data := ReadAt(buf, pos + |raw|, length);
    Ok(Stepped(Item(data, s.itemLabel, s.iph.value, iph), pos + |raw| + |data| + length % 2))
  }

  /** What one step reads and where it leaves the cursor: the IPH is the
      next `iph_size` bytes (and a byte-aligned IPH that fits always
      decodes), the payload is the bytes after it, `length` of them when the
      buffer holds them, and the cursor ends after the payload plus one
      filler byte when `length` is odd. */
  lemma {:induction false} StepReads(s: Schema, x: Codec, buf: seq<Byte>, pos: nat)
    requires Walkable(s) && s.iph.Some?
    ensures pos + IphSize(s) <= |buf| && SizeBits(s.iph.value) % 8 == 0 ==> Step(s, x, buf, pos).Ok?
    ensures var r := Step(s, x, buf, pos);
            r.Ok? ==> Unpack(x, s.iph.value, buf[pos..pos + IphSize(s)]) == Ok(r.value.item.fields)
    ensures var r := Step(s, x, buf, pos);
            r.Ok? ==> r.value.item.itemLabel == s.itemLabel && r.value.item.format == s.iph.value
    ensures var r := Step(s, x, buf, pos);
            r.Ok? ==>
              var start, n, len := pos + IphSize(s), |r.value.item.data|, ItemLength(s, r.value.item.fields);
              start + n <= |buf| && r.value.item.data == buf[start..start + n] && n <= len &&
              (start + len <= |buf| ==> n == len) &&
              r.value.next == start + n + len % 2
  {
  }

  datatype Walked = Walked(items: seq<Item>, pos: nat)

  /** The walker's `while True` loop from cursor `pos`, with `emitted` items
      already appended: one step, then stop if the item count has reached a
      nonzero `count`, else stop if the cursor is at or past `end`, else go on. */
  function Walk(s: Schema, x: Codec, buf: seq<Byte>, pos: nat, end: int, count: nat, emitted: nat): (r: Result<Walked>)
    requires Walkable(s) && s.iph.Some?
    ensures r.Err? ==> r.error == StructError
    ensures r.Ok? ==> |r.value.items| >= 1
    ensures r.Ok? ==> (count != 0 && emitted + |r.value.items| == count) || r.value.pos >= end
    decreases Measure(buf, pos)
  {
    var st :- Step(s, x, buf, pos);
    if count != 0 && emitted + 1 == count then Ok(Walked([st.item], st.next))
    else if st.next >= end then Ok(Walked([st.item], st.next))
    else
      var rest :- Walk(s, x, buf, st.next, end, count, emitted + 1);
      Ok(Walked([st.item] + rest.items, rest.pos))
  }

  /** The bytes one item moves the cursor by. */
  function Cost(s: Schema, item: Item): nat
    requires s.iph.Some?
  {
    IphSize(s) + |item.data| + ItemLength(s, item.fields) % 2
  }

  function Footprint(s: Schema, items: seq<Item>): nat
    requires s.iph.Some?
  {
    if items == [] then 0 else Cost(s, items[0]) + Footprint(s, items[1..])
  }

  lemma {:induction false} FootprintCons(s: Schema, item: Item, rest: seq<Item>)
    requires s.iph.Some?
    ensures Footprint(s, [item] + rest) == Cost(s, item) + Footprint(s, rest)
  {
    assert ([item] + rest)[1..] == rest;
  }

  /** The walk moves the cursor by exactly the sum of its items' costs. */
  lemma {:induction false} WalkFootprint(s: Schema, x: Codec, buf: seq<Byte>, pos: nat, end: int, count: nat, emitted: nat)
    requires Walkable(s) && s.iph.Some?
    requires Walk(s, x, buf, pos, end, count, emitted).Ok?
    ensures var w := Walk(s, x, buf, pos, end, count, emitted).value;
            w.pos == pos + Footprint(s, w.items)
    decreases Measure(buf, pos)
  {
    var st := Step(s, x, buf, pos).value;
    FootprintCons(s, st.item, []);
    if !(count != 0 && emitted + 1 == count) && st.next < end {
      var rest := Walk(s, x, buf, st.next, end, count, emitted + 1).value;
      WalkFootprint(s, x, buf, st.next, end, count, emitted + 1);
      FootprintCons(s, st.item, rest.items);
    }
  }

  /** The first `k` items of a list headed by `item`. */
  lemma {:induction false} TakeCons(item: Item, rest: seq<Item>, k: nat)
    requires 1 <= k <= |rest| + 1
    ensures ([item] + rest)[..k] == [item] + rest[..k - 1]
  {
  }

  /** Before the last item of a walk, the count was not yet reached. */
  lemma {:induction false} WalkCountNotReached(s: Schema, x: Codec, buf: seq<Byte>, pos: nat, end: int, count: nat, emitted: nat, k: nat)
    requires Walkable(s) && s.iph.Some?
    requires Walk(s, x, buf, pos, end, count, emitted).Ok?
    requires 1 <= k < |Walk(s, x, buf, pos, end, count, emitted).value.items|
    ensures !(count != 0 && emitted + k == count)
    decreases Measure(buf, pos)
  {
    var st := Step(s, x, buf, pos).value;
    if k > 1 {
      WalkCountNotReached(s, x, buf, st.next, end, count, emitted + 1, k - 1);
    }
  }

  /** Before the last item of a walk, the cursor was still before `end`. */
  lemma {:induction false} WalkBeforeEnd(s: Schema, x: Codec, buf: seq<Byte>, pos: nat, end: int, count: nat, emitted: nat, k: nat)
    requires Walkable(s) && s.iph.Some?
    requires Walk(s, x, buf, pos, end, count, emitted).Ok?
    requires 1 <= k < |Walk(s, x, buf, pos, end, count, emitted).value.items|
    ensures pos + Footprint(s, Walk(s, x, buf, pos, end, count, emitted).value.items[..k]) < end
    decreases Measure(buf, pos)
  {
    var st := Step(s, x, buf, pos).value;
    var rest := Walk(s, x, buf, st.next, end, count, emitted + 1).value;
    assert Walk(s, x, buf, pos, end, count, emitted).value.items == [st.item] + rest.items;
    TakeCons(st.item, rest.items, k);
    FootprintCons(s, st.item, rest.items[..k - 1]);
    if k == 1 {
      assert rest.items[..0] == [];
    } else {
      WalkBeforeEnd(s, x, buf, st.next, end, count, emitted + 1, k - 1);
    }
  }

  /** The walk stops at the first item that meets a stop condition: after
      each earlier item the count was not yet reached and the cursor was
      still before `end`. */
  lemma {:induction false} WalkStopsAtFirstChance(s: Schema, x: Codec, buf: seq<Byte>, pos: nat, end: int, count: nat, emitted: nat, k: nat)
    requires Walkable(s) && s.iph.Some?
    requires Walk(s, x, buf, pos, end, count, emitted).Ok?
    requires 1 <= k < |Walk(s, x, buf, pos, end, count, emitted).value.items|
    ensures !(count != 0 && emitted + k == count)
    ensures pos + Footprint(s, Walk(s, x, buf, pos, end, count, emitted).value.items[..k]) < end
  {
    WalkCountNotReached(s, x, buf, pos, end, count, emitted, k);
    WalkBeforeEnd(s, x, buf, pos, end, count, emitted, k);
  }

  /** A nonzero `count` bounds the number of items a walk produces. */
  lemma {:induction false} WalkCountBound(s: Schema, x: Codec, buf: seq<Byte>, pos: nat, end: int, count: nat, emitted: nat)
    requires Walkable(s) && s.iph.Some?
    requires count != 0 && emitted < count
    requires Walk(s, x, buf, pos, end, count, emitted).Ok?
    ensures emitted + |Walk(s, x, buf, pos, end, count, emitted).value.items| <= count
    decreases Measure(buf, pos)
  {
    var st := Step(s, x, buf, pos).value;
    if emitted + 1 != count && st.next < end {
      WalkCountBound(s, x, buf, st.next, end, count, emitted + 1);
    }
  }

  /** Every walked item carries the schema's label and IPH format. */
  lemma {:induction false} WalkLabels(s: Schema, x: Codec, buf: seq<Byte>, pos: nat, end: int, count: nat, emitted: nat)
    requires Walkable(s) && s.iph.Some?
    requires Walk(s, x, buf, pos, end, count, emitted).Ok?
    ensures forall item :: item in Walk(s, x, buf, pos, end, count, emitted).value.items ==>
              item.itemLabel == s.itemLabel && item.format == s.iph.value
    decreases Measure(buf, pos)
  {
    var st := Step(s, x, buf, pos).value;
    if !(count != 0 && emitted + 1 == count) && st.next < end {
      WalkLabels(s, x, buf, st.next, end, count, emitted + 1);
    }
  }

  /** Every walked item's fields have the IPH format's shape, and its
      payload is at most its length. */
  lemma {:induction false} WalkItemsShaped(s: Schema, x: Codec, buf: seq<Byte>, pos: nat, end: int, count: nat, emitted: nat)
    requires Lawful(x) && Walkable(s) && s.iph.Some?
    requires Walk(s, x, buf, pos, end, count, emitted).Ok?
    ensures forall item :: item in Walk(s, x, buf, pos, end, count, emitted).value.items ==>
              Shaped(s.iph.value, item.fields) && |item.data| <= ItemLength(s, item.fields)
    decreases Measure(buf, pos)
  {
    var st := Step(s, x, buf, pos).value;
    StepReads(s, x, buf, pos);
    UnpackShaped(x, s.iph.value, buf[pos..pos + IphSize(s)]);
    if !(count != 0 && emitted + 1 == count) && st.next < end {
      WalkItemsShaped(s, x, buf, st.next, end, count, emitted + 1);
    }
  }

  /** Items that each cost at most `c` bytes move the cursor by at most
      `c` bytes apiece. */
  lemma {:induction false} FootprintBound(s: Schema, items: seq<Item>, c: nat)
    requires s.iph.Some?
    requires forall i :: 0 <= i < |items| ==> Cost(s, items[i]) <= c
    ensures Footprint(s, items) <= c * |items|
  {
    if items != [] {
      var rest := items[1..];
      var n := |rest|;
      assert forall i :: 0 <= i < n ==> rest[i] == items[i + 1];
      FootprintBound(s, rest, c);
      assert c * (n + 1) == c * n + c;
    }
  }

  /** The walk's result with `done` put in front of its items. */
  function Prepend(done: seq<Item>, r: Result<Walked>): Result<Walked>
  {
    match r
    case Ok(w) => Ok(Walked(done + w.items, w.pos))
    case Err(e) => Err(e)
  }

  lemma {:induction false} PrependNothing(r: Result<Walked>)
    ensures Prepend([], r) == r
  {
    if r.Ok? {
      assert [] + r.value.items == r.value.items;
    }
  }

  lemma {:induction false} PrependTwice(a: seq<Item>, b: seq<Item>, r: Result<Walked>)
    ensures Prepend(a, Prepend(b, r)) == Prepend(a + b, r)
  {
    if r.Ok? {
      assert a + (b + r.value.items) == (a + b) + r.value.items;
    }
  }

  /** One unfolding of `Walk`, as the loop below takes it. */
  lemma {:induction false} WalkUnfold(s: Schema, x: Codec, buf: seq<Byte>, pos: nat, end: int, count: nat, emitted: nat)
    requires Walkable(s) && s.iph.Some?
    ensures match Step(s, x, buf, pos)
            case Err(e) => Walk(s, x, buf, pos, end, count, emitted) == Err(e)
            case Ok(st) =>
              Walk(s, x, buf, pos, end, count, emitted) ==
              if (count != 0 && emitted + 1 == count) || st.next >= end then Ok(Walked([st.item], st.next))
              else Prepend([st.item], Walk(s, x, buf, st.next, end, count, emitted + 1))
  {
  }

  /** The body of the walker loop: read and decode the IPH, read the
      payload, skip the filler byte after an odd length. */
  method ReadItem(file: BytesIO, s: Schema, x: Codec) returns (r: Result<Item>)
    requires Walkable(s) && s.iph.Some?
    modifies file`pos
    ensures old(file.pos) <= file.pos
    ensures match Step(s, x, file.buf, old(file.pos))
            case Ok(st) => r == Ok(st.item) && file.pos == st.next
            case Err(e) => r == Err(e)
  {
    ghost var start := file.pos;
    var length := s.itemSize;
    var iphSize := SizeBits(s.iph.value) / 8;
    var raw := file.Read(iphSize);
    var iph := Unpack(x, s.iph.value, raw);
    if iph.Err? {
      assert Step(s, x, file.buf, start) == Err(iph.error);
      return Err(iph.error);
    }
    if "length" in iph.value {
      length := iph.value["length"];
    }
    assert length == ItemLength(s, iph.value);
    ghost var afterIph := file.pos;
    var data := file.Read(length);
    if length % 2 == 1 {
      file.Seek(file.pos + 1);
    }
    var item := Item(data, s.itemLabel, s.iph.value, iph.value);
    assert raw == ReadAt(file.buf, start, IphSize(s)) && afterIph == start + |raw|;
    assert data == ReadAt(file.buf, afterIph, length);
    assert file.pos == start + |raw| + |data| + length % 2;
    assert Step(s, x, file.buf, start) == Ok(Stepped(item, file.pos));
    return Ok(item);
  }

  /** One pass of the walker loop with `all` already appended: append the
      next item, then report whether a stop condition holds. */
  method WalkOnce(file: BytesIO, s: Schema, x: Codec, end: int, count: nat, all: seq<Item>)
    returns (r: Result<seq<Item>>, done: bool)
    requires Walkable(s) && s.iph.Some?
    modifies file`pos
    ensures old(file.pos) <= file.pos
    ensures var before := Prepend(all, Walk(s, x, file.buf, old(file.pos), end, count, |all|));
            match r
            case Err(e) => before == Err(e)
            case Ok(items) =>
              if done then before == Ok(Walked(items, file.pos))
              else before == Prepend(items, Walk(s, x, file.buf, file.pos, end, count, |items|)) &&
                   Measure(file.buf, file.pos) < Measure(file.buf, old(file.pos))
  {
    WalkUnfold(s, x, file.buf, file.pos, end, count, |all|);
    var item := ReadItem(file, s, x);
    if item.Err? {
      return Err(item.error), true;
    }
    r := Ok(all + [item.value]);
    if count != 0 && |all| + 1 == count {
      return r, true;
    }
    var at := file.Tell();
    if at >= end {
      return r, true;
    }
    PrependTwice(all, [item.value], Walk(s, x, file.buf, file.pos, end, count, |all| + 1));
    done := false;
  }

  /** The walker loop itself, appending to a list while moving the cursor. */
  method WalkItems(file: BytesIO, s: Schema, x: Codec, end: int, count: nat) returns (r: Result<seq<Item>>)
    requires Walkable(s) && s.iph.Some?
    modifies file`pos
    ensures old(file.pos) <= file.pos
    ensures match Walk(s, x, file.buf, old(file.pos), end, count, 0)
            case Ok(w) => r == Ok(w.items) && file.pos == w.pos
            case Err(e) => r == Err(e)
  {
    var all: seq<Item> := [];
    PrependNothing(Walk(s, x, file.buf, file.pos, end, count, 0));
    while true
      invariant old(file.pos) <= file.pos
      invariant Prepend(all, Walk(s, x, file.buf, file.pos, end, count, |all|)) ==
                Walk(s, x, file.buf, old(file.pos), end, count, 0)
      decreases Measure(file.buf, file.pos)
    {
      var next, done := WalkOnce(file, s, x, end, count, all);
      if next.Err? {
        return Err(next.error);
      }
      if done {
        return Ok(next.value);
      }
      all := next.value;
    }
  }

  // ------------------------------------------------------ parse_data

  /** The attributes `parse_data` leaves: the decoded fields, the flat
      data, the walked items and the cursor. */
  datatype Parsed = Parsed(fields: Fields, data: seq<Byte>, items: seq<Item>, pos: nat)

  /** The flat branch of `parse_data`: the data and its fields added to
      `fields`; the items become `items`. */
  function FlatBody(s: Schema, x: Codec, buf: seq<Byte>, pos: nat, dataLen: int,
                    fields: Fields, items: seq<Item>): Result<Parsed>
  {
    var flat :- FlatAt(s, x, buf, pos, dataLen);
    Ok(Parsed(fields + flat.fields, flat.data, items, flat.pos))
  }

  /** The walker branch of `parse_data`, bounded by `end` and by the
      object's own `count`; the data stays as it was. */
  function WalkBody(s: Schema, x: Codec, buf: seq<Byte>, pos: nat, end: int,
                    fields: Fields, data: seq<Byte>): Result<Parsed>
    requires Walkable(s) && s.iph.Some?
  {
    var w :- Walk(s, x, buf, pos, end, Get(fields, "count"), 0);
    Ok(Parsed(fields, data, w.items, w.pos))
  }

  /** The walker branch emits at least one item, moves the cursor by the
      items' costs, stops at a nonzero `count` or at `end`, and never
      emits more than a nonzero `count`. */
  lemma {:induction false} WalkBodyStops(s: Schema, x: Codec, buf: seq<Byte>, pos: nat, end: int, fields: Fields, data: seq<Byte>)
    requires Walkable(s) && s.iph.Some?
    requires WalkBody(s, x, buf, pos, end, fields, data).Ok?
    ensures var b := WalkBody(s, x, buf, pos, end, fields, data).value;
            var count := Get(fields, "count");
            |b.items| >= 1 && b.pos == pos + Footprint(s, b.items) &&
            ((count != 0 && |b.items| == count) || b.pos >= end) &&
            (count != 0 ==> |b.items| <= count)
  {
    var count := Get(fields, "count");
    WalkFootprint(s, x, buf, pos, end, count, 0);
    if count != 0 {
      WalkCountBound(s, x, buf, pos, end, count, 0);
    }
  }

  method ParseFlat(file: BytesIO, s: Schema, x: Codec, dataLen: int, fields: Fields, items: seq<Item>)
    returns (r: Result<Parsed>)
    modifies file`pos
    ensures old(file.pos) <= file.pos
    ensures r == FlatBody(s, x, file.buf, old(file.pos), dataLen, fields, items)
    ensures r.Ok? ==> file.pos == r.value.pos
  {
    var data := file.Read(dataLen - 4);
    var decoded := DataFields(s, x, data);
    if decoded.Err? {
      return Err(decoded.error);
    }
    return Ok(Parsed(fields + decoded.value, data, items, file.pos));
  }

  method ParseWalk(file: BytesIO, s: Schema, x: Codec, end: int, fields: Fields, data: seq<Byte>)
    returns (r: Result<Parsed>)
    requires Walkable(s) && s.iph.Some?
    modifies file`pos
    ensures old(file.pos) <= file.pos
    ensures r == WalkBody(s, x, file.buf, old(file.pos), end, fields, data)
    ensures r.Ok? ==> file.pos == r.value.pos
  {
    var items := WalkItems(file, s, x, end, Get(fields, "count"));
    if items.Err? {
      return Err(items.error);
    }
    return Ok(Parsed(fields, data, items.value, file.pos));
  }
}
