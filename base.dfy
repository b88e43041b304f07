/** The data-type objects built over a packet (`datatypes/base.py`): a
    `Base` re-reads the packet's body through the packet's own buffer, with
    its own CSDW and data formats; an `IterativeBase` walks items instead
    when it has an IPH format. Both share the packet's cursor. */
module DataTypes {
  import opened Common
  import opened BitFormat
  import opened Body
  import opened Packets

  // ------------------------------------------------------ specification

  /** `parse_data` with the packet's cursor at `cursor`: the walker of an
      `IterativeBase` with an IPH format, bounded by `pos + data_length`
      where `pos` is the cursor when the object was built, or else the flat
      body of `Base.parse_data`. Only an `IterativeBase` resets its items. */
  function BaseData(s: Schema, iterative: bool, x: Codec, buf: seq<Byte>, cursor: nat, pos: nat,
                    header: Fields, own: Fields, data: seq<Byte>, items: seq<Item>): Result<Parsed>
    requires iterative ==> Walkable(s)
  {
    if iterative && s.iph.Some? then WalkBody(s, x, buf, cursor, pos + Get(header, "data_length"), own, data)
    else FlatBody(s, x, buf, cursor, Get(header, "packet_length") - HeaderLen(header), own,
                  if iterative then [] else items)
  }

  /** `parse`: seek to the end of the packet's headers, whatever the cursor,
      then the CSDW and the data. */
  function BaseBody(s: Schema, iterative: bool, x: Codec, buf: seq<Byte>, pos: nat,
                    header: Fields, own: Fields, data: seq<Byte>, items: seq<Item>): Result<Parsed>
    requires iterative ==> Walkable(s)
  {
    var c :- CsdwAt(s, x, buf, HeaderLen(header));
    BaseData(s, iterative, x, buf, c.pos, pos, header, own + c.fields, data, items)
  }

  // ------------------------------------------------------------ lemmas

  /** An `IterativeBase` without an IPH format parses exactly as a `Base`:
      flat data and no items. */
  lemma {:induction false} IterativeWithoutIphIsFlat(s: Schema, x: Codec, buf: seq<Byte>, pos: nat, header: Fields)
    requires s.iph.None?
    ensures BaseBody(s, true, x, buf, pos, header, map[], [], []) ==
            BaseBody(s, false, x, buf, pos, header, map[], [], [])
    ensures BaseBody(s, true, x, buf, pos, header, map[], [], []).Ok? ==>
            BaseBody(s, true, x, buf, pos, header, map[], [], []).value.items == []
  {
  }

  /** The walk of an `IterativeBase` starts right after the CSDW read at the
      end of the headers, consumes each item's IPH, payload and filler, emits
      at least one item and stops at a nonzero `count` or at
      `pos + data_length`. */
  lemma {:induction false} BaseWalk(s: Schema, x: Codec, buf: seq<Byte>, pos: nat, header: Fields, own: Fields)
    requires Walkable(s) && s.iph.Some?
    requires BaseBody(s, true, x, buf, pos, header, own, [], []).Ok?
    ensures var b := BaseBody(s, true, x, buf, pos, header, own, [], []).value;
            var c := CsdwAt(s, x, buf, HeaderLen(header)).value;
            var count := Get(own + c.fields, "count");
            |b.items| >= 1 &&
            b.pos == c.pos + Footprint(s, b.items) &&
            ((count != 0 && |b.items| == count) || b.pos >= pos + Get(header, "data_length")) &&
            (count != 0 ==> |b.items| <= count)
  {
    var c := CsdwAt(s, x, buf, HeaderLen(header)).value;
    var end := pos + Get(header, "data_length");
    assert BaseBody(s, true, x, buf, pos, header, own, [], []) == WalkBody(s, x, buf, c.pos, end, own + c.fields, []);
    WalkBodyStops(s, x, buf, c.pos, end, own + c.fields, []);
  }

  // ------------------------------------------------------------- class

  class Base {
    const packet: Packet
    const schema: Schema
    /** An `IterativeBase` rather than a plain `Base`. */
    const iterative: bool
    /** The packet's cursor when this object was built. */
    const pos: nat
    var fields: Fields
    var data: seq<Byte>
    var all: seq<Item>

    /** The state before `parse`: the packet's cursor is remembered. */
    constructor (p: Packet, s: Schema, iterative: bool)
      ensures packet == p && schema == s && this.iterative == iterative && pos == p.file.pos
      ensures fields == map[] && data == [] && all == []
    {
      packet := p;
      schema := s;
      this.iterative := iterative;
      pos := p.file.pos;
      fields := map[];
      data := [];
      all := [];
    }

    /** `len()`: the packet's `data_length` for a `Base`, the number of
        items for an `IterativeBase`. */
    function Len(): nat
      reads this, packet
    {
      if iterative then |all| else Get(packet.fields, "data_length")
    }

    /** `parse_csdw`: reads 4 bytes of the packet only when a CSDW format
        is set. */
    method ParseCsdw(x: Codec) returns (r: Result<()>)
      modifies this`fields, packet.file`pos
      ensures old(packet.file.pos) <= packet.file.pos
      ensures match CsdwAt(schema, x, packet.file.buf, old(packet.file.pos))
              case Ok(c) => r.Ok? && fields == old(fields) + c.fields && packet.file.pos == c.pos
              case Err(e) => r == Err(e)
    {
      var csdw := ReadCsdw(packet.file, schema, x);
      if csdw.Err? {
        return Err(csdw.error);
      }
      fields := fields + csdw.value;
      return Ok(());
    }

    /** `parse_data` of `Base` or `IterativeBase`. */
    method ParseData(x: Codec) returns (r: Result<()>)
      requires iterative ==> Walkable(schema)
      modifies this`fields, this`data, this`all, packet.file`pos
      ensures old(packet.file.pos) <= packet.file.pos
      ensures match BaseData(schema, iterative, x, packet.file.buf, old(packet.file.pos), pos,
                             packet.fields, old(fields), old(data), old(all))
              case Ok(b) => r.Ok? && fields == b.fields && data == b.data && all == b.items &&
                            packet.file.pos == b.pos
              case Err(e) => r == Err(e)
    {
      ghost var spec := BaseData(schema, iterative, x, packet.file.buf, packet.file.pos, pos,
                                 packet.fields, fields, data, all);
      var parsed: Result<Parsed>;
      if iterative && schema.iph.Some? {
        parsed := ParseWalk(packet.file, schema, x, pos + Get(packet.fields, "data_length"), fields, data);
      } else {
        parsed := ParseFlat(packet.file, schema, x, Get(packet.fields, "packet_length") - HeaderLen(packet.fields),
                            fields, if iterative then [] else all);
      }
      assert parsed == spec;
      if parsed.Err? {
        return Err(parsed.error);
      }
      fields, data, all := parsed.value.fields, parsed.value.data, parsed.value.items;
      return Ok(());
    }

    /** `parse`: the packet's cursor goes to 36 with a secondary header and
        to 24 without, wherever it was, before the CSDW is read. */
    method Parse(x: Codec) returns (r: Result<()>)
      requires iterative ==> Walkable(schema)
      modifies this`fields, this`data, this`all, packet.file`pos
      ensures match BaseBody(schema, iterative, x, packet.file.buf, pos, packet.fields, old(fields), old(data), old(all))
              case Ok(b) => r.Ok? && fields == b.fields && data == b.data && all == b.items &&
                            packet.file.pos == b.pos
              case Err(e) => r == Err(e)
    {
      packet.file.Seek(HeaderLen(packet.fields));
      r := ParseCsdw(x);
      if r.Err? {
        return;
      }
      r := ParseData(x);
    }
  }

  /** `Base(packet)` or `IterativeBase(packet)`: remember the packet's
      cursor and parse; any exception is returned instead of an object. */
  method Build(p: Packet, s: Schema, iterative: bool, x: Codec) returns (r: Result<Base>)
    requires iterative ==> Walkable(s)
    modifies p.file`pos
    ensures match BaseBody(s, iterative, x, p.file.buf, old(p.file.pos), p.fields, map[], [], [])
            case Ok(b) => r.Ok? && fresh(r.value) && r.value.packet == p && r.value.pos == old(p.file.pos) &&
                          r.value.fields == b.fields && r.value.data == b.data && r.value.all == b.items &&
                          p.file.pos == b.pos &&
                          r.value.Len() == (if iterative then |b.items| else Get(p.fields, "data_length"))
            case Err(e) => r == Err(e)
  {
    var base := new Base(p, s, iterative);
    var parsed := base.Parse(x);
    if parsed.Err? {
      return Err(parsed.error);
    }
    return Ok(base);
  }
}
