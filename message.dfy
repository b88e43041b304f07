/** The message data format 0 packet (`MessageF0`): a CSDW holding the
    message count and packet type, and messages whose 12-byte IPH carries
    their length. */
module Message {
  import opened Common
  import opened BitFormat
  import opened Header
  import opened Body

  const CSDW: Format := [U("count", 16), U("packet_type", 2), Field(None, 14)]

  const IPH: Format := [
    U("ipts", 64), U("length", 16), U("subchannel", 14), U("format_error", 1), U("data_error", 1)]

  const LABEL: string := "Message Data"

  /** No `item_size`: a message's length always comes from its IPH. */
  const MESSAGE: Schema := Schema(Some(CSDW), None, Some(IPH), 0, Some(LABEL))

  /** The CSDW is the 4 bytes `parse_csdw` reads and the IPH is 12 bytes,
      so the schema can be walked. */
  lemma {:induction false} MessageSizes()
    ensures SizeBits(CSDW) == 32 && SizeBits(IPH) == 96
    ensures IphSize(MESSAGE) == 12 && Walkable(MESSAGE)
  {
  }

  /** Every decoded IPH has a `length` field below 2^16, and it is the
      message's length. */
  lemma {:induction false} MessageLength(x: Codec, raw: seq<Byte>)
    requires Lawful(x)
    requires Unpack(x, IPH, raw).Ok?
    ensures var iph := Unpack(x, IPH, raw).value;
            "length" in iph && iph["length"] < 65536 && ItemLength(MESSAGE, iph) == iph["length"]
  {
    UnpackShaped(x, IPH, raw);
    ShapedLength(Unpack(x, IPH, raw).value);
  }

  /** Any fields of the IPH's shape hold a `length` below 2^16. */
  lemma {:induction false} ShapedLength(iph: Fields)
    requires Shaped(IPH, iph)
    ensures "length" in iph && iph["length"] < 65536 && ItemLength(MESSAGE, iph) == iph["length"]
  {
    ShapedValue(IPH, iph, 1);
    Pow2Values();
  }

  /** A message of length L is a 12-byte IPH, L data bytes and a filler
      byte when L is odd; a short buffer cuts the data short. */
  lemma {:induction false} MessageStep(x: Codec, buf: seq<Byte>, pos: nat)
    requires Lawful(x)
    requires Step(MESSAGE, x, buf, pos).Ok?
    ensures var st := Step(MESSAGE, x, buf, pos).value;
            var len := ItemLength(MESSAGE, st.item.fields);
            st.item.itemLabel == Some(LABEL) && len < 65536 && |st.item.data| <= len &&
            st.next == pos + 12 + |st.item.data| + len % 2 &&
            (pos + 12 + len <= |buf| ==> |st.item.data| == len && st.next == pos + 12 + len + len % 2)
  {
    MessageSizes();
    StepReads(MESSAGE, x, buf, pos);
    MessageLength(x, buf[pos..pos + 12]);
  }

  /** A walk over messages labels every message, and a nonzero count stops
      it after exactly `count` messages unless the cursor reached `end`
      first; it never yields more than `count`. */
  lemma {:induction false} MessageWalk(x: Codec, buf: seq<Byte>, pos: nat, end: int, count: nat)
    requires Lawful(x) && Walkable(MESSAGE)
    requires Walk(MESSAGE, x, buf, pos, end, count, 0).Ok?
    ensures var w := Walk(MESSAGE, x, buf, pos, end, count, 0).value;
            (forall item :: item in w.items ==>
               item.itemLabel == Some(LABEL) && ItemLength(MESSAGE, item.fields) < 65536) &&
            (count != 0 ==> |w.items| <= count) &&
            (count != 0 && w.pos < end ==> |w.items| == count)
  {
    MessageSizes();
    var w := Walk(MESSAGE, x, buf, pos, end, count, 0).value;
    WalkLabels(MESSAGE, x, buf, pos, end, count, 0);
    WalkItemsShaped(MESSAGE, x, buf, pos, end, count, 0);
    forall item | item in w.items
      ensures ItemLength(MESSAGE, item.fields) < 65536
    {
      ShapedLength(item.fields);
    }
    if count != 0 {
      WalkCountBound(MESSAGE, x, buf, pos, end, count, 0);
    }
  }

  /** Fields of the CSDW's shape hold a `count` below 2^16 and a packet
      type below 4. */
  lemma {:induction false} CsdwBounds(m: Fields)
    requires Shaped(CSDW, m)
    ensures "count" in m && m["count"] < 65536 && "packet_type" in m && m["packet_type"] < 4
  {
    ShapedValue(CSDW, m, 0);
    ShapedValue(CSDW, m, 1);
    Pow2Values();
  }

  /** The decoded `count` is below 2^16 and the packet type below 4. */
  lemma {:induction false} MessageCount(x: Codec, buf: seq<Byte>, pos: nat)
    requires Lawful(x)
    requires CsdwAt(MESSAGE, x, buf, pos).Ok?
    ensures var c := CsdwAt(MESSAGE, x, buf, pos).value;
            "count" in c.fields && c.fields["count"] < 65536 &&
            "packet_type" in c.fields && c.fields["packet_type"] < 4 && c.pos == pos + 4
  {
    MessageSizes();
    var raw := Cursor.ReadAt(buf, pos, 4);
    UnpackShaped(x, CSDW, raw);
    CsdwBounds(x(CSDW, raw));
  }
}
