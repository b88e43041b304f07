/** The ARINC-429 format 0 packet (`ARINC429F0`): a CSDW holding the word
    count, and one 4-byte data word behind each 4-byte IPH. */
module Arinc429 {
  import opened Common
  import opened BitFormat
  import opened Header
  import opened Body

  const CSDW: Format := [U("count", 16), Field(None, 16)]

  const IPH: Format := [
    U("gap_time", 20), Field(None, 1), U("bus_speed", 1), U("parity_error", 1),
    U("format_error", 1), U("bus", 8)]

  const LABEL: string := "ARINC-429 Data Word"

  const ARINC429: Schema := Schema(Some(CSDW), None, Some(IPH), 4, Some(LABEL))

  /** The CSDW is the 4 bytes `parse_csdw` reads and the IPH is 4 bytes,
      so the schema can be walked. */
  lemma {:induction false} Arinc429Sizes()
    ensures SizeBits(CSDW) == 32 && SizeBits(IPH) == 32
    ensures IphSize(ARINC429) == 4 && Walkable(ARINC429)
  {
    assert SizeFrom(IPH, 3) == 10;
  }

  /** The IPH has no `length` field, so every item's length is `item_size`,
      4, which is even: no filler byte is ever skipped. */
  lemma {:induction false} Arinc429Length(iph: Fields)
    requires Shaped(IPH, iph)
    ensures ItemLength(ARINC429, iph) == 4 && ItemLength(ARINC429, iph) % 2 == 0
  {
    assert forall i :: 0 <= i < |IPH| ==> IPH[i].name != Some("length");
  }

  /** One item is a 4-byte IPH and a 4-byte data word: 8 bytes, or what is
      left of the buffer. */
  lemma {:induction false} Arinc429Step(x: Codec, buf: seq<Byte>, pos: nat)
    requires Lawful(x)
    requires Step(ARINC429, x, buf, pos).Ok?
    ensures var st := Step(ARINC429, x, buf, pos).value;
            st.item.itemLabel == Some(LABEL) && |st.item.data| <= 4 &&
            st.next == pos + 4 + |st.item.data| &&
            (pos + 8 <= |buf| ==> |st.item.data| == 4 && st.next == pos + 8)
  {
    Arinc429Sizes();
    StepReads(ARINC429, x, buf, pos);
    var st := Step(ARINC429, x, buf, pos).value;
    UnpackShaped(x, IPH, buf[pos..pos + 4]);
    Arinc429Length(st.item.fields);
  }

  /** A walk over ARINC-429 words labels every item, moves the cursor by at
      most 8 bytes per item, and stops at a nonzero count. */
  lemma {:induction false} Arinc429Walk(x: Codec, buf: seq<Byte>, pos: nat, end: int, count: nat)
    requires Lawful(x) && Walkable(ARINC429)
    requires Walk(ARINC429, x, buf, pos, end, count, 0).Ok?
    ensures var w := Walk(ARINC429, x, buf, pos, end, count, 0).value;
            (forall item :: item in w.items ==> item.itemLabel == Some(LABEL) && |item.data| <= 4) &&
            w.pos <= pos + 8 * |w.items| &&
            (count != 0 ==> |w.items| <= count)
  {
    Arinc429Sizes();
    var w := Walk(ARINC429, x, buf, pos, end, count, 0).value;
    WalkLabels(ARINC429, x, buf, pos, end, count, 0);
    WalkItemsShaped(ARINC429, x, buf, pos, end, count, 0);
    forall item | item in w.items
      ensures Cost(ARINC429, item) <= 8 && |item.data| <= 4
    {
      Arinc429Length(item.fields);
    }
    WalkFootprint(ARINC429, x, buf, pos, end, count, 0);
    FootprintBound(ARINC429, w.items, 8);
    if count != 0 {
      WalkCountBound(ARINC429, x, buf, pos, end, count, 0);
    }
  }

  /** The decoded `count` is always present and below 2^16. */
  lemma {:induction false} Arinc429Count(x: Codec, buf: seq<Byte>, pos: nat)
    requires Lawful(x)
    requires CsdwAt(ARINC429, x, buf, pos).Ok?
    ensures var c := CsdwAt(ARINC429, x, buf, pos).value;
            "count" in c.fields && c.fields["count"] < 65536 && c.pos == pos + 4
  {
    Arinc429Sizes();
    var raw := Cursor.ReadAt(buf, pos, 4);
    UnpackShaped(x, CSDW, raw);
    ShapedValue(CSDW, x(CSDW, raw), 0);
    Pow2Values();
  }
}
