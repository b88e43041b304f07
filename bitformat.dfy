/** Compiled bit-field formats, as `compile_fmt` produces them, seen only
    through what the decoder uses: the list of fields, the total width
    `calcsize()` and `unpack`, which maps raw bytes to named field values.

    The bit order in which `unpack` cuts the fields out of the bytes belongs
    to the codec and is not modelled: a `Codec` stands for it. What the
    model fixes is what every caller relies on: too few bytes fail, and a
    lawful codec yields exactly the format's names, each value within its
    declared width. `FieldCodec` builds one field by field, as `unpack` does,
    and is lawful. */
module BitFormat {
  import opened Common

  /** `u<N> name` is `Field(Some(name), N)`; padding `p<N>` is `Field(None, N)`. */
  datatype Field = Field(name: Option<string>, width: nat)

  type Format = seq<Field>

  /** Decoded field values by name: the attributes `unpack` adds to an object. */
  type Fields = map<string, nat>

  /** What the codec makes of some bytes under a format: the fields it
      sets. Only its result on bytes that hold the whole format is used. */
  type Codec = (Format, seq<Byte>) -> Fields

  /** The codec's raw reading of field `i` of a format from some bytes; its
      bit order is left open. */
  type Extractor = (Format, seq<Byte>, nat) -> nat

  /** `calcsize()`: the sum of the field widths, in bits. */
  function SizeBits(f: Format): nat
  {
    SizeFrom(f, 0)
  }

  /** The widths of the fields from index `i` on. */
  function SizeFrom(f: Format, i: nat): nat
    decreases |f| - i
  {
    if i >= |f| then 0 else f[i].width + SizeFrom(f, i + 1)
  }

  /** An attribute read with a default: `getattr(obj, k, 0)`. */
  function Get(m: Fields, k: string): nat
  {
    if k in m then m[k] else 0
  }

  /** No field after `i` among the first `n` carries field `i`'s name. */
  predicate LastNamed(f: Format, i: nat, n: nat)
    requires i < n <= |f|
  {
    forall j :: i < j < n ==> f[j].name != f[i].name
  }

  /** The mapping produced by the first `n` fields of `f`, each named field
      holding the codec's value cut down to its width; a later field of the
      same name replaces an earlier one, as a dictionary update does. */
  function FieldsOf(x: Extractor, f: Format, raw: seq<Byte>, n: nat): Fields
    requires n <= |f|
    decreases n
  {
    if n == 0 then map[]
    else
      var m := FieldsOf(x, f, raw, n - 1);
      match f[n - 1].name
      case None => m
      case Some(k) => m[k := x(f, raw, n - 1) % Pow2(f[n - 1].width)]
  }

  /** Every named field is present, and every entry comes from a named field
      and fits that field's width. */
  lemma {:induction false} FieldsOfKeys(x: Extractor, f: Format, raw: seq<Byte>, n: nat)
    requires n <= |f|
    ensures var r := FieldsOf(x, f, raw, n);
            forall k :: k in r ==> exists i :: 0 <= i < n && f[i].name == Some(k) && r[k] < Pow2(f[i].width)
    ensures var r := FieldsOf(x, f, raw, n);
            forall i :: 0 <= i < n && f[i].name.Some? ==> f[i].name.value in r
    decreases n
  {
    if n > 0 {
      FieldsOfKeys(x, f, raw, n - 1);
      var m, r := FieldsOf(x, f, raw, n - 1), FieldsOf(x, f, raw, n);
      forall k | k in r
        ensures exists i :: 0 <= i < n && f[i].name == Some(k) && r[k] < Pow2(f[i].width)
      {
        if f[n - 1].name == Some(k) {
          assert r[k] == x(f, raw, n - 1) % Pow2(f[n - 1].width);
        } else {
          assert k in m && r[k] == m[k];
          var i :| 0 <= i < n - 1 && f[i].name == Some(k) && m[k] < Pow2(f[i].width);
        }
      }
    }
  }

  /** A named field that no later field renames holds the codec's value,
      cut down to its width. */
  lemma {:induction false} FieldsOfValues(x: Extractor, f: Format, raw: seq<Byte>, n: nat)
    requires n <= |f|
    ensures var r := FieldsOf(x, f, raw, n);
            forall i :: 0 <= i < n && f[i].name.Some? && LastNamed(f, i, n) ==>
              f[i].name.value in r && r[f[i].name.value] == x(f, raw, i) % Pow2(f[i].width)
    decreases n
  {
    if n > 0 {
      FieldsOfValues(x, f, raw, n - 1);
      var r := FieldsOf(x, f, raw, n);
      forall i | 0 <= i < n && f[i].name.Some? && LastNamed(f, i, n)
        ensures f[i].name.value in r && r[f[i].name.value] == x(f, raw, i) % Pow2(f[i].width)
      {
        if i < n - 1 {
          assert f[n - 1].name != f[i].name;
          assert LastNamed(f, i, n - 1);
        }
      }
    }
  }

  /** `m` holds exactly the names of the named fields of `f`, each value
      within the width of a field of that name. */
  predicate Shaped(f: Format, m: Fields)
  {
    (forall k :: k in m ==> exists i :: 0 <= i < |f| && f[i].name == Some(k) && m[k] < Pow2(f[i].width)) &&
    (forall i :: 0 <= i < |f| && f[i].name.Some? ==> f[i].name.value in m)
  }

  /** A codec whose every result has the shape of its format. */
  ghost predicate Lawful(x: Codec)
  {
    forall f, raw :: Shaped(f, x(f, raw))
  }

  /** The codec that sets the fields one by one with the extractor's
      readings, cut down to their widths. */
  function FieldCodec(e: Extractor): Codec
  {
    (f: Format, raw: seq<Byte>) => FieldsOf(e, f, raw, |f|)
  }

  /** Setting the fields one by one yields the format's shape. */
  lemma {:induction false} FieldCodecLawful(e: Extractor)
    ensures Lawful(FieldCodec(e))
  {
    forall f, raw
      ensures Shaped(f, FieldCodec(e)(f, raw))
    {
      FieldsOfKeys(e, f, raw, |f|);
    }
  }

  /** A field whose name no other field of the format carries is present in
      a shaped mapping, within its own width. */
  lemma {:induction false} ShapedValue(f: Format, m: Fields, i: nat)
    requires Shaped(f, m) && i < |f| && f[i].name.Some?
    requires forall j :: 0 <= j < |f| && j != i ==> f[j].name != f[i].name
    ensures f[i].name.value in m && m[f[i].name.value] < Pow2(f[i].width)
  {
    var k := f[i].name.value;
    var j :| 0 <= j < |f| && f[j].name == Some(k) && m[k] < Pow2(f[j].width);
  }

  /** `unpack(raw)`: fails with `struct.error` when `raw` holds fewer bits
      than the format, and otherwise yields what the codec makes of it. */
  function Unpack(x: Codec, f: Format, raw: seq<Byte>): (r: Result<Fields>)
    ensures r.Err? <==> |raw| * 8 < SizeBits(f)
    ensures r.Err? ==> r.error == StructError
  {
    if |raw| * 8 < SizeBits(f) then Err(StructError) else Ok(x(f, raw))
  }

  /** What a successful `unpack` by a lawful codec yields has the shape of
      its format (for the values of the field-by-field codec, see
      `FieldsOfValues`). */
  lemma {:induction false} UnpackShaped(x: Codec, f: Format, raw: seq<Byte>)
    requires Lawful(x) && Unpack(x, f, raw).Ok?
    ensures Shaped(f, Unpack(x, f, raw).value)
  {
  }
}
