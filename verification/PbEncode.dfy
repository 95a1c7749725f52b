/** What nanopb's encoder writes, as a function of the message. `None` is an encoding error. */
module PbEncode {
  import opened Common
  import opened PbWire
  import opened PbSchema

  const WT_VARINT: nat := 0
  const WT_64BIT: nat := 1
  const WT_STRING: nat := 2
  const WT_32BIT: nat := 5

  function WireType(t: LType): (w: nat)
    ensures w < 8
  {
    match t
    case Varint => WT_VARINT
    case UVarint => WT_VARINT
    case SVarint => WT_VARINT
    case Fixed32 => WT_32BIT
    case Fixed64 => WT_64BIT
    case _ => WT_STRING
  }

  function TagBytes(tag: nat, wireType: nat): (b: seq<Byte>)
    ensures |b| > 0
  {
    VarintBytes(tag * 8 + wireType)
  }

  /** pb_encode_string. */
  function Prefixed(b: seq<Byte>): seq<Byte> {
    VarintBytes(|b|) + b
  }

  function Then(a: Option<seq<Byte>>, b: Option<seq<Byte>>): (r: Option<seq<Byte>>)
    ensures r.Some? <==> a.Some? && b.Some?
    ensures r.Some? ==> r.value == a.value + b.value
  {
    if a.Some? && b.Some? then Some(a.value + b.value) else None
  }

  predicate IntSize(n: nat) {
    n == 1 || n == 2 || n == 4 || n == 8
  }

  /** The field encoders, pb_enc_varint to pb_enc_fixed_length_bytes. */
  function EncVal(f: Field, v: Val): (r: Option<seq<Byte>>)
    requires ShapedVal(f, v)
    decreases v, 0
  {
    match f.ltype
    case Varint => if IntSize(f.dataSize) then Some(VarintBytes(Unsigned64(v.n))) else None
    case UVarint => if IntSize(f.dataSize) then Some(VarintBytes(v.n)) else None
    case SVarint => if IntSize(f.dataSize) then Some(VarintBytes(ZigZag(v.n))) else None
    case Fixed32 => Some(LittleEndian(v.bits, 4))
    case Fixed64 => Some(LittleEndian(v.bits, 8))
    case Bytes => if |v.bytes| + BYTES_HEADER > f.dataSize then None else Some(Prefixed(v.bytes))
    case String => Some(Prefixed(v.bytes))
    case FixedLengthBytes => Some(Prefixed(v.bytes))
    case Submessage =>
      if !f.hasSub then None
      else
        var inner := EncFrom(f.sub, v.slots, 0);
        if inner.Some? then Some(Prefixed(inner.value)) else None
  }

  function Tagged(f: Field, v: Val): (r: Option<seq<Byte>>)
    requires ShapedVal(f, v)
    ensures r.Some? ==> |r.value| > 0
    decreases v, 1
  {
    Then(Some(TagBytes(f.tag, WireType(f.ltype))), EncVal(f, v))
  }

  /** The items from `k` on, one after the other, bare or each with its tag. */
  function EncItems(f: Field, items: seq<Val>, k: nat, tagged: bool): (r: Option<seq<Byte>>)
    requires k <= |items| && forall i: nat | i < |items| :: ShapedVal(f, items[i])
    decreases items, 2, |items| - k
  {
    if k == |items| then Some([])
    else Then(if tagged then Tagged(f, items[k]) else EncVal(f, items[k]), EncItems(f, items, k + 1, tagged))
  }

  /** encode_array: packed whenever the type allows it. */
  function EncArray(f: Field, items: seq<Val>): (r: Option<seq<Byte>>)
    requires forall i: nat | i < |items| :: ShapedVal(f, items[i])
    decreases items, 3
  {
    if items == [] then Some([])
    else if |items| > f.arraySize then None
    else if Packable(f.ltype) then
      var data := EncItems(f, items, 0, false);
      if data.Some? then Some(TagBytes(f.tag, WT_STRING) + Prefixed(data.value)) else None
    else EncItems(f, items, 0, true)
  }

  /** encode_basic_field: the bytes one field contributes. */
  function EncField(f: Field, s: Slot): (r: Option<seq<Byte>>)
    requires ShapedSlot(f, s)
    decreases s
  {
    match s
    case Plain(v) => if f.htype == Optional && ProtoDefaultVal(f, v) then Some([]) else Tagged(f, v)
    case Maybe(has, v) => if has then Tagged(f, v) else Some([])
    case Many(items) => EncArray(f, items)
    case OneOf(held) => if held.Some? then Tagged(f, held.value) else Some([])
  }

  /** pb_encode from field `k` on. */
  function EncFrom(fields: seq<Field>, slots: seq<Slot>, k: nat): (r: Option<seq<Byte>>)
    requires Shaped(fields, slots) && k <= |slots|
    decreases slots, |slots| - k
  {
    if k == |slots| then Some([])
    else Then(EncField(fields[k], slots[k]), EncFrom(fields, slots, k + 1))
  }

  function Enc(fields: seq<Field>, slots: seq<Slot>): (r: Option<seq<Byte>>)
    requires Shaped(fields, slots)
  {
    EncFrom(fields, slots, 0)
  }

  // When a message can be encoded.

  /** The value respects the descriptor's size limits. */
  predicate FitsVal(f: Field, v: Val)
    decreases v
  {
    match f.ltype
    case Bytes => v.Blob? && |v.bytes| + BYTES_HEADER <= f.dataSize
    case Submessage => v.Sub? && Fits(f.sub, v.slots)
    case _ => true
  }

  predicate FitsSlot(f: Field, s: Slot)
    decreases s
  {
    match s
    case Plain(v) => (f.htype == Optional && ProtoDefaultVal(f, v)) || FitsVal(f, v)
    case Maybe(has, v) => has ==> FitsVal(f, v)
    case Many(items) => |items| <= f.arraySize && forall i: nat | i < |items| :: FitsVal(f, items[i])
    case OneOf(held) => held.Some? ==> FitsVal(f, held.value)
  }

  /** Every array and byte string that is present fits the room the descriptor gives it. */
  predicate Fits(fields: seq<Field>, slots: seq<Slot>)
    decreases slots
  {
    |fields| == |slots| && forall i: nat | i < |slots| :: FitsSlot(fields[i], slots[i])
  }

  lemma {:induction false} ItemsEncodeWhenTheyFit(f: Field, items: seq<Val>, k: nat, tagged: bool)
    requires WfField(f) && k <= |items| && forall i: nat | i < |items| :: ShapedVal(f, items[i])
    ensures EncItems(f, items, k, tagged).Some? <==> forall i: nat | k <= i < |items| :: FitsVal(f, items[i])
    decreases items, 2, |items| - k
  {
    hide EncVal, FitsVal, WfField, ShapedVal;
    if k < |items| {
      ValEncodesWhenItFits(f, items[k]);
      ItemsEncodeWhenTheyFit(f, items, k + 1, tagged);
    }
  }

  lemma {:induction false} ValEncodesWhenItFits(f: Field, v: Val)
    requires WfField(f) && ShapedVal(f, v)
    ensures EncVal(f, v).Some? <==> FitsVal(f, v)
    decreases v
  {
    if f.ltype == Submessage {
      FieldsEncodeWhenTheyFit(f.sub, v.slots, 0);
    }
  }

  lemma {:induction false} FieldEncodesWhenItFits(f: Field, s: Slot)
    requires WfField(f) && ShapedSlot(f, s)
    ensures EncField(f, s).Some? <==> FitsSlot(f, s)
    decreases s
  {
    hide EncVal, FitsVal, WfField, ShapedVal, ProtoDefaultVal;
    match s
    case Plain(v) => ValEncodesWhenItFits(f, v);
    case Maybe(has, v) => ValEncodesWhenItFits(f, v);
    case OneOf(held) =>
      if held.Some? {
        ValEncodesWhenItFits(f, held.value);
      }
    case Many(items) =>
      ItemsEncodeWhenTheyFit(f, items, 0, true);
      ItemsEncodeWhenTheyFit(f, items, 0, false);
  }

  lemma {:induction false} FieldsEncodeWhenTheyFit(fields: seq<Field>, slots: seq<Slot>, k: nat)
    requires Wf(fields) && Shaped(fields, slots) && k <= |slots|
    ensures EncFrom(fields, slots, k).Some? <==> forall i: nat | k <= i < |slots| :: FitsSlot(fields[i], slots[i])
    decreases slots, |slots| - k
  {
    hide EncField, FitsSlot, WfField, ShapedSlot;
    if k < |slots| {
      FieldEncodesWhenItFits(fields[k], slots[k]);
      FieldsEncodeWhenTheyFit(fields, slots, k + 1);
    }
  }

  /** A message encodes exactly when every array and byte string in it respects its limit. */
  lemma EncodesExactlyWhenFits(fields: seq<Field>, slots: seq<Slot>)
    requires Wf(fields) && Shaped(fields, slots)
    ensures Enc(fields, slots).Some? <==> Fits(fields, slots)
  {
    FieldsEncodeWhenTheyFit(fields, slots, 0);
  }
}
