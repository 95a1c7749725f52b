/** Whatever decodes can be encoded again: decoding keeps a struct within its descriptor's bounds,
    and what is within them encodes to bytes that decode. */
module PbReencode {
  import opened Common
  import opened PbWire
  import opened PbSchema
  import opened PbEncode
  import opened PbDecode
  import opened PbRoundTrip

  // Within bounds, a message can be encoded and read back.

  predicate SoundVal(f: Field, v: Val) {
    ShapedVal(f, v) && FitsVal(f, v) && TerminatedVal(f, v)
  }

  lemma {:induction false} HeldValIsSound(f: Field, v: Val)
    requires HeldVal(f, v)
    ensures SoundVal(f, v)
    decreases v
  {
    if f.ltype == Submessage {
      HeldIsSound(f.sub, v.slots);
    }
  }

  lemma {:induction false} HeldSlotIsSound(f: Field, s: Slot)
    requires HeldSlot(f, s)
    ensures ShapedSlot(f, s) && FitsSlot(f, s) && TerminatedSlot(f, s)
    decreases s
  {
    hide HeldVal, ShapedVal, FitsVal, TerminatedVal, ProtoDefaultVal;
    match s
    case Plain(v) => HeldValIsSound(f, v);
    case Maybe(_, v) => HeldValIsSound(f, v);
    case OneOf(held) =>
      if held.Some? {
        HeldValIsSound(f, held.value);
      }
    case Many(items) =>
      forall i: nat | i < |items| ensures SoundVal(f, items[i]) {
        HeldValIsSound(f, items[i]);
      }
      assert forall i: nat | i < |items| ::
          ShapedVal(f, items[i]) && FitsVal(f, items[i]) && TerminatedVal(f, items[i]);
  }

  lemma {:induction false} HeldIsSound(fields: seq<Field>, slots: seq<Slot>)
    requires Held(fields, slots)
    ensures Shaped(fields, slots) && Fits(fields, slots) && Terminated(fields, slots)
    decreases slots
  {
    hide HeldSlot, ShapedSlot, FitsSlot, TerminatedSlot;
    forall i: nat | i < |slots|
      ensures ShapedSlot(fields[i], slots[i]) && FitsSlot(fields[i], slots[i]) && TerminatedSlot(fields[i], slots[i])
    {
      assert HeldSlot(fields[i], slots[i]);
      HeldSlotIsSound(fields[i], slots[i]);
    }
  }

  // Defaults are within bounds.

  lemma {:induction false} DefaultValHeld(f: Field)
    requires WfField(f)
    ensures HeldVal(f, DefaultVal(f))
    decreases f, 0
  {
    if f.ltype == Submessage {
      DefaultsHeld(f.sub);
    }
  }

  lemma {:induction false} DefaultsHeld(fields: seq<Field>)
    requires Wf(fields)
    ensures Held(fields, Defaults(fields))
    decreases fields
  {
    hide DefaultVal, HeldVal;
    forall i: nat | i < |fields| ensures HeldSlot(fields[i], Defaults(fields)[i]) {
      assert WfField(fields[i]);
      DefaultValHeld(fields[i]);
    }
  }

  // Decoding keeps to the bounds.

  lemma {:induction false} LittleEndianBound(b: seq<Byte>)
    ensures FromLittleEndian(b) < Pow256(|b|)
  {
    if b != [] {
      LittleEndianBound(b[1..]);
    }
  }

  lemma FixedHeld(f: Field, s: seq<Byte>)
    requires f.ltype == Fixed32 || f.ltype == Fixed64
    ensures var r := DecFixed(if f.ltype == Fixed32 then 4 else 8, s); r.Got? ==> HeldVal(f, r.value)
  {
    hide FromLittleEndian, Pow256;
    FixedWidths();
    var r := Take(s, if f.ltype == Fixed32 then 4 else 8);
    if r.Got? {
      LittleEndianBound(r.value);
    }
  }

  lemma BlobHeld(f: Field, s: seq<Byte>)
    requires f.ltype in {Bytes, String, FixedLengthBytes}
    ensures var r := DecBlob(f, s); r.Got? ==> HeldVal(f, r.value)
  {
    hide LengthPrefixed, UpToZero;
  }

  lemma IntHeld(f: Field, s: seq<Byte>)
    requires f.ltype in {Varint, UVarint, SVarint}
    ensures var r := DecInt(f, s); r.Got? ==> HeldVal(f, r.value)
  {
    hide ReadVarint, UnZigZag, Signed64, Signed32;
  }

  lemma {:induction false} ValHeld(f: Field, s: seq<Byte>, current: Val)
    requires WfField(f) && (f.ltype == Submessage ==> HeldVal(f, current))
    ensures var r := DecVal(f, s, current); r.Got? ==> HeldVal(f, r.value)
    decreases |s|, 0
  {
    hide DecInt, DecFixed, DecBlob, LengthPrefixed, Scan;
    if f.ltype in {Varint, UVarint, SVarint} {
      IntHeld(f, s);
    } else if f.ltype in {Bytes, String, FixedLengthBytes} {
      BlobHeld(f, s);
    } else if f.ltype == Submessage {
      var b := LengthPrefixed(s);
      if b.Got? {
        DefaultsHeld(f.sub);
        ScanHeld(f.sub, Into(f, current), {}, b.value);
      }
    } else {
      FixedHeld(f, s);
    }
  }

  lemma {:induction false} PackedHeld(f: Field, s: seq<Byte>, items: seq<Val>)
    requires WfField(f) && Packable(f.ltype) && |items| <= f.arraySize
    requires forall i: nat | i < |items| :: HeldVal(f, items[i])
    ensures var r := DecPacked(f, s, items);
            r.Got? ==> |r.value| <= f.arraySize && forall i: nat | i < |r.value| :: HeldVal(f, r.value[i])
    decreases |s|, 1
  {
    hide DecVal, WfField, HeldVal;
    if s != [] && |items| < f.arraySize {
      ValHeld(f, s, Zero(f));
      var r := DecVal(f, s, Zero(f));
      if r.Got? {
        PackedHeld(f, r.rest, items + [r.value]);
      }
    }
  }

  lemma {:induction false} PackedFieldHeld(f: Field, s: seq<Byte>, items: seq<Val>)
    requires WfField(f) && Packable(f.ltype) && |items| <= f.arraySize
    requires forall i: nat | i < |items| :: HeldVal(f, items[i])
    ensures var r := PackedField(f, s, items);
            r.Got? ==> |r.value| <= f.arraySize && forall i: nat | i < |r.value| :: HeldVal(f, r.value[i])
    decreases |s|, 2
  {
    hide DecPacked, WfField, HeldVal, LengthPrefixed;
    var b := LengthPrefixed(s);
    if b.Got? {
      PackedHeld(f, b.value, items);
    }
  }

  lemma {:induction false} SlotHeld(f: Field, wireType: nat, s: seq<Byte>, slot: Slot)
    requires WfField(f) && HeldSlot(f, slot)
    ensures var r := DecSlot(f, wireType, s, slot); r.Got? ==> HeldSlot(f, r.value)
    decreases |s|, 3
  {
    hide DecVal, PackedField, WfField, HeldVal, DefaultVal;
    DefaultValHeld(f);
    if f.htype == Repeated && wireType == WT_STRING && Packable(f.ltype) {
      PackedFieldHeld(f, s, slot.items);
    } else {
      ValHeld(f, s, Content(f, slot));
    }
  }

  lemma StoreHeld(fields: seq<Field>, slots: seq<Slot>, i: nat, slot: Slot)
    requires Held(fields, slots) && i < |fields| && HeldSlot(fields[i], slot)
    ensures Held(fields, Store(fields, slots, i, slot))
  {
    hide HeldVal;
    var r := Store(fields, slots, i, slot);
    forall j: nat | j < |fields| ensures HeldSlot(fields[j], r[j]) {
      assert HeldSlot(fields[j], slots[j]);
    }
    forall j: nat, k: nat | j < k < |fields| && SameUnion(fields[j], fields[k])
      ensures !(r[j].OneOf? && r[j].held.Some? && r[k].OneOf? && r[k].held.Some?)
    {
      if j == i {
      } else if k == i {
        assert SameUnion(fields[i], fields[j]);
      }
    }
  }

  lemma {:induction false} ScanHeld(fields: seq<Field>, slots: seq<Slot>, seen: set<nat>, s: seq<Byte>)
    requires Wf(fields) && Held(fields, slots)
    ensures var r := Scan(fields, slots, seen, s); r.Done? ==> Held(fields, r.slots)
    decreases |s|, 4
  {
    hide DecSlot, Store, Skip, Find, ReadVarint32, WfField, HeldSlot, Held;
    HeldLength(fields, slots);
    if s != [] {
      var key := ReadVarint32(s);
      if key.Got? && key.value != 0 {
        var i := Find(fields, key.value / 8);
        var r := Record(fields, slots, seen, key.value / 8, key.value % 8, key.rest);
        assert Step(fields, slots, seen, s) == r;
        if r.Next? {
          if i < |fields| {
            HeldAt(fields, slots, i);
            SlotHeld(fields[i], key.value % 8, key.rest, slots[i]);
            StoreHeld(fields, slots, i, DecSlot(fields[i], key.value % 8, key.rest, slots[i]).value);
          }
          ScanHeld(fields, r.slots, r.seen, r.rest);
        }
      }
    }
  }

  lemma HeldLength(fields: seq<Field>, slots: seq<Slot>)
    requires Held(fields, slots)
    ensures |fields| == |slots|
  {
  }

  lemma HeldAt(fields: seq<Field>, slots: seq<Slot>, i: nat)
    requires Wf(fields) && Held(fields, slots) && i < |fields|
    ensures WfField(fields[i]) && HeldSlot(fields[i], slots[i])
  {
  }

  /** Decoding any input into a struct that is within its bounds leaves it within them. */
  lemma DecodingKeepsBounds(fields: seq<Field>, slots: seq<Slot>, s: seq<Byte>)
    requires Wf(fields) && Held(fields, slots) && DecodeNoInit(fields, slots, s).Got?
    ensures Held(fields, DecodeNoInit(fields, slots, s).value)
  {
    hide Held, Scan, Wf, RequiredBefore;
    ScanHeld(fields, slots, {}, s);
  }

  /** Whatever decodes, from any input, encodes again, and its encoding decodes to the same message
      with absent fields at their defaults. */
  lemma DecodedReencodes(fields: seq<Field>, s: seq<Byte>)
    requires Wf(fields) && Decode(fields, s).Got?
    ensures var m := Decode(fields, s).value;
            && Held(fields, m) && Shaped(fields, m) && Enc(fields, m).Some?
            && (|Enc(fields, m).value| < U32 ==>
                  Decode(fields, Enc(fields, m).value) == Got(Normal(fields, m), []))
  {
    hide Held, Wf, Enc, Shaped, Fits, Terminated, DecodeNoInit, Normal;
    var m := Decode(fields, s).value;
    DefaultsHeld(fields);
    DecodingKeepsBounds(fields, Defaults(fields), s);
    HeldIsSound(fields, m);
    EncodesExactlyWhenFits(fields, m);
    if |Enc(fields, m).value| < U32 {
      MessageRoundTrip(fields, m, Enc(fields, m).value);
    }
  }
}
