/** pb_decode undoes pb_encode: for every well-formed descriptor and every message the encoder
    accepts, decoding its bytes yields the same message with absent fields at their defaults,
    exactly when every string that is written leaves room for its terminator. */
module PbRoundTrip {
  import opened Common
  import opened PbWire
  import opened PbSchema
  import opened PbEncode
  import opened PbDecode
  import opened PbMerge
  import opened PbRequired

  /** Every string that is written is shorter than its array. */
  predicate TerminatedVal(f: Field, v: Val)
    decreases v
  {
    match f.ltype
    case String => v.Blob? && |v.bytes| < f.dataSize
    case Submessage => v.Sub? && Terminated(f.sub, v.slots)
    case _ => true
  }

  predicate TerminatedSlot(f: Field, s: Slot)
    decreases s
  {
    match s
    case Plain(v) => (f.htype == Optional && ProtoDefaultVal(f, v)) || TerminatedVal(f, v)
    case Maybe(has, v) => has ==> TerminatedVal(f, v)
    case Many(items) => forall i: nat | i < |items| :: TerminatedVal(f, items[i])
    case OneOf(held) => held.Some? ==> TerminatedVal(f, held.value)
  }

  predicate Terminated(fields: seq<Field>, slots: seq<Slot>)
    decreases slots
  {
    |fields| == |slots| && forall i: nat | i < |slots| :: TerminatedSlot(fields[i], slots[i])
  }

  // One value.

  lemma PrefixedRoundTrip(b: seq<Byte>, t: seq<Byte>)
    requires |b| < U32
    ensures LengthPrefixed(Prefixed(b) + t) == Got(b, t)
  {
    hide ReadVarint32;
    Varint32RoundTrip(|b|, b + t);
    assert Prefixed(b) + t == VarintBytes(|b|) + (b + t);
    assert (b + t)[..|b|] == b && (b + t)[|b|..] == t;
  }

  lemma StoredIntRoundTrip(f: Field, v: int)
    requires f.ltype in {Varint, UVarint, SVarint} && IntSize(f.dataSize)
    requires if f.ltype == UVarint then InUnsigned(v, f.dataSize) else InSigned(v, f.dataSize)
    ensures f.ltype == Varint ==> StoredInt(f, Unsigned64(v)) == Some(v)
    ensures f.ltype == UVarint ==> v < U64 && StoredInt(f, v) == Some(v)
    ensures f.ltype == SVarint ==> StoredInt(f, ZigZag(v)) == Some(v)
  {
    if f.ltype == SVarint {
      ZigZagRoundTrip(v, 0);
    }
  }

  lemma IntRoundTrip(f: Field, v: Val, b: seq<Byte>, t: seq<Byte>)
    requires f.ltype in {Varint, UVarint, SVarint} && ShapedVal(f, v) && EncVal(f, v) == Some(b)
    ensures DecInt(f, b + t) == Got(v, t)
  {
    hide ReadVarint, StoredInt, ZigZag, Unsigned64;
    StoredIntRoundTrip(f, v.n);
    var n: nat := if f.ltype == Varint then Unsigned64(v.n) else if f.ltype == UVarint then v.n else ZigZag(v.n);
    VarintRoundTrip(n, t);
  }

  lemma FixedRoundTrip(width: nat, bits: nat, t: seq<Byte>)
    requires 0 < width && bits < Pow256(width)
    ensures DecFixed(width, LittleEndian(bits, width) + t) == Got(Fixed(bits), t)
  {
    var b := LittleEndian(bits, width);
    LittleEndianRoundTrip(bits, width);
    assert (b + t)[..width] == b && (b + t)[width..] == t;
  }

  lemma FixedWidths()
    ensures Pow256(4) == U32 && Pow256(8) == U64
  {
    assert Pow256(2) == 0x1_0000;
    assert Pow256(4) == U32;
    assert Pow256(6) == U32 * 0x1_0000;
  }

  lemma BlobRoundTrip(f: Field, v: Val, b: seq<Byte>, t: seq<Byte>)
    requires f.ltype in {Bytes, String, FixedLengthBytes} && WfField(f) && ShapedVal(f, v)
    requires EncVal(f, v) == Some(b) && |b| < U32
    ensures DecBlob(f, b + t) == if TerminatedVal(f, v) then Got(v, t) else Fail
  {
    hide LengthPrefixed;
    PrefixedRoundTrip(v.bytes, t);
    assert |b| == |VarintBytes(|v.bytes|)| + |v.bytes|;
    if f.ltype == FixedLengthBytes && v.bytes == [] {
      assert v.bytes == seq(f.dataSize, _ => 0);
    }
  }

  /** The decoder of a field undoes its encoder, into a destination at its default. */
  lemma {:induction false} ValRoundTrip(f: Field, v: Val, b: seq<Byte>, current: Val, t: seq<Byte>)
    requires WfField(f) && ShapedVal(f, v) && EncVal(f, v) == Some(b) && |b| < U32
    requires f.ltype == Submessage ==> Into(f, current) == Defaults(f.sub)
    ensures DecVal(f, b + t, current) == if TerminatedVal(f, v) then Got(NormalVal(f, v), t) else Fail
    decreases v, 0
  {
    hide DecInt, DecFixed, DecBlob, LengthPrefixed, Into, Scan;
    if f.ltype in {Varint, UVarint, SVarint} {
      IntRoundTrip(f, v, b, t);
    } else if f.ltype in {Bytes, String, FixedLengthBytes} {
      BlobRoundTrip(f, v, b, t);
    } else if f.ltype == Submessage {
      var inner := EncFrom(f.sub, v.slots, 0).value;
      PrefixedRoundTrip(inner, t);
      MessageRoundTrip(f.sub, v.slots, inner);
    } else {
      FixedWidths();
      FixedRoundTrip(if f.ltype == Fixed32 then 4 else 8, v.bits, t);
    }
  }

  // One field.

  /** The struct after the first `k` fields have been decoded. */
  function Part(fields: seq<Field>, slots: seq<Slot>, k: nat): (p: seq<Slot>)
    requires |fields| == |slots|
    ensures |p| == |slots|
    ensures forall i: nat | i < |slots| ::
              p[i] == if i < k then NormalSlot(fields[i], slots[i]) else DefaultSlot(fields[i])
  {
    seq(|slots|, i requires 0 <= i < |slots| =>
      if i < k then NormalSlot(fields[i], slots[i]) else DefaultSlot(fields[i]))
  }

  function See(fields: seq<Field>, k: nat, seen: set<nat>): set<nat>
    requires k < |fields|
  {
    if fields[k].htype == Required then seen + {k} else seen
  }

  /** The key of a field written with a wire type leads back to the field. */
  lemma KeyRoundTrip(fields: seq<Field>, slots: seq<Slot>, seen: set<nat>, k: nat, wireType: nat, t: seq<Byte>)
    requires Wf(fields) && k < |fields| == |slots| && wireType < 8
    ensures Step(fields, slots, seen, TagBytes(fields[k].tag, wireType) + t) ==
            match DecSlot(fields[k], wireType, t, slots[k])
            case Fail => Bad
            case Got(slot, rest) => Next(Store(fields, slots, k, slot), See(fields, k, seen), rest)
  {
    hide ReadVarint32, DecSlot, Store, Skip, Find;
    var tag := fields[k].tag;
    assert WfField(fields[k]);
    FindTag(fields, k);
    Varint32RoundTrip(tag * 8 + wireType, t);
    assert Step(fields, slots, seen, TagBytes(tag, wireType) + t) == Record(fields, slots, seen, tag, wireType, t);
  }

  /** A field written once: its tag and its value. */
  lemma TaggedRoundTrip(fields: seq<Field>, slots: seq<Slot>, seen: set<nat>, k: nat,
                        v: Val, b: seq<Byte>, t: seq<Byte>)
    requires Wf(fields) && k < |fields| == |slots|
    requires ShapedVal(fields[k], v) && Tagged(fields[k], v) == Some(b) && |b| < U32
    requires var f := fields[k];
             f.ltype == Submessage ==> Into(f, Content(f, slots[k])) == Defaults(f.sub)
    requires fields[k].htype == Repeated ==> !Packable(fields[k].ltype) && |Items(slots[k])| < fields[k].arraySize
    ensures var f := fields[k];
            var slot := match f.htype
                        case Required => Plain(NormalVal(f, v))
                        case Optional => if f.HasFlag() then Maybe(true, NormalVal(f, v)) else Plain(NormalVal(f, v))
                        case Repeated => Many(Items(slots[k]) + [NormalVal(f, v)])
                        case Oneof => OneOf(Some(NormalVal(f, v)));
            Scan(fields, slots, seen, b + t) ==
            if TerminatedVal(f, v) then Scan(fields, Store(fields, slots, k, slot), See(fields, k, seen), t) else Broken
    decreases v, 1
  {
    hide DecVal, EncVal, NormalVal, TerminatedVal, ShapedVal, Step, Store, Into, Content, TagBytes, WfField;
    var f := fields[k];
    var body := EncVal(f, v).value;
    var w := WireType(f.ltype);
    assert WfField(f);
    assert b + t == TagBytes(f.tag, w) + (body + t);
    KeyRoundTrip(fields, slots, seen, k, w, body + t);
    ValRoundTrip(f, v, body, Content(f, slots[k]), t);
    assert b + t != [];
  }

  lemma FreshContent(f: Field)
    requires WfField(f) && f.ltype == Submessage
    ensures Into(f, Content(f, DefaultSlot(f))) == Defaults(f.sub)
    ensures f.htype == Repeated ==> forall items :: Into(f, Content(f, Many(items))) == Defaults(f.sub)
  {
  }

  lemma {:induction false} PackedRoundTrip(f: Field, items: seq<Val>, k: nat, b: seq<Byte>)
    requires WfField(f) && Packable(f.ltype) && k <= |items| <= f.arraySize
    requires forall i: nat | i < |items| :: ShapedVal(f, items[i])
    requires EncItems(f, items, k, false) == Some(b) && |b| < U32
    ensures DecPacked(f, b, items[..k]) == Got(items, [])
    decreases items, 2, |items| - k
  {
    hide EncVal, DecVal, WfField, ShapedVal;
    if k == |items| {
      assert items[..k] == items;
    } else {
      var v := EncVal(f, items[k]).value;
      var t := EncItems(f, items, k + 1, false).value;
      PackableAsIs(f, items[k]);
      ValRoundTrip(f, items[k], v, Zero(f), t);
      assert b == v + t && b != [];
      PackedRoundTrip(f, items, k + 1, t);
      assert items[..k] + [items[k]] == items[..k + 1];
    }
  }

  lemma PackableAsIs(f: Field, v: Val)
    requires Packable(f.ltype) && ShapedVal(f, v)
    ensures TerminatedVal(f, v) && NormalVal(f, v) == v
  {
  }

  function NormalItems(f: Field, items: seq<Val>, k: nat): (r: seq<Val>)
    requires k <= |items|
    ensures |r| == k && forall i: nat | i < k :: r[i] == NormalVal(f, items[i])
  {
    seq(k, i requires 0 <= i < k => NormalVal(f, items[i]))
  }

  /** A repeated field written entry by entry. */
  lemma {:induction false} ItemsRoundTrip(fields: seq<Field>, slots: seq<Slot>, seen: set<nat>, k: nat,
                                          items: seq<Val>, j: nat, b: seq<Byte>, t: seq<Byte>)
    requires Wf(fields) && k < |fields| == |slots| && j <= |items| <= fields[k].arraySize
    requires fields[k].htype == Repeated && !Packable(fields[k].ltype)
    requires forall i: nat | i < |items| :: ShapedVal(fields[k], items[i])
    requires EncItems(fields[k], items, j, true) == Some(b) && |b| < U32
    requires slots[k] == Many(NormalItems(fields[k], items, j))
    ensures Scan(fields, slots, seen, b + t) ==
            if forall i: nat | j <= i < |items| :: TerminatedVal(fields[k], items[i])
            then Scan(fields, slots[k := Many(NormalItems(fields[k], items, |items|))], seen, t) else Broken
    decreases items, 2, |items| - j
  {
    hide EncVal, NormalVal, TerminatedVal, ShapedVal, Scan, Tagged, WfField, Into;
    var f := fields[k];
    assert WfField(f);
    if j == |items| {
      assert b + t == t;
      assert slots[k := slots[k]] == slots;
    } else {
      var v := Tagged(f, items[j]).value;
      var rest := EncItems(f, items, j + 1, true).value;
      if f.ltype == Submessage {
        FreshContent(f);
      }
      TaggedRoundTrip(fields, slots, seen, k, items[j], v, rest + t);
      assert b + t == v + (rest + t);
      var next := Many(NormalItems(f, items, j + 1));
      assert NormalItems(f, items, j) + [NormalVal(f, items[j])] == NormalItems(f, items, j + 1);
      assert Store(fields, slots, k, next) == slots[k := next];
      ItemsRoundTrip(fields, slots[k := next], seen, k, items, j + 1, rest, t);
      var last := Many(NormalItems(f, items, |items|));
      assert slots[k := next][k := last] == slots[k := last];
    }
  }

  /** Storing what field `k` decodes to extends the part decoded so far. */
  lemma PartStore(fields: seq<Field>, slots: seq<Slot>, k: nat)
    requires Shaped(fields, slots) && k < |slots|
    requires fields[k].htype == Oneof ==> slots[k].OneOf? && slots[k].held.Some?
    ensures Store(fields, Part(fields, slots, k), k, NormalSlot(fields[k], slots[k])) == Part(fields, slots, k + 1)
  {
    hide ShapedVal, NormalVal, DefaultVal;
    var p := Store(fields, Part(fields, slots, k), k, NormalSlot(fields[k], slots[k]));
    forall i: nat | i < |slots| && SameUnion(fields[k], fields[i]) && i != k
      ensures p[i] == Part(fields, slots, k + 1)[i]
    {
      assert ShapedSlot(fields[i], slots[i]) && ShapedSlot(fields[k], slots[k]);
      assert SameUnion(fields[i], fields[k]);
      if i < k {
        assert slots[i].held.None?;
      }
    }
  }

  lemma NoDefault(f: Field)
    requires WfField(f) && f.htype == Optional && !f.HasFlag()
    ensures f.default.None?
  {
  }

  lemma NonEmptyArray(f: Field, items: seq<Val>)
    requires forall i: nat | i < |items| :: ShapedVal(f, items[i])
    requires items != [] && EncArray(f, items).Some?
    ensures EncArray(f, items).value != []
  {
    hide EncVal, ShapedVal, TagBytes, Tagged;
    assert EncItems(f, items, 0, true) == Then(Tagged(f, items[0]), EncItems(f, items, 1, true));
  }

  /** A field that writes nothing is at its default. */
  lemma AbsentField(f: Field, s: Slot)
    requires WfField(f) && ShapedSlot(f, s) && EncField(f, s) == Some([])
    ensures NormalSlot(f, s) == DefaultSlot(f)
    ensures TerminatedSlot(f, s) && f.htype != Required
  {
    hide EncVal, DefaultVal, NormalVal, ProtoDefaultVal, ShapedVal, WfField, TagBytes, Prefixed;
    if s.Plain? {
      NoDefault(f);
      ProtoDefaultIsDefault(f, s.v);
    } else if s.Many? {
      if s.items != [] {
        NonEmptyArray(f, s.items);
      }
      assert NormalSlot(f, s).items == [];
    }
  }

  /** A singular field or oneof member that is written. */
  lemma PresentRoundTrip(fields: seq<Field>, slots: seq<Slot>, seen: set<nat>, k: nat, b: seq<Byte>, t: seq<Byte>)
    requires Wf(fields) && Shaped(fields, slots) && k < |slots| && fields[k].htype != Repeated
    requires EncField(fields[k], slots[k]) == Some(b) && 0 < |b| < U32
    ensures Scan(fields, Part(fields, slots, k), seen, b + t) ==
            if TerminatedSlot(fields[k], slots[k])
            then Scan(fields, Part(fields, slots, k + 1), See(fields, k, seen), t) else Broken
    decreases slots[k], 4
  {
    hide EncVal, NormalVal, TerminatedVal, ShapedVal, Scan, WfField, Into, Tagged, Store, ProtoDefaultVal, DefaultVal;
    var f := fields[k];
    assert WfField(f) && ShapedSlot(f, slots[k]);
    var v := match slots[k]
      case Plain(v) => v
      case Maybe(_, v) => v
      case OneOf(held) => held.value;
    if f.ltype == Submessage {
      FreshContent(f);
    }
    TaggedRoundTrip(fields, Part(fields, slots, k), seen, k, v, b, t);
    PartStore(fields, slots, k);
  }

  lemma RepeatedRoundTrip(fields: seq<Field>, slots: seq<Slot>, seen: set<nat>, k: nat, b: seq<Byte>, t: seq<Byte>)
    requires Wf(fields) && Shaped(fields, slots) && k < |slots| && fields[k].htype == Repeated
    requires EncField(fields[k], slots[k]) == Some(b) && 0 < |b| < U32
    ensures Scan(fields, Part(fields, slots, k), seen, b + t) ==
            if TerminatedSlot(fields[k], slots[k])
            then Scan(fields, Part(fields, slots, k + 1), seen, t) else Broken
    decreases slots[k], 4
  {
    hide EncVal, NormalVal, TerminatedVal, ShapedVal, Scan, WfField, Into, Tagged, Store, DecVal, TagBytes, Prefixed;
    var f := fields[k];
    assert WfField(f) && ShapedSlot(f, slots[k]);
    var items := slots[k].items;
    var part := Part(fields, slots, k);
    PartStore(fields, slots, k);
    assert NormalItems(f, items, |items|) == NormalSlot(f, slots[k]).items;
    assert NormalItems(f, items, 0) == [];
    if Packable(f.ltype) {
      PackedFieldRoundTrip(fields, part, seen, k, items, b, t);
    } else {
      ItemsRoundTrip(fields, part, seen, k, items, 0, b, t);
      assert Store(fields, part, k, NormalSlot(f, slots[k])) == part[k := NormalSlot(f, slots[k])];
    }
  }

  lemma PackedFieldRoundTrip(fields: seq<Field>, slots: seq<Slot>, seen: set<nat>, k: nat,
                    items: seq<Val>, b: seq<Byte>, t: seq<Byte>)
    requires Wf(fields) && k < |fields| == |slots| && fields[k].htype == Repeated && Packable(fields[k].ltype)
    requires forall i: nat | i < |items| :: ShapedVal(fields[k], items[i])
    requires EncArray(fields[k], items) == Some(b) && 0 < |b| < U32 && slots[k] == Many([])
    ensures Scan(fields, slots, seen, b + t) == Scan(fields, Store(fields, slots, k, Many(items)), seen, t)
    ensures TerminatedSlot(fields[k], Many(items)) && NormalItems(fields[k], items, |items|) == items
    decreases items, 3
  {
    hide EncVal, NormalVal, TerminatedVal, ShapedVal, Store, DecVal, TagBytes, Prefixed, Step, WfField;
    var f := fields[k];
    assert WfField(f);
    var data := EncItems(f, items, 0, false).value;
    forall i: nat | i < |items| ensures TerminatedVal(f, items[i]) && NormalVal(f, items[i]) == items[i] {
      PackableAsIs(f, items[i]);
    }
    assert b + t == TagBytes(f.tag, WT_STRING) + (Prefixed(data) + t);
    PrefixedLonger(data);
    KeyRoundTrip(fields, slots, seen, k, WT_STRING, Prefixed(data) + t);
    PrefixedRoundTrip(data, t);
    PackedRoundTrip(f, items, 0, data);
    assert items[..0] == [];
    assert b + t != [];
  }

  lemma PrefixedLonger(b: seq<Byte>)
    ensures |b| < |Prefixed(b)|
  {
  }

  // Whole messages.

  lemma {:induction false} FieldsRoundTrip(fields: seq<Field>, slots: seq<Slot>, seen: set<nat>, k: nat, b: seq<Byte>)
    requires Wf(fields) && Shaped(fields, slots) && k <= |slots|
    requires EncFrom(fields, slots, k) == Some(b) && |b| < U32
    ensures var r := Scan(fields, Part(fields, slots, k), seen, b);
            if forall i: nat | k <= i < |slots| :: TerminatedSlot(fields[i], slots[i]) then
              && r.Done? && r.slots == Normal(fields, slots) && r.rest == [] && !r.zero && seen <= r.seen
              && forall i: nat | k <= i < |slots| && fields[i].htype == Required :: i in r.seen
            else r.Broken?
    decreases slots, 5, |slots| - k
  {
    hide EncField, NormalSlot, DefaultSlot, TerminatedSlot, ShapedSlot, WfField, Step;
    if k == |slots| {
      assert Part(fields, slots, k) == Normal(fields, slots);
    } else {
      var head := EncField(fields[k], slots[k]).value;
      var tail := EncFrom(fields, slots, k + 1).value;
      FieldsRoundTrip(fields, slots, See(fields, k, seen), k + 1, tail);
      assert WfField(fields[k]) && ShapedSlot(fields[k], slots[k]);
      if head == [] {
        AbsentField(fields[k], slots[k]);
        assert Part(fields, slots, k) == Part(fields, slots, k + 1);
        assert b == tail;
      } else if fields[k].htype == Repeated {
        RepeatedRoundTrip(fields, slots, seen, k, head, tail);
      } else {
        PresentRoundTrip(fields, slots, seen, k, head, tail);
      }
    }
  }

  /** pb_decode of pb_encode's bytes: the same message with absent fields at their defaults, all
      bytes consumed, exactly when every string written is terminated within its array. */
  lemma MessageRoundTrip(fields: seq<Field>, slots: seq<Slot>, b: seq<Byte>)
    requires Wf(fields) && Shaped(fields, slots) && Enc(fields, slots) == Some(b) && |b| < U32
    ensures Decode(fields, b) == if Terminated(fields, slots) then Got(Normal(fields, slots), []) else Fail
    decreases slots, 6
  {
    hide EncFrom, Scan, NormalSlot, DefaultSlot, TerminatedSlot, ShapedSlot, WfField, RequiredBefore;
    FieldsRoundTrip(fields, slots, {}, 0, b);
    assert Part(fields, slots, 0) == Defaults(fields);
  }
}
