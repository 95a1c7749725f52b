/** Readers and writers of different versions: what a field is written as is skipped by a descriptor that
    does not have it, so an older reader decodes what a newer writer encodes to the fields both have. */
module PbSkew {
  import opened Common
  import opened PbWire
  import opened PbSchema
  import opened PbEncode
  import opened PbDecode
  import opened PbMerge
  import opened PbRequired
  import opened PbRoundTrip
  import opened PbFormat

  // Values.

  lemma {:induction false} SkipVarintBytes(n: nat, t: seq<Byte>)
    ensures SkipVarint(VarintBytes(n) + t) == Got((), t)
    decreases n
  {
    if n > 0x7f {
      SkipVarintBytes(n / 0x80, t);
      assert (VarintBytes(n) + t)[1..] == VarintBytes(n / 0x80) + t;
    } else {
      assert (VarintBytes(n) + t)[1..] == t;
    }
  }

  lemma SkipFixed(n: nat, width: nat, t: seq<Byte>)
    ensures Take(LittleEndian(n, width) + t, width) == Got(LittleEndian(n, width), t)
  {
    var b := LittleEndian(n, width);
    assert (b + t)[..width] == b && (b + t)[width..] == t;
  }

  /** A value is skipped whole by its wire type. */
  lemma ValSkipped(f: Field, v: Val, b: seq<Byte>, t: seq<Byte>)
    requires ShapedVal(f, v) && EncVal(f, v) == Some(b) && |b| < U32
    ensures Skip(WireType(f.ltype), b + t) == Got((), t)
  {
    hide VarintBytes, LittleEndian, SkipVarint, Take, LengthPrefixed, EncFrom;
    match f.ltype
    case Varint => SkipVarintBytes(Unsigned64(v.n), t);
    case UVarint => SkipVarintBytes(v.n, t);
    case SVarint => SkipVarintBytes(ZigZag(v.n), t);
    case Fixed32 => SkipFixed(v.bits, 4, t);
    case Fixed64 => SkipFixed(v.bits, 8, t);
    case Submessage =>
      var inner := EncFrom(f.sub, v.slots, 0).value;
      PrefixedRoundTrip(inner, t);
    case Bytes => PrefixedRoundTrip(v.bytes, t);
    case String => PrefixedRoundTrip(v.bytes, t);
    case FixedLengthBytes => PrefixedRoundTrip(v.bytes, t);
    case Extension =>
  }

  // Fields.

  /** The descriptor has no field with the tag. */
  predicate Lacks(fields: seq<Field>, tag: nat) {
    forall i: nat | i < |fields| :: fields[i].tag != tag
  }

  lemma KeySkipped(fields: seq<Field>, slots: seq<Slot>, seen: set<nat>, tag: nat, wireType: nat, body: seq<Byte>,
                   t: seq<Byte>)
    requires |fields| == |slots| && 1 <= tag < TAG_LIMIT && wireType < 8 && Lacks(fields, tag)
    requires Skip(wireType, body + t) == Got((), t)
    ensures Scan(fields, slots, seen, TagBytes(tag, wireType) + body + t) == Scan(fields, slots, seen, t)
  {
    hide ReadVarint32, DecSlot, Skip, Find, TagBytes;
    var s := TagBytes(tag, wireType) + body + t;
    assert s == TagBytes(tag, wireType) + (body + t);
    KeyIs(tag, wireType, body + t);
    assert Find(fields, tag) == |fields|;
    assert Step(fields, slots, seen, s) == Record(fields, slots, seen, tag, wireType, body + t);
  }

  lemma KeyIs(tag: nat, wireType: nat, t: seq<Byte>)
    requires 1 <= tag < TAG_LIMIT && wireType < 8
    ensures ReadVarint32(TagBytes(tag, wireType) + t) == Got(tag * 8 + wireType, t)
    ensures (tag * 8 + wireType) / 8 == tag && (tag * 8 + wireType) % 8 == wireType
  {
    hide ReadVarint32;
    Varint32RoundTrip(tag * 8 + wireType, t);
  }

  lemma TaggedSkipped(fields: seq<Field>, slots: seq<Slot>, seen: set<nat>, f: Field, v: Val, b: seq<Byte>,
                      t: seq<Byte>)
    requires |fields| == |slots| && 1 <= f.tag < TAG_LIMIT && Lacks(fields, f.tag)
    requires ShapedVal(f, v) && Tagged(f, v) == Some(b) && |b| < U32
    ensures Scan(fields, slots, seen, b + t) == Scan(fields, slots, seen, t)
  {
    hide EncVal, Scan, TagBytes, Skip, Lacks;
    var body := EncVal(f, v).value;
    ValSkipped(f, v, body, t);
    KeySkipped(fields, slots, seen, f.tag, WireType(f.ltype), body, t);
  }

  lemma {:induction false} ItemsSkipped(fields: seq<Field>, slots: seq<Slot>, seen: set<nat>, f: Field,
                                        items: seq<Val>, k: nat, b: seq<Byte>, t: seq<Byte>)
    requires |fields| == |slots| && 1 <= f.tag < TAG_LIMIT && Lacks(fields, f.tag)
    requires k <= |items| && forall i: nat | i < |items| :: ShapedVal(f, items[i])
    requires EncItems(f, items, k, true) == Some(b) && |b| < U32
    ensures Scan(fields, slots, seen, b + t) == Scan(fields, slots, seen, t)
    decreases |items| - k
  {
    hide Tagged, Scan, ShapedVal, Lacks;
    if k == |items| {
      assert b + t == t;
    } else {
      var head, tail := Tagged(f, items[k]).value, EncItems(f, items, k + 1, true).value;
      assert b + t == head + (tail + t);
      TaggedSkipped(fields, slots, seen, f, items[k], head, tail + t);
      ItemsSkipped(fields, slots, seen, f, items, k + 1, tail, t);
    }
  }

  /** Whatever type a field is of and however often it occurs, a descriptor without its tag skips all that it is
      written as, and nothing more. */
  lemma FieldSkipped(fields: seq<Field>, slots: seq<Slot>, seen: set<nat>, f: Field, s: Slot, b: seq<Byte>,
                     t: seq<Byte>)
    requires |fields| == |slots| && 1 <= f.tag < TAG_LIMIT && Lacks(fields, f.tag)
    requires ShapedSlot(f, s) && EncField(f, s) == Some(b) && |b| < U32
    ensures Scan(fields, slots, seen, b + t) == Scan(fields, slots, seen, t)
  {
    hide Tagged, Scan, ShapedVal, Lacks, EncItems, ProtoDefaultVal, Prefixed, TagBytes, Skip;
    if b == [] {
      assert b + t == t;
    } else {
      match s
      case Plain(v) => TaggedSkipped(fields, slots, seen, f, v, b, t);
      case Maybe(has, v) => TaggedSkipped(fields, slots, seen, f, v, b, t);
      case OneOf(held) => TaggedSkipped(fields, slots, seen, f, held.value, b, t);
      case Many(items) =>
        if Packable(f.ltype) {
          var data := EncItems(f, items, 0, false).value;
          PackedSkipped(data, t);
          PrefixedLonger(data);
          KeySkipped(fields, slots, seen, f.tag, WT_STRING, Prefixed(data), t);
        } else {
          ItemsSkipped(fields, slots, seen, f, items, 0, b, t);
        }
    }
  }

  lemma PackedSkipped(data: seq<Byte>, t: seq<Byte>)
    requires |Prefixed(data)| < U32
    ensures Skip(2, Prefixed(data) + t) == Got((), t)
  {
    hide LengthPrefixed, VarintBytes;
    PrefixedRoundTrip(data, t);
  }

  // Messages.

  /** The fields from `k` on are ones the reader does not have. */
  lemma {:induction false} RestSkipped(known: seq<Field>, slots: seq<Slot>, seen: set<nat>, fields: seq<Field>,
                                       sent: seq<Slot>, k: nat, b: seq<Byte>)
    requires |known| == |slots| && Wf(fields) && Shaped(fields, sent) && k <= |sent|
    requires forall i: nat | k <= i < |fields| :: Lacks(known, fields[i].tag)
    requires EncFrom(fields, sent, k) == Some(b) && |b| < U32
    ensures Scan(known, slots, seen, b) == Done(slots, seen, [], false)
    decreases |sent| - k
  {
    hide EncField, Step, ShapedSlot, Lacks;
    if k < |sent| {
      var head, tail := EncField(fields[k], sent[k]).value, EncFrom(fields, sent, k + 1).value;
      assert WfField(fields[k]) && ShapedSlot(fields[k], sent[k]);
      FieldSkipped(known, slots, seen, fields[k], sent[k], head, tail);
      RestSkipped(known, slots, seen, fields, sent, k + 1, tail);
    }
  }

  /** The encoding of the first `m` fields comes first. */
  lemma {:induction false} EncodingSplits(fields: seq<Field>, slots: seq<Slot>, m: nat, k: nat)
    requires Shaped(fields, slots) && k <= m <= |slots| && EncFrom(fields, slots, k).Some?
    ensures Shaped(fields[..m], slots[..m]) && EncFrom(fields[..m], slots[..m], k).Some?
    ensures EncFrom(fields, slots, m).Some?
    ensures EncFrom(fields, slots, k).value
         == EncFrom(fields[..m], slots[..m], k).value + EncFrom(fields, slots, m).value
    decreases m - k
  {
    hide EncField, ShapedSlot;
    if k < m {
      EncodingSplits(fields, slots, m, k + 1);
    }
  }

  /** A descriptor to which fields have been added: a reader that knows only the first `m` decodes what a
      writer that knows all encodes, to those `m` fields, as if the others had not been there. */
  lemma OlderReaderDecodes(fields: seq<Field>, slots: seq<Slot>, m: nat, b: seq<Byte>)
    requires Wf(fields) && Shaped(fields, slots) && m <= |slots| && Enc(fields, slots) == Some(b) && |b| < U32
    requires Terminated(fields[..m], slots[..m])
    ensures Wf(fields[..m]) && Shaped(fields[..m], slots[..m])
    ensures Decode(fields[..m], b) == Got(Normal(fields[..m], slots[..m]), [])
  {
    hide EncFrom, Scan, NormalSlot, DefaultSlot, TerminatedSlot, ShapedSlot, WfField;
    hide RequiredBefore, Lacks, OneSelected;
    EncodingSplits(fields, slots, m, 0);
    var known, part := fields[..m], slots[..m];
    var first, rest := EncFrom(known, part, 0).value, EncFrom(fields, slots, m).value;
    assert Wf(known);
    FieldsRoundTrip(known, part, {}, 0, first);
    assert Part(known, part, 0) == Defaults(known);
    var r := Scan(known, Defaults(known), {}, first);
    ScanAppend(known, Defaults(known), {}, first, rest);
    NoneOfThem(fields, m);
    RestSkipped(known, r.slots, r.seen, fields, slots, m, rest);
  }

  lemma NoneOfThem(fields: seq<Field>, m: nat)
    requires Wf(fields) && m <= |fields|
    ensures forall i: nat | m <= i < |fields| :: Lacks(fields[..m], fields[i].tag)
  {
    hide WfField;
  }
}
