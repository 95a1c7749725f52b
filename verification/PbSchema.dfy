/** Message descriptors and message values. A descriptor lists a message's fields as nanopb's
    pb_field_t arrays do; a value is a tree of the same shape. */
module PbSchema {
  import opened Common
  import opened PbWire

  /** PB_SIZE_MAX with 32-bit field sizes, the configuration this repository builds. */
  const SIZE_MAX: nat := U32 - 1
  type PbSize = n: nat | n <= SIZE_MAX
  /** offsetof(pb_bytes_array_t, bytes). */
  const BYTES_HEADER: nat := 4
  const MAX_REQUIRED_FIELDS: nat := 64
  const TAG_LIMIT: nat := 0x2000_0000

  datatype LType =
    | Varint | UVarint | SVarint | Fixed32 | Fixed64
    | Bytes | String | Submessage | Extension | FixedLengthBytes

  datatype HType = Required | Optional | Repeated | Oneof

  datatype AType = Static | Pointer | Callback

  /** pb_field_t. `dataOffset` counts from the end of the previous member, `sizeOffset` from the
      member itself to its presence flag, count or selector, zero when it has none; `choice` names
      the oneof the field belongs to. `ptr` is a default value or a submessage descriptor. */
  datatype Field = Field(tag: PbSize, ltype: LType, htype: HType, atype: AType,
                         dataOffset: PbSize, sizeOffset: int, dataSize: PbSize, arraySize: PbSize,
                         choice: nat, default: Option<Val>, hasSub: bool, sub: seq<Field>)
  {
    /** Whether an optional field has its own presence flag (proto2) or not (proto3). */
    predicate HasFlag() {
      sizeOffset != 0
    }
  }

  datatype Val = Int(n: int) | Fixed(bits: nat) | Blob(bytes: seq<Byte>) | Sub(slots: seq<Slot>)

  /** What a struct holds for one field: a value, a value with its presence flag, the entries of an
      array, or a oneof member's value if it is the one selected. */
  datatype Slot = Plain(v: Val) | Maybe(has: bool, value: Val) | Many(items: seq<Val>) | OneOf(held: Option<Val>)

  predicate Packable(t: LType) {
    t == Varint || t == UVarint || t == SVarint || t == Fixed32 || t == Fixed64
  }

  /** The value is one a variable of `dataSize` bytes can hold. */
  predicate InSigned(n: int, dataSize: nat) {
    match dataSize
    case 1 => -0x80 <= n < 0x80
    case 2 => -0x8000 <= n < 0x8000
    case 4 => -0x8000_0000 <= n < 0x8000_0000
    case _ => -S63 <= n < S63
  }

  predicate InUnsigned(n: int, dataSize: nat) {
    match dataSize
    case 1 => 0 <= n < 0x100
    case 2 => 0 <= n < 0x1_0000
    case 4 => 0 <= n < U32
    case _ => 0 <= n < U64
  }

  /** The value is one a struct can hold that keeps to its descriptor: numbers in range, byte strings
      and arrays within their bounds, strings terminated, at most one member of a oneof selected. */
  predicate HeldVal(f: Field, v: Val)
    decreases v
  {
    match f.ltype
    case Varint => v.Int? && InSigned(v.n, f.dataSize) && f.dataSize in {1, 2, 4, 8}
    case SVarint => v.Int? && InSigned(v.n, f.dataSize) && f.dataSize in {1, 2, 4, 8}
    case UVarint => v.Int? && InUnsigned(v.n, f.dataSize) && f.dataSize in {1, 2, 4, 8}
    case Fixed32 => v.Fixed? && v.bits < U32
    case Fixed64 => v.Fixed? && v.bits < U64
    case Bytes => v.Blob? && |v.bytes| + BYTES_HEADER <= f.dataSize
    case String => v.Blob? && |v.bytes| < f.dataSize && 0 !in v.bytes
    case FixedLengthBytes => v.Blob? && |v.bytes| == f.dataSize
    case Submessage => v.Sub? && f.hasSub && Held(f.sub, v.slots)
    case Extension => false
  }

  predicate HeldSlot(f: Field, s: Slot)
    decreases s
  {
    match f.htype
    case Required => s.Plain? && HeldVal(f, s.v)
    case Optional =>
      if f.HasFlag() then s.Maybe? && HeldVal(f, s.value) else s.Plain? && HeldVal(f, s.v)
    case Repeated =>
      s.Many? && |s.items| <= f.arraySize && forall i: nat | i < |s.items| :: HeldVal(f, s.items[i])
    case Oneof => s.OneOf? && (s.held.Some? ==> HeldVal(f, s.held.value))
  }

  predicate Held(fields: seq<Field>, slots: seq<Slot>)
    decreases slots
  {
    && |fields| == |slots|
    && (forall i: nat | i < |fields| :: HeldSlot(fields[i], slots[i]))
    && OneSelected(fields, slots)
  }

  // Shape: the bounds a struct's memory cannot break whatever a caller stores there. Counts, sizes
  // and terminators may be wrong.

  predicate ShapedVal(f: Field, v: Val)
    decreases v
  {
    match f.ltype
    case Varint => v.Int? && InSigned(v.n, f.dataSize)
    case SVarint => v.Int? && InSigned(v.n, f.dataSize)
    case UVarint => v.Int? && InUnsigned(v.n, f.dataSize)
    case Fixed32 => v.Fixed? && v.bits < U32
    case Fixed64 => v.Fixed? && v.bits < U64
    case Bytes => v.Blob? && |v.bytes| <= SIZE_MAX
    case String => v.Blob? && |v.bytes| <= f.dataSize && 0 !in v.bytes
    case FixedLengthBytes => v.Blob? && |v.bytes| == f.dataSize
    case Submessage => v.Sub? && (f.hasSub ==> Shaped(f.sub, v.slots))
    case Extension => false
  }

  predicate ShapedSlot(f: Field, s: Slot)
    decreases s
  {
    match f.htype
    case Required => s.Plain? && ShapedVal(f, s.v)
    case Optional =>
      if f.HasFlag() then s.Maybe? && ShapedVal(f, s.value) else s.Plain? && ShapedVal(f, s.v)
    case Repeated =>
      s.Many? && |s.items| <= SIZE_MAX && forall i: nat | i < |s.items| :: ShapedVal(f, s.items[i])
    case Oneof => s.OneOf? && (s.held.Some? ==> ShapedVal(f, s.held.value))
  }

  /** At most one member of a oneof is selected. */
  predicate OneSelected(fields: seq<Field>, slots: seq<Slot>)
    requires |fields| == |slots|
  {
    forall i: nat, j: nat | i < j < |fields| && SameUnion(fields[i], fields[j]) ::
      !(slots[i].OneOf? && slots[i].held.Some? && slots[j].OneOf? && slots[j].held.Some?)
  }

  predicate SameUnion(f: Field, g: Field) {
    f.htype == Oneof && g.htype == Oneof && f.choice == g.choice
  }

  predicate Shaped(fields: seq<Field>, slots: seq<Slot>)
    decreases slots
  {
    && |fields| == |slots|
    && (forall i: nat | i < |fields| :: ShapedSlot(fields[i], slots[i]))
    && OneSelected(fields, slots)
  }

  /** Well-formed descriptors: statically allocated fields with distinct tags, no extensions, no
      repeated fields without a count. */
  predicate WfField(f: Field)
    decreases f
  {
    && 1 <= f.tag < TAG_LIMIT
    && f.ltype != Extension && f.atype == Static
    && (f.htype == Repeated || f.htype == Oneof ==> f.sizeOffset != 0)
    && (f.ltype == Varint || f.ltype == UVarint || f.ltype == SVarint ==> f.dataSize in {1, 2, 4, 8})
    && (f.ltype == Submessage ==> f.hasSub && Wf(f.sub))
    && (f.ltype == Bytes ==> f.dataSize >= BYTES_HEADER)
    && (f.ltype == String ==> f.dataSize > 0)
    && (f.default.Some? ==>
          (f.htype == Required || (f.htype == Optional && f.HasFlag())) && f.ltype != Submessage
          && HeldVal(f, f.default.value))
  }

  predicate Wf(fields: seq<Field>)
    decreases fields
  {
    && (forall i: nat | i < |fields| :: WfField(fields[i]))
    && (forall i: nat, j: nat | i < j < |fields| :: fields[i].tag != fields[j].tag)
  }

  // Defaults.

  function Zero(f: Field): Val {
    match f.ltype
    case Varint => Int(0)
    case UVarint => Int(0)
    case SVarint => Int(0)
    case Fixed32 => Fixed(0)
    case Fixed64 => Fixed(0)
    case FixedLengthBytes => Blob(seq(f.dataSize, _ => 0))
    case _ => Blob([])
  }

  /** The value pb_field_set_to_default leaves in a field's data. */
  function DefaultVal(f: Field): Val
    decreases f, 0
  {
    if f.ltype == Submessage then Sub(if f.hasSub then Defaults(f.sub) else [])
    else if f.default.Some? then f.default.value
    else Zero(f)
  }

  function DefaultSlot(f: Field): Slot
    decreases f, 1
  {
    match f.htype
    case Required => Plain(DefaultVal(f))
    case Optional => if f.HasFlag() then Maybe(false, DefaultVal(f)) else Plain(DefaultVal(f))
    case Repeated => Many([])
    case Oneof => OneOf(None)
  }

  /** pb_message_set_to_defaults. */
  function Defaults(fields: seq<Field>): (slots: seq<Slot>)
    ensures |slots| == |fields|
    ensures forall i: nat | i < |fields| :: slots[i] == DefaultSlot(fields[i])
    decreases fields
  {
    seq(|fields|, i requires 0 <= i < |fields| => DefaultSlot(fields[i]))
  }

  // The value a message has apart from what lies behind absent fields.

  function NormalVal(f: Field, v: Val): Val
    decreases v
  {
    if f.ltype == Submessage && v.Sub? && f.hasSub && |f.sub| == |v.slots|
    then Sub(Normal(f.sub, v.slots)) else v
  }

  function NormalSlot(f: Field, s: Slot): Slot
    decreases s
  {
    match s
    case Plain(v) => Plain(NormalVal(f, v))
    case Maybe(has, value) => Maybe(has, if has then NormalVal(f, value) else DefaultVal(f))
    case Many(items) => Many(seq(|items|, i requires 0 <= i < |items| => NormalVal(f, items[i])))
    case OneOf(held) => OneOf(if held.Some? then Some(NormalVal(f, held.value)) else None)
  }

  /** The same message with absent optional fields at their defaults, at every depth. */
  function Normal(fields: seq<Field>, slots: seq<Slot>): (n: seq<Slot>)
    requires |fields| == |slots|
    ensures |n| == |slots|
    ensures forall i: nat | i < |slots| :: n[i] == NormalSlot(fields[i], slots[i])
    decreases slots
  {
    seq(|slots|, i requires 0 <= i < |slots| => NormalSlot(fields[i], slots[i]))
  }

  /** pb_check_proto3_default_value: the field is left out of a proto3 message. */
  predicate ProtoDefault(f: Field, s: Slot)
    decreases s
  {
    match f.htype
    case Required => false
    case Repeated => s.Many? && s.items == []
    case Oneof => s.OneOf? && s.held.None?
    case Optional =>
      if f.HasFlag() then s.Maybe? && !s.has
      else s.Plain? && ProtoDefaultVal(f, s.v)
  }

  predicate ProtoDefaultVal(f: Field, v: Val)
    decreases v
  {
    match f.ltype
    case Bytes => v == Blob([])
    case String => v == Blob([])
    case FixedLengthBytes => f.dataSize == 0
    case Submessage =>
      v.Sub? && f.hasSub && |f.sub| == |v.slots|
      && forall i: nat | i < |v.slots| :: ProtoDefault(f.sub[i], v.slots[i])
    case _ => v == Int(0) || v == Fixed(0)
  }

  /** A proto3 field that is left out is at its default. */
  lemma {:induction false} ProtoDefaultIsDefault(f: Field, v: Val)
    requires WfField(f) && ShapedVal(f, v) && ProtoDefaultVal(f, v) && f.default.None?
    ensures NormalVal(f, v) == DefaultVal(f)
    decreases v
  {
    if f.ltype == Submessage {
      var fs := f.sub;
      forall i: nat | i < |fs|
        ensures NormalSlot(fs[i], v.slots[i]) == DefaultSlot(fs[i])
      {
        assert WfField(fs[i]) && ShapedSlot(fs[i], v.slots[i]) && ProtoDefault(fs[i], v.slots[i]);
        if fs[i].htype == Optional && !fs[i].HasFlag() {
          ProtoDefaultIsDefault(fs[i], v.slots[i].v);
        }
      }
      assert Normal(fs, v.slots) == Defaults(fs);
    }
  }
}
