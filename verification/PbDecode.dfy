/** What nanopb's decoder makes of its input, as a function of the bytes and of the struct it
    decodes into. `Fail` and `Bad` are decoding errors, after which the struct is unspecified. A field that
    occurs again replaces what a scalar had, joins an array, and is merged into a submessage that is not a
    member of a oneof; a member of a oneof takes the place of the one before it. Unknown fields are skipped
    by their wire type, and a tag of zero ends the message. */
module PbDecode {
  import opened Common
  import opened PbWire
  import opened PbSchema
  import opened PbEncode

  /** pb_read of `n` bytes. */
  function Take(s: seq<Byte>, n: nat): (r: Read<seq<Byte>>)
    ensures r.Got? ==> |r.value| == n && s == r.value + r.rest
  {
    if |s| < n then Fail else Got(s[..n], s[n..])
  }

  /** pb_make_string_substream: the bytes of the substream and the bytes after it. */
  function LengthPrefixed(s: seq<Byte>): (r: Read<seq<Byte>>)
    ensures r.Got? ==> |r.value| < U32 && |r.value| + |r.rest| < |s|
  {
    match ReadVarint32(s)
    case Fail => Fail
    case Got(n, rest) => Take(rest, n)
  }

  function SkipVarint(s: seq<Byte>): (r: Read<()>)
    ensures r.Got? ==> |r.rest| < |s|
  {
    if s == [] then Fail else if s[0] >= 0x80 then SkipVarint(s[1..]) else Got((), s[1..])
  }

  function Forget<T>(r: Read<T>): Read<()> {
    match r
    case Fail => Fail
    case Got(_, rest) => Got((), rest)
  }

  /** pb_skip_field. */
  function Skip(wireType: nat, s: seq<Byte>): (r: Read<()>)
    ensures r.Got? ==> |r.rest| < |s|
  {
    if wireType == WT_VARINT then SkipVarint(s)
    else if wireType == WT_64BIT then Forget(Take(s, 8))
    else if wireType == WT_STRING then Forget(LengthPrefixed(s))
    else if wireType == WT_32BIT then Forget(Take(s, 4))
    else Fail
  }

  /** (int32_t)n. */
  function Signed32(n: nat): (v: int)
    ensures -0x8000_0000 <= v < 0x8000_0000
  {
    var low := n % U32;
    if low >= 0x8000_0000 then low - U32 else low
  }

  /** The value stored for a varint read by pb_dec_varint, pb_dec_uvarint or pb_dec_svarint; it
      must survive the cast to the field's width. */
  function StoredInt(f: Field, n: nat): (r: Option<int>)
    requires n < U64
  {
    var v :=
      if f.ltype == UVarint then n
      else if f.ltype == SVarint then UnZigZag(n)
      else if f.dataSize == 8 then Signed64(n)
      else Signed32(n);
    if IntSize(f.dataSize) && (if f.ltype == UVarint then InUnsigned(v, f.dataSize) else InSigned(v, f.dataSize))
    then Some(v) else None
  }

  /** The C string at the start of `b`. */
  function UpToZero(b: seq<Byte>): (r: seq<Byte>)
    ensures r <= b && 0 !in r && (0 !in b ==> r == b) && (|r| < |b| ==> b[|r|] == 0)
  {
    if b == [] || b[0] == 0 then [] else [b[0]] + UpToZero(b[1..])
  }

  function DecInt(f: Field, s: seq<Byte>): (r: Read<Val>)
    ensures r.Got? ==> |r.rest| < |s|
  {
    match ReadVarint(s)
    case Fail => Fail
    case Got(n, rest) =>
      var v := StoredInt(f, n);
      if v.Some? then Got(Int(v.value), rest) else Fail
  }

  function DecFixed(width: nat, s: seq<Byte>): (r: Read<Val>)
    requires width > 0
    ensures r.Got? ==> |r.rest| < |s|
  {
    match Take(s, width)
    case Fail => Fail
    case Got(b, rest) => Got(Fixed(FromLittleEndian(b)), rest)
  }

  /** pb_dec_bytes, pb_dec_string and pb_dec_fixed_length_bytes. The string's size plus one is
      computed on 32 bits. */
  function DecBlob(f: Field, s: seq<Byte>): (r: Read<Val>)
    ensures r.Got? ==> |r.rest| < |s|
  {
    match LengthPrefixed(s)
    case Fail => Fail
    case Got(b, rest) =>
      if f.ltype == Bytes then if |b| + BYTES_HEADER > f.dataSize then Fail else Got(Blob(b), rest)
      else if f.ltype == String then
        if |b| + 1 >= U32 || |b| + 1 > f.dataSize then Fail else Got(Blob(UpToZero(b)), rest)
      else if b == [] then Got(Blob(seq(f.dataSize, _ => 0)), rest)
      else if |b| != f.dataSize then Fail else Got(Blob(b), rest)
  }

  /** The struct a submessage is decoded into: array entries are set to defaults first, other
      fields keep what they hold. */
  function Into(f: Field, current: Val): (slots: seq<Slot>)
    ensures |slots| == |f.sub|
  {
    if f.htype != Repeated && current.Sub? && |current.slots| == |f.sub| then current.slots else Defaults(f.sub)
  }

  /** The field decoders. `current` is what the destination holds. */
  function DecVal(f: Field, s: seq<Byte>, current: Val): (r: Read<Val>)
    ensures r.Got? ==> |r.rest| < |s|
    decreases |s|, 0
  {
    match f.ltype
    case Varint => DecInt(f, s)
    case UVarint => DecInt(f, s)
    case SVarint => DecInt(f, s)
    case Fixed32 => DecFixed(4, s)
    case Fixed64 => DecFixed(8, s)
    case Bytes => DecBlob(f, s)
    case String => DecBlob(f, s)
    case FixedLengthBytes => DecBlob(f, s)
    case Extension => Fail
    case Submessage =>
      match LengthPrefixed(s)
      case Fail => Fail
      case Got(b, rest) =>
        if !f.hasSub then Fail
        else
          match DecodeNoInit(f.sub, Into(f, current), b)
          case Fail => Fail
          case Got(slots, _) => Got(Sub(slots), rest)
  }

  /** The loop over a packed array's substream. */
  function DecPacked(f: Field, s: seq<Byte>, items: seq<Val>): (r: Read<seq<Val>>)
    ensures r.Got? ==> |items| <= |r.value|
    decreases |s|, 1
  {
    if s == [] then Got(items, [])
    else if |items| >= f.arraySize then Fail
    else
      match DecVal(f, s, Zero(f))
      case Fail => Fail
      case Got(v, rest) => DecPacked(f, rest, items + [v])
  }

  function PackedField(f: Field, s: seq<Byte>, items: seq<Val>): (r: Read<seq<Val>>)
    ensures r.Got? ==> |r.rest| < |s|
    decreases |s|, 2
  {
    match LengthPrefixed(s)
    case Fail => Fail
    case Got(b, rest) =>
      match DecPacked(f, b, items)
      case Fail => Fail
      case Got(all, _) => Got(all, rest)
  }

  function Content(f: Field, slot: Slot): Val {
    match slot
    case Plain(v) => v
    case Maybe(_, v) => v
    case _ => DefaultVal(f)
  }

  function Items(slot: Slot): seq<Val> {
    if slot.Many? then slot.items else []
  }

  /** decode_static_field: what the field's struct members hold afterwards. */
  function DecSlot(f: Field, wireType: nat, s: seq<Byte>, slot: Slot): (r: Read<Slot>)
    ensures r.Got? ==> |r.rest| < |s|
    decreases |s|, 3
  {
    if f.htype == Repeated && wireType == WT_STRING && Packable(f.ltype) then
      match PackedField(f, s, Items(slot))
      case Fail => Fail
      case Got(items, rest) => Got(Many(items), rest)
    else if f.htype == Repeated && |Items(slot)| >= f.arraySize then Fail
    else
      match DecVal(f, s, Content(f, slot))
      case Fail => Fail
      case Got(v, rest) =>
        Got(match f.htype
            case Required => Plain(v)
            case Optional => if f.HasFlag() then Maybe(true, v) else Plain(v)
            case Repeated => Many(Items(slot) + [v])
            case Oneof => OneOf(Some(v)), rest)
  }

  /** Storing a oneof member deselects the others of its oneof. */
  function Store(fields: seq<Field>, slots: seq<Slot>, i: nat, slot: Slot): (r: seq<Slot>)
    requires i < |fields| == |slots|
    ensures |r| == |slots| && r[i] == slot
    ensures forall j: nat | j < |slots| && j != i ::
              r[j] == if SameUnion(fields[i], fields[j]) then OneOf(None) else slots[j]
  {
    seq(|slots|, j requires 0 <= j < |slots| =>
      if j == i then slot else if SameUnion(fields[i], fields[j]) then OneOf(None) else slots[j])
  }

  /** The first field with the tag, or the number of fields. */
  function Find(fields: seq<Field>, tag: nat): (i: nat)
    ensures i <= |fields|
    ensures i < |fields| ==> fields[i].tag == tag
    ensures forall j: nat | j < i :: fields[j].tag != tag
  {
    if fields == [] || fields[0].tag == tag then 0 else 1 + Find(fields[1..], tag)
  }

  /** One turn of pb_decode_noinit's loop: an error, the zero tag that ends a message, or a field
      handled. */
  datatype Stepped = Bad | End(after: seq<Byte>) | Next(slots: seq<Slot>, seen: set<nat>, rest: seq<Byte>)

  function Record(fields: seq<Field>, slots: seq<Slot>, seen: set<nat>,
                  tag: nat, wireType: nat, s: seq<Byte>): (r: Stepped)
    requires |fields| == |slots|
    ensures !r.End? && (r.Next? ==> |r.slots| == |slots| && |r.rest| < |s|)
    decreases |s|, 4
  {
    var i := Find(fields, tag);
    if i == |fields| then
      if fields == [] && tag == 0 then Bad
      else
        match Skip(wireType, s)
        case Fail => Bad
        case Got(_, rest) => Next(slots, seen, rest)
    else
      match DecSlot(fields[i], wireType, s, slots[i])
      case Fail => Bad
      case Got(slot, rest) =>
        Next(Store(fields, slots, i, slot), if fields[i].htype == Required then seen + {i} else seen, rest)
  }

  function Step(fields: seq<Field>, slots: seq<Slot>, seen: set<nat>, s: seq<Byte>): (r: Stepped)
    requires |fields| == |slots|
    ensures r.Next? ==> |r.slots| == |slots| && |r.rest| < |s|
    decreases |s|, 5
  {
    match ReadVarint32(s)
    case Fail => Bad
    case Got(key, rest) =>
      if key == 0 then End(rest) else Record(fields, slots, seen, key / 8, key % 8, rest)
  }

  /** The whole loop: the struct, the required fields seen, the bytes left and whether a zero tag
      ended it. */
  datatype Scanned = Broken | Done(slots: seq<Slot>, seen: set<nat>, rest: seq<Byte>, zero: bool)

  function Scan(fields: seq<Field>, slots: seq<Slot>, seen: set<nat>, s: seq<Byte>): (r: Scanned)
    requires |fields| == |slots|
    ensures r.Done? ==> |r.slots| == |slots| && (r.zero || r.rest == [])
    decreases |s|, 6
  {
    if s == [] then Done(slots, seen, [], false)
    else
      match Step(fields, slots, seen, s)
      case Bad => Broken
      case End(rest) => Done(slots, seen, rest, true)
      case Next(slots', seen', rest) => Scan(fields, slots', seen', rest)
  }

  /** required_field_index: the required fields before field `k`. */
  function RequiredBefore(fields: seq<Field>, k: nat): (n: nat)
    requires k <= |fields|
    ensures n <= k
  {
    if k == 0 then 0
    else RequiredBefore(fields, k - 1) + if fields[k - 1].htype == Required then 1 else 0
  }

  /** Only the first 64 required fields are checked for. */
  predicate Checked(fields: seq<Field>, i: nat) {
    i < |fields| && fields[i].htype == Required && RequiredBefore(fields, i) < MAX_REQUIRED_FIELDS
  }

  predicate AllSeen(fields: seq<Field>, seen: set<nat>) {
    forall i: nat | i < |fields| :: Checked(fields, i) ==> i in seen
  }

  /** pb_decode_noinit. */
  function DecodeNoInit(fields: seq<Field>, slots: seq<Slot>, s: seq<Byte>): (r: Read<seq<Slot>>)
    requires |fields| == |slots|
    ensures r.Got? ==> |r.value| == |slots|
    decreases |s|, 7
  {
    match Scan(fields, slots, {}, s)
    case Broken => Fail
    case Done(slots', seen, rest, _) => if AllSeen(fields, seen) then Got(slots', rest) else Fail
  }

  /** pb_decode. */
  function Decode(fields: seq<Field>, s: seq<Byte>): (r: Read<seq<Slot>>) {
    DecodeNoInit(fields, Defaults(fields), s)
  }
}
