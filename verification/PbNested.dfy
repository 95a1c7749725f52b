/** What a field that occurs again does: a submessage is merged with what came before, an entry joins its
    array; and what a field that never occurs is left at. */
module PbNested {
  import opened Common
  import opened PbWire
  import opened PbSchema
  import opened PbEncode
  import opened PbDecode
  import opened PbMerge
  import opened PbRequired
  import opened PbRoundTrip

  // Submessages.

  /** An occurrence of a field with the payload: key, length, payload. */
  function Occurrence(f: Field, payload: seq<Byte>): (b: seq<Byte>)
    ensures |b| > 0
  {
    TagBytes(f.tag, WT_STRING) + Prefixed(payload)
  }

  /** However the payload is decoded, no zero tag ends it early. */
  ghost predicate NoZeroTag(fields: seq<Field>, payload: seq<Byte>) {
    forall slots: seq<Slot>, seen: set<nat> | |slots| == |fields| && Scan(fields, slots, seen, payload).Done? ::
      !Scan(fields, slots, seen, payload).zero
  }

  /** The struct a submessage's bytes are decoded into, and what that leaves there. */
  lemma OneOccurrence(fields: seq<Field>, slots: seq<Slot>, seen: set<nat>, i: nat, payload: seq<Byte>, t: seq<Byte>)
    requires Wf(fields) && i < |fields| == |slots| && |payload| < U32
    requires fields[i].ltype == Submessage && fields[i].htype in {Required, Optional}
    ensures var f := fields[i];
            var d := DecodeNoInit(f.sub, Into(f, Content(f, slots[i])), payload);
            Scan(fields, slots, seen, Occurrence(f, payload) + t) ==
            if d.Fail? then Broken
            else Scan(fields, Store(fields, slots, i, Holding(f, Sub(d.value))), See(fields, i, seen), t)
  {
    hide Into, DecodeNoInit, TagBytes, Prefixed, LengthPrefixed, Store, WfField, Step;
    var f := fields[i];
    assert WfField(f);
    SubKnown(f);
    KeyRoundTrip(fields, slots, seen, i, WT_STRING, Prefixed(payload) + t);
    PrefixedRoundTrip(payload, t);
    assert Occurrence(f, payload) + t == TagBytes(f.tag, WT_STRING) + (Prefixed(payload) + t);
  }

  lemma SubKnown(f: Field)
    requires WfField(f) && f.ltype == Submessage
    ensures f.hasSub
  {
  }

  /** A singular field that is present. */
  function Holding(f: Field, v: Val): Slot {
    if f.htype == Optional && f.HasFlag() then Maybe(true, v) else Plain(v)
  }

  /** Two payloads into one struct, one after the other, or both at once. */
  lemma PayloadsMerge(sub: seq<Field>, slots: seq<Slot>, x: seq<Byte>, y: seq<Byte>)
    requires |sub| == |slots| && DecodeNoInit(sub, slots, x).Got? && NoZeroTag(sub, x)
    requires DecodeNoInit(sub, DecodeNoInit(sub, slots, x).value, y).Got?
    ensures DecodeNoInit(sub, slots, x + y) == DecodeNoInit(sub, DecodeNoInit(sub, slots, x).value, y)
  {
    hide Scan, AllSeen;
    DecodingConcatenationMerges(sub, slots, x, y);
  }

  /** A required or optional submessage that occurs twice holds what one occurrence with both payloads would
      give: its fields are merged, none is lost. */
  lemma SubmessagesMerge(fields: seq<Field>, slots: seq<Slot>, seen: set<nat>, i: nat, x: seq<Byte>, y: seq<Byte>)
    requires Wf(fields) && i < |fields| == |slots| && |x| + |y| < U32
    requires fields[i].ltype == Submessage && fields[i].htype in {Required, Optional} && NoZeroTag(fields[i].sub, x)
    requires Scan(fields, slots, seen, Occurrence(fields[i], x) + Occurrence(fields[i], y)).Done?
    ensures Scan(fields, slots, seen, Occurrence(fields[i], x) + Occurrence(fields[i], y))
         == Scan(fields, slots, seen, Occurrence(fields[i], x + y))
  {
    hide Scan, DecodeNoInit, Into, Store, Step, WfField, NoZeroTag, Occurrence;
    var f := fields[i];
    var current := Into(f, Content(f, slots[i]));
    var dx := DecodeNoInit(f.sub, current, x);
    OneOccurrence(fields, slots, seen, i, x, Occurrence(f, y));
    var once := Store(fields, slots, i, Holding(f, Sub(dx.value)));
    OneOccurrence(fields, once, See(fields, i, seen), i, y, []);
    assert Occurrence(f, y) + [] == Occurrence(f, y);
    KeepsWhatItHolds(f, dx.value);
    var dy := DecodeNoInit(f.sub, dx.value, y);
    PayloadsMerge(f.sub, current, x, y);
    OneOccurrence(fields, slots, seen, i, x + y, []);
    assert Occurrence(f, x + y) + [] == Occurrence(f, x + y);
    StoredTwice(fields, slots, i, Holding(f, Sub(dx.value)), Holding(f, Sub(dy.value)));
    assert See(fields, i, See(fields, i, seen)) == See(fields, i, seen);
  }

  lemma KeepsWhatItHolds(f: Field, held: seq<Slot>)
    requires f.htype in {Required, Optional} && |held| == |f.sub|
    ensures Into(f, Content(f, Holding(f, Sub(held)))) == held
  {
  }

  lemma StoredTwice(fields: seq<Field>, slots: seq<Slot>, i: nat, a: Slot, b: Slot)
    requires i < |fields| == |slots|
    ensures Store(fields, Store(fields, slots, i, a), i, b) == Store(fields, slots, i, b)
  {
  }

  /** An occurrence of a repeated submessage is an entry of its own: its payload is decoded by itself, from the
      defaults, whatever the entries before it hold, and joins them at the end. */
  lemma EntriesJoin(fields: seq<Field>, slots: seq<Slot>, seen: set<nat>, i: nat, items: seq<Val>, x: seq<Byte>,
                    t: seq<Byte>)
    requires Wf(fields) && i < |fields| == |slots| && |x| < U32 && slots[i] == Many(items)
    requires fields[i].ltype == Submessage && fields[i].htype == Repeated
    ensures var d := Decode(fields[i].sub, x);
            Scan(fields, slots, seen, Occurrence(fields[i], x) + t) ==
            if |items| >= fields[i].arraySize || d.Fail? then Broken
            else Scan(fields, slots[i := Many(items + [Sub(d.value)])], seen, t)
  {
    hide DecodeNoInit, TagBytes, Prefixed, LengthPrefixed, WfField, Step;
    var f := fields[i];
    assert WfField(f);
    SubKnown(f);
    KeyRoundTrip(fields, slots, seen, i, WT_STRING, Prefixed(x) + t);
    PrefixedRoundTrip(x, t);
    assert Occurrence(f, x) + t == TagBytes(f.tag, WT_STRING) + (Prefixed(x) + t);
    var d := Decode(f.sub, x);
    if d.Got? {
      assert Store(fields, slots, i, Many(items + [Sub(d.value)])) == slots[i := Many(items + [Sub(d.value)])];
    }
  }

  /** What a submessage is merged into is what the struct holds, whether or not it says that it is there. */
  lemma FlagAside(fields: seq<Field>, slots: seq<Slot>, seen: set<nat>, i: nat, held: Val, x: seq<Byte>)
    requires Wf(fields) && i < |fields| == |slots| && |x| < U32 && slots[i] == Maybe(false, held)
    requires fields[i].ltype == Submessage && fields[i].htype == Optional
    ensures Scan(fields, slots, seen, Occurrence(fields[i], x))
         == Scan(fields, slots[i := Maybe(true, held)], seen, Occurrence(fields[i], x))
  {
    hide Scan, DecodeNoInit, Into, WfField, Step, Occurrence;
    var f := fields[i];
    var other := slots[i := Maybe(true, held)];
    OneOccurrence(fields, slots, seen, i, x, []);
    OneOccurrence(fields, other, seen, i, x, []);
    assert Occurrence(f, x) + [] == Occurrence(f, x);
    var d := DecodeNoInit(f.sub, Into(f, held), x);
    if d.Got? {
      var slot := Holding(f, Sub(d.value));
      assert Store(fields, slots, i, slot) == Store(fields, other, i, slot);
    }
  }

  // Arrays.

  /** An entry under a key of its own joins its array at the end, if there is room. */
  lemma EntryJoins(fields: seq<Field>, slots: seq<Slot>, seen: set<nat>, i: nat, items: seq<Val>, v: Val, b: seq<Byte>,
                   t: seq<Byte>)
    requires Wf(fields) && i < |fields| == |slots| && slots[i] == Many(items) && fields[i].htype == Repeated
    requires ShapedVal(fields[i], v) && TerminatedVal(fields[i], v) && Tagged(fields[i], v) == Some(b) && |b| < U32
    ensures Scan(fields, slots, seen, b + t) ==
            if |items| >= fields[i].arraySize then Broken
            else Scan(fields, slots[i := Many(items + [NormalVal(fields[i], v)])], seen, t)
  {
    hide DecVal, TagBytes, WfField, Step, EncVal, NormalVal, TerminatedVal, ShapedVal;
    var f := fields[i];
    assert WfField(f);
    var e := EncVal(f, v).value;
    KeyRoundTrip(fields, slots, seen, i, WireType(f.ltype), e + t);
    StartsAfresh(f, slots[i]);
    ValRoundTrip(f, v, e, Content(f, slots[i]), t);
    assert b + t == TagBytes(f.tag, WireType(f.ltype)) + (e + t);
    var more := Many(items + [NormalVal(f, v)]);
    assert Store(fields, slots, i, more) == slots[i := more];
  }

  lemma StartsAfresh(f: Field, slot: Slot)
    requires f.htype == Repeated
    ensures Into(f, Content(f, slot)) == Defaults(f.sub)
  {
  }

  /** The entries of a packed occurrence join those held before; one too many is an error. */
  lemma PackedJoins(fields: seq<Field>, slots: seq<Slot>, seen: set<nat>, i: nat, items: seq<Val>, more: seq<Val>,
                    data: seq<Byte>, t: seq<Byte>)
    requires Wf(fields) && i < |fields| == |slots| && slots[i] == Many(items) && |data| < U32
    requires fields[i].htype == Repeated && Packable(fields[i].ltype)
    requires forall j: nat | j < |more| :: ShapedVal(fields[i], more[j])
    requires EncItems(fields[i], more, 0, false) == Some(data)
    ensures Scan(fields, slots, seen, Occurrence(fields[i], data) + t) ==
            if more == [] || |items| + |more| <= fields[i].arraySize
            then Scan(fields, slots[i := Many(items + more)], seen, t) else Broken
  {
    hide DecPacked, DecVal, TagBytes, Prefixed, LengthPrefixed, WfField, Step, EncItems, ShapedVal;
    var f := fields[i];
    assert WfField(f);
    KeyRoundTrip(fields, slots, seen, i, WT_STRING, Prefixed(data) + t);
    PrefixedRoundTrip(data, t);
    assert Occurrence(f, data) + t == TagBytes(f.tag, WT_STRING) + (Prefixed(data) + t);
    PackedOnto(f, items, more, 0, data);
    assert items + more[..0] == items;
    assert Store(fields, slots, i, Many(items + more)) == slots[i := Many(items + more)];
  }

  lemma {:induction false} PackedOnto(f: Field, items: seq<Val>, more: seq<Val>, k: nat, b: seq<Byte>)
    requires WfField(f) && Packable(f.ltype) && k <= |more|
    requires forall i: nat | i < |more| :: ShapedVal(f, more[i])
    requires EncItems(f, more, k, false) == Some(b) && |b| < U32
    ensures DecPacked(f, b, items + more[..k]) ==
            if k == |more| || |items| + |more| <= f.arraySize then Got(items + more, []) else Fail
    decreases |more| - k
  {
    hide EncVal, DecVal, WfField, ShapedVal, TerminatedVal, NormalVal;
    if k == |more| {
      assert more[..k] == more;
    } else {
      var v := EncVal(f, more[k]).value;
      var t := EncItems(f, more, k + 1, false).value;
      PackableAsIs(f, more[k]);
      ValRoundTrip(f, more[k], v, Zero(f), t);
      NonEmptyVal(f, more[k]);
      assert b == v + t && b != [];
      PackedOnto(f, items, more, k + 1, t);
      assert items + more[..k] + [more[k]] == items + more[..k + 1];
    }
  }

  lemma NonEmptyVal(f: Field, v: Val)
    requires Packable(f.ltype) && ShapedVal(f, v) && EncVal(f, v).Some?
    ensures EncVal(f, v).value != []
  {
  }

  // Fields that do not occur.

  /** Fields whose occurrence touches field `i`: itself, and those of its oneof. */
  predicate Touches(fields: seq<Field>, j: nat, i: nat)
    requires j < |fields| && i < |fields|
  {
    j == i || (fields[j].htype == Oneof && fields[i].htype == Oneof && fields[j].choice == fields[i].choice)
  }

  /** The input never names a field that touches field `i`. */
  ghost predicate NeverNamed(fields: seq<Field>, slots: seq<Slot>, s: seq<Byte>, i: nat)
    requires i < |fields| == |slots|
  {
    forall j: nat, n: nat | j < |fields| && Touches(fields, j, i) :: !OccursAt(fields, slots, s, fields[j].tag, n)
  }

  /** What is not named is not touched. */
  lemma {:induction false} UntouchedStays(fields: seq<Field>, slots: seq<Slot>, seen: set<nat>, s: seq<Byte>, i: nat)
    requires Wf(fields) && i < |fields| == |slots|
    requires Scan(fields, slots, seen, s).Done? && NeverNamed(fields, slots, s, i)
    ensures Scan(fields, slots, seen, s).slots[i] == slots[i]
    decreases |s|
  {
    hide Step, WfField, OccursAt, Touches;
    if s != [] {
      StepMarks(fields, slots, seen, s);
      var r := Step(fields, slots, seen, s);
      if r.Next? {
        StepLeaves(fields, slots, seen, s, i);
        forall j: nat, n: nat | j < |fields| && Touches(fields, j, i)
          ensures !OccursAt(fields, r.slots, r.rest, fields[j].tag, n)
        {
          assert !OccursAt(fields, slots, s, fields[j].tag, n + 1);
          OccursLater(fields, slots, s, fields[j].tag, n);
        }
        UntouchedStays(fields, r.slots, r.seen, r.rest, i);
      }
    }
  }

  lemma OccursLater(fields: seq<Field>, slots: seq<Slot>, s: seq<Byte>, tag: nat, n: nat)
    requires |fields| == |slots| && s != [] && Step(fields, slots, {}, s).Next?
    ensures var e := Step(fields, slots, {}, s);
            OccursAt(fields, e.slots, e.rest, tag, n) == OccursAt(fields, slots, s, tag, n + 1)
  {
    hide Step, ReadVarint32;
  }

  lemma StepLeaves(fields: seq<Field>, slots: seq<Slot>, seen: set<nat>, s: seq<Byte>, i: nat)
    requires Wf(fields) && i < |fields| == |slots| && Step(fields, slots, seen, s).Next?
    requires NeverNamed(fields, slots, s, i)
    ensures Step(fields, slots, seen, s).slots[i] == slots[i]
  {
    hide ReadVarint32, DecSlot, Skip, WfField;
    var r := ReadVarint32(s);
    assert Step(fields, slots, seen, s) == Record(fields, slots, seen, r.value / 8, r.value % 8, r.rest);
    var j := Find(fields, r.value / 8);
    if j < |fields| {
      assert OccursAt(fields, slots, s, fields[j].tag, 0);
      assert !Touches(fields, j, i);
    }
  }

  /** A declared default, or else zero, no bytes, or a submessage left at its defaults. */
  predicate DefaultContent(f: Field, v: Val)
    decreases f, 0
  {
    if f.ltype == Submessage then
      && v.Sub? && |v.slots| == |f.sub|
      && forall i: nat | i < |f.sub| :: LeftAtDefault(f.sub[i], v.slots[i])
    else if f.default.Some? then v == f.default.value
    else if f.ltype in {Varint, UVarint, SVarint} then v == Int(0)
    else if f.ltype in {Fixed32, Fixed64} then v == Fixed(0)
    else if f.ltype == FixedLengthBytes then
      v.Blob? && |v.bytes| == f.dataSize && forall i: nat | i < |v.bytes| :: v.bytes[i] == 0
    else v == Blob([])
  }

  /** No entries; no member; absent, if the field has a presence flag; and its default. */
  predicate LeftAtDefault(f: Field, slot: Slot)
    decreases f, 1
  {
    match f.htype
    case Repeated => slot == Many([])
    case Oneof => slot == OneOf(None)
    case Optional =>
      if f.HasFlag() then slot.Maybe? && !slot.has && DefaultContent(f, slot.value)
      else slot.Plain? && DefaultContent(f, slot.v)
    case Required => slot.Plain? && DefaultContent(f, slot.v)
  }

  /** What a field that the input never names is decoded to. */
  lemma AbsentTakesDefault(fields: seq<Field>, s: seq<Byte>, i: nat)
    requires Wf(fields) && i < |fields| && Decode(fields, s).Got?
    requires NeverNamed(fields, Defaults(fields), s, i)
    ensures LeftAtDefault(fields[i], Decode(fields, s).value[i])
  {
    hide Scan, WfField, NeverNamed, LeftAtDefault;
    UntouchedStays(fields, Defaults(fields), {}, s, i);
    assert WfField(fields[i]);
    DefaultIs(fields[i]);
  }

  lemma {:induction false} DefaultIs(f: Field)
    requires WfField(f)
    ensures LeftAtDefault(f, DefaultSlot(f))
    decreases f
  {
    hide HeldVal;
    if f.ltype == Submessage {
      forall i: nat | i < |f.sub|
        ensures LeftAtDefault(f.sub[i], Defaults(f.sub)[i])
      {
        assert WfField(f.sub[i]);
        DefaultIs(f.sub[i]);
      }
    }
  }

  // Inputs no encoder writes.

  /** The wire types that are not in use cannot be skipped. */
  lemma OddWireTypes(fields: seq<Field>, slots: seq<Slot>, seen: set<nat>, tag: nat, wireType: nat, t: seq<Byte>)
    requires |fields| == |slots| && 0 < tag < TAG_LIMIT && wireType in {3, 4, 6, 7}
    requires forall i: nat | i < |fields| :: fields[i].tag != tag
    ensures Scan(fields, slots, seen, TagBytes(tag, wireType) + t) == Broken
  {
    hide ReadVarint32, Find, DecSlot;
    Varint32RoundTrip(tag * 8 + wireType, t);
    assert Find(fields, tag) == |fields|;
    assert Step(fields, slots, seen, TagBytes(tag, wireType) + t) == Record(fields, slots, seen, tag, wireType, t);
  }

  /** The decoder does not look at the wire type of a field it knows, but to tell a packed array. */
  lemma AnyWireType(fields: seq<Field>, slots: seq<Slot>, seen: set<nat>, i: nat, w: nat, x: nat, t: seq<Byte>)
    requires Wf(fields) && i < |fields| == |slots| && w < 8 && x < 8
    requires fields[i].htype == Repeated && Packable(fields[i].ltype) ==> w != 2 && x != 2
    ensures Scan(fields, slots, seen, TagBytes(fields[i].tag, w) + t)
         == Scan(fields, slots, seen, TagBytes(fields[i].tag, x) + t)
  {
    hide TagBytes, Step, DecVal, PackedField, Store, WfField;
    KeyRoundTrip(fields, slots, seen, i, w, t);
    KeyRoundTrip(fields, slots, seen, i, x, t);
  }

  /** A zero tag ends a message, and what follows is left unread. */
  lemma ZeroTagEnds(fields: seq<Field>, slots: seq<Slot>, seen: set<nat>, t: seq<Byte>)
    requires |fields| == |slots|
    ensures Scan(fields, slots, seen, [0] + t) == Done(slots, seen, t, true)
  {
    assert ([0] + t)[1..] == t;
  }

  /** A negative number that was cut to 32 bits before it was written, as a five-byte varint, reads back like
      the ten-byte one: only the low 32 bits count for a field of up to 32 bits. */
  lemma ShortNegatives(f: Field, v: int, current: Val, t: seq<Byte>)
    requires f.ltype == Varint && f.dataSize in {1, 2, 4} && v < 0 && InSigned(v, f.dataSize)
    ensures DecVal(f, VarintBytes(v + U32) + t, current) == Got(Int(v), t)
    ensures DecVal(f, VarintBytes(v + U64) + t, current) == Got(Int(v), t)
  {
    hide ReadVarint, VarintBytes, StoredInt;
    VarintRoundTrip(v + U32, t);
    VarintRoundTrip(v + U64, t);
    StoredShort(f, v);
  }

  lemma StoredShort(f: Field, v: int)
    requires f.ltype == Varint && f.dataSize in {1, 2, 4} && v < 0 && InSigned(v, f.dataSize)
    ensures StoredInt(f, v + U32) == Some(v) && StoredInt(f, v + U64) == Some(v)
  {
  }

  /** A varint too large for its field is an error, and so is one that is too small. */
  lemma OutOfRange(f: Field, n: nat, current: Val, t: seq<Byte>)
    requires f.ltype in {Varint, UVarint, SVarint} && f.dataSize in {1, 2, 4, 8} && n < U64
    ensures var d := DecVal(f, VarintBytes(n) + t, current);
            && (f.ltype == UVarint ==> (d.Got? <==> f.dataSize == 8 || n < Pow256(f.dataSize)))
            && (f.ltype == SVarint ==> (d.Got? <==> f.dataSize == 8 || n < Pow256(f.dataSize)))
            && (f.ltype == Varint && f.dataSize >= 4 ==> d.Got?)
            && (d.Got? && f.ltype == Varint ==> d.value.Int? && (d.value.n - n) % U32 == 0)
  {
    hide ReadVarint, VarintBytes, StoredInt, Pow256;
    VarintRoundTrip(n, t);
    match f.ltype
    case UVarint => UnsignedFits(f, n);
    case SVarint => ZigZagFits(f, n);
    case Varint => SignedFits(f, n);
  }

  lemma UnsignedFits(f: Field, n: nat)
    requires f.ltype == UVarint && f.dataSize in {1, 2, 4, 8} && n < U64
    ensures StoredInt(f, n).Some? <==> f.dataSize == 8 || n < Pow256(f.dataSize)
  {
    hide UnZigZag, Signed64, Signed32, Pow256;
    Powers();
  }

  lemma ZigZagFits(f: Field, n: nat)
    requires f.ltype == SVarint && f.dataSize in {1, 2, 4, 8} && n < U64
    ensures StoredInt(f, n).Some? <==> f.dataSize == 8 || n < Pow256(f.dataSize)
  {
    hide UnZigZag, Signed64, Signed32, Pow256;
    Powers();
    UnZigZagValue(n);
  }

  lemma SignedFits(f: Field, n: nat)
    requires f.ltype == Varint && f.dataSize in {1, 2, 4, 8} && n < U64
    ensures f.dataSize >= 4 ==> StoredInt(f, n).Some?
    ensures StoredInt(f, n).Some? ==> (StoredInt(f, n).value - n) % U32 == 0
  {
    hide UnZigZag, InUnsigned, Pow256;
  }

  lemma Powers()
    ensures Pow256(1) == 0x100 && Pow256(2) == 0x1_0000 && Pow256(4) == U32
  {
    assert Pow256(0) == 1 && Pow256(3) == 256 * Pow256(2);
  }

  /** Byte arrays of fixed length are written whole or, as nothing at all, as zeros; any other length fails. */
  lemma FixedBytesWhole(f: Field, b: seq<Byte>, current: Val, t: seq<Byte>)
    requires f.ltype == FixedLengthBytes && |b| < U32
    ensures DecVal(f, Prefixed(b) + t, current) ==
            if b == [] then Got(Blob(seq(f.dataSize, _ => 0)), t)
            else if |b| == f.dataSize then Got(Blob(b), t) else Fail
  {
    hide LengthPrefixed, Prefixed;
    PrefixedRoundTrip(b, t);
  }

  /** A string ends at its first zero byte, although the bytes behind it have to fit too. */
  lemma StringsEndAtZero(f: Field, a: seq<Byte>, b: seq<Byte>, current: Val, t: seq<Byte>)
    requires f.ltype == String && 0 !in a && |a| + 1 + |b| < U32 - 1
    ensures DecVal(f, Prefixed(a + [0] + b) + t, current) ==
            if |a| + 1 + |b| < f.dataSize then Got(Blob(a), t) else Fail
  {
    hide LengthPrefixed, Prefixed;
    PrefixedRoundTrip(a + [0] + b, t);
    EndsAtZero(a, b);
  }

  lemma {:induction false} EndsAtZero(a: seq<Byte>, b: seq<Byte>)
    requires 0 !in a
    ensures UpToZero(a + [0] + b) == a
  {
    if a != [] {
      assert (a + [0] + b)[1..] == a[1..] + [0] + b;
      EndsAtZero(a[1..], b);
    }
  }
}
