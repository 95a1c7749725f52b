/** Decoding one input after another. What a field decodes to depends on its own bytes only, so
    scanning `a + b` is scanning `a` and then `b`; from this come message merging, skipping of
    unknown fields and "last one wins". */
module PbMerge {
  import opened Common
  import opened PbWire
  import opened PbSchema
  import opened PbEncode
  import opened PbDecode

  /** The read made of `s` is made of `s + t` too, and leaves `t` behind. */
  predicate Extends<T(==)>(r: Read<T>, longer: Read<T>, t: seq<Byte>) {
    r.Got? ==> longer == Got(r.value, r.rest + t)
  }

  lemma {:induction false} ReadVarintFromExtends(s: seq<Byte>, bitpos: nat, result: nat, t: seq<Byte>)
    requires result < U64
    ensures Extends(ReadVarintFrom(s, bitpos, result), ReadVarintFrom(s + t, bitpos, result), t)
    decreases |s|
  {
    hide Shifted;
    if bitpos < 64 && s != [] {
      assert (s + t)[1..] == s[1..] + t;
      if s[0] >= 0x80 {
        ReadVarintFromExtends(s[1..], bitpos + 7, (result + Shifted(s[0] % 0x80, bitpos)) % U64, t);
      }
    }
  }

  lemma {:induction false} ReadVarint32FromExtends(s: seq<Byte>, bitpos: nat, result: nat, t: seq<Byte>)
    requires result < U32 && bitpos < 256
    ensures Extends(ReadVarint32From(s, bitpos, result), ReadVarint32From(s + t, bitpos, result), t)
    decreases |s|
  {
    hide OrShifted;
    if s != [] {
      assert (s + t)[1..] == s[1..] + t;
      if s[0] >= 0x80 && ReadVarint32From(s, bitpos, result).Got? {
        var next := if bitpos >= 32 then result else OrShifted(result, s[0] % 0x80, bitpos);
        ReadVarint32FromExtends(s[1..], (bitpos + 7) % 256, next, t);
      }
    }
  }

  lemma ReadVarint32Extends(s: seq<Byte>, t: seq<Byte>)
    ensures Extends(ReadVarint32(s), ReadVarint32(s + t), t)
  {
    hide ReadVarint32From;
    if s != [] {
      assert (s + t)[1..] == s[1..] + t;
      if s[0] >= 0x80 {
        ReadVarint32FromExtends(s[1..], 7, s[0] % 0x80, t);
      }
    }
  }

  lemma TakeExtends(s: seq<Byte>, n: nat, t: seq<Byte>)
    ensures Extends(Take(s, n), Take(s + t, n), t)
  {
    if n <= |s| {
      assert (s + t)[..n] == s[..n] && (s + t)[n..] == s[n..] + t;
    }
  }

  lemma LengthPrefixedExtends(s: seq<Byte>, t: seq<Byte>)
    ensures Extends(LengthPrefixed(s), LengthPrefixed(s + t), t)
  {
    hide ReadVarint32, Take;
    ReadVarint32Extends(s, t);
    if ReadVarint32(s).Got? {
      TakeExtends(ReadVarint32(s).rest, ReadVarint32(s).value, t);
    }
  }

  lemma {:induction false} SkipVarintExtends(s: seq<Byte>, t: seq<Byte>)
    ensures Extends(SkipVarint(s), SkipVarint(s + t), t)
  {
    if s != [] {
      assert (s + t)[1..] == s[1..] + t;
      SkipVarintExtends(s[1..], t);
    }
  }

  lemma SkipExtends(wireType: nat, s: seq<Byte>, t: seq<Byte>)
    ensures Extends(Skip(wireType, s), Skip(wireType, s + t), t)
  {
    hide SkipVarint, LengthPrefixed, Take;
    SkipVarintExtends(s, t);
    LengthPrefixedExtends(s, t);
    TakeExtends(s, 8, t);
    TakeExtends(s, 4, t);
  }

  lemma DecIntExtends(f: Field, s: seq<Byte>, t: seq<Byte>)
    ensures Extends(DecInt(f, s), DecInt(f, s + t), t)
  {
    hide ReadVarintFrom, StoredInt;
    ReadVarintFromExtends(s, 0, 0, t);
  }

  lemma DecFixedExtends(width: nat, s: seq<Byte>, t: seq<Byte>)
    requires width > 0
    ensures Extends(DecFixed(width, s), DecFixed(width, s + t), t)
  {
    hide Take, FromLittleEndian;
    TakeExtends(s, width, t);
  }

  lemma DecBlobExtends(f: Field, s: seq<Byte>, t: seq<Byte>)
    ensures Extends(DecBlob(f, s), DecBlob(f, s + t), t)
  {
    hide LengthPrefixed, UpToZero;
    LengthPrefixedExtends(s, t);
  }

  lemma DecValExtends(f: Field, s: seq<Byte>, current: Val, t: seq<Byte>)
    ensures Extends(DecVal(f, s, current), DecVal(f, s + t, current), t)
  {
    hide DecInt, DecFixed, DecBlob, LengthPrefixed, DecodeNoInit, Into;
    LengthPrefixedExtends(s, t);
    DecIntExtends(f, s, t);
    DecFixedExtends(4, s, t);
    DecFixedExtends(8, s, t);
    DecBlobExtends(f, s, t);
  }

  lemma DecSlotExtends(f: Field, wireType: nat, s: seq<Byte>, slot: Slot, t: seq<Byte>)
    ensures Extends(DecSlot(f, wireType, s, slot), DecSlot(f, wireType, s + t, slot), t)
  {
    hide DecVal, LengthPrefixed, DecPacked, Content, Items;
    LengthPrefixedExtends(s, t);
    DecValExtends(f, s, Content(f, slot), t);
  }

  /** Handling one field leaves the bytes after it alone. */
  lemma StepExtends(fields: seq<Field>, slots: seq<Slot>, seen: set<nat>, s: seq<Byte>, t: seq<Byte>)
    requires |fields| == |slots|
    ensures var r := Step(fields, slots, seen, s);
            && (r.Next? ==> Step(fields, slots, seen, s + t) == Next(r.slots, r.seen, r.rest + t))
            && (r.End? ==> Step(fields, slots, seen, s + t) == End(r.after + t))
  {
    hide ReadVarint32, DecSlot, Store, Skip, Find;
    ReadVarint32Extends(s, t);
    var r := ReadVarint32(s);
    if r.Got? {
      var i := Find(fields, r.value / 8);
      SkipExtends(r.value % 8, r.rest, t);
      if i < |fields| {
        DecSlotExtends(fields[i], r.value % 8, r.rest, slots[i], t);
      }
    }
  }

  /** Scanning `a + b` is scanning `a` and then, unless a zero tag ended it, `b`. */
  lemma {:induction false} ScanAppend(fields: seq<Field>, slots: seq<Slot>, seen: set<nat>,
                                      a: seq<Byte>, b: seq<Byte>)
    requires |fields| == |slots| && Scan(fields, slots, seen, a).Done?
    ensures var r := Scan(fields, slots, seen, a);
            Scan(fields, slots, seen, a + b) ==
            if r.zero then Done(r.slots, r.seen, r.rest + b, true) else Scan(fields, r.slots, r.seen, b)
    decreases |a|
  {
    hide Step;
    if a == [] {
      assert a + b == b;
    } else {
      StepExtends(fields, slots, seen, a, b);
      var r := Step(fields, slots, seen, a);
      if r.Next? {
        ScanAppend(fields, r.slots, r.seen, r.rest, b);
      }
    }
  }

  /** Which required fields were seen before does not affect a step, and none is forgotten. */
  lemma StepSeen(fields: seq<Field>, slots: seq<Slot>, seen: set<nat>, more: set<nat>, s: seq<Byte>)
    requires |fields| == |slots|
    ensures var r := Step(fields, slots, seen, s);
            && (r.Next? ==> seen <= r.seen)
            && Step(fields, slots, seen + more, s) == if r.Next? then Next(r.slots, r.seen + more, r.rest) else r
  {
    hide ReadVarint32, DecSlot, Store, Skip, Find;
    var r := ReadVarint32(s);
    if r.Got? && r.value != 0 {
      var tag, w := r.value / 8, r.value % 8;
      var i := Find(fields, tag);
      assert seen + {i} + more == seen + more + {i};
      assert Step(fields, slots, seen, s) == Record(fields, slots, seen, tag, w, r.rest);
      assert Step(fields, slots, seen + more, s) == Record(fields, slots, seen + more, tag, w, r.rest);
    }
  }

  lemma {:induction false} ScanSeen(fields: seq<Field>, slots: seq<Slot>, seen: set<nat>, more: set<nat>, s: seq<Byte>)
    requires |fields| == |slots|
    ensures var r := Scan(fields, slots, seen, s);
            && (r.Done? ==> seen <= r.seen)
            && Scan(fields, slots, seen + more, s) ==
               if r.Done? then Done(r.slots, r.seen + more, r.rest, r.zero) else Broken
    decreases |s|
  {
    hide Step;
    if s != [] {
      StepSeen(fields, slots, seen, more, s);
      var r := Step(fields, slots, seen, s);
      if r.Next? {
        ScanSeen(fields, r.slots, r.seen, more, r.rest);
      }
    }
  }

  /** Merging: when `a` and then `b` decode into a struct, `a + b` decodes into it with the same
      result, unless a zero tag ended `a`: then `b` is left unread. */
  lemma DecodingConcatenationMerges(fields: seq<Field>, slots: seq<Slot>, a: seq<Byte>, b: seq<Byte>)
    requires |fields| == |slots| && DecodeNoInit(fields, slots, a).Got?
    ensures var r := DecodeNoInit(fields, slots, a);
            var zero := Scan(fields, slots, {}, a).zero;
            && (zero ==> DecodeNoInit(fields, slots, a + b) == Got(r.value, r.rest + b))
            && (!zero && DecodeNoInit(fields, r.value, b).Got? ==>
                  DecodeNoInit(fields, slots, a + b) == DecodeNoInit(fields, r.value, b))
  {
    hide Scan, RequiredBefore;
    ScanAppend(fields, slots, {}, a, b);
    var r := Scan(fields, slots, {}, a);
    assert {} + r.seen == r.seen;
    ScanSeen(fields, r.slots, {}, r.seen, b);
  }

  /** `u` is one field with a tag the descriptor does not have. */
  predicate UnknownField(fields: seq<Field>, u: seq<Byte>) {
    var r := ReadVarint32(u);
    && r.Got? && r.value != 0
    && (forall i: nat | i < |fields| :: fields[i].tag != r.value / 8)
    && (fields == [] ==> r.value / 8 != 0)
    && Skip(r.value % 8, r.rest) == Got((), [])
  }

  lemma UnknownFieldSkipped(fields: seq<Field>, slots: seq<Slot>, seen: set<nat>, u: seq<Byte>)
    requires |fields| == |slots| && UnknownField(fields, u)
    ensures Scan(fields, slots, seen, u) == Done(slots, seen, [], false)
  {
    hide DecSlot, Skip;
    assert u != [];
    assert Find(fields, ReadVarint32(u).value / 8) == |fields|;
    assert Step(fields, slots, seen, u) == Next(slots, seen, []);
  }

  /** Forward compatibility: an unknown field inserted at a field boundary changes nothing. */
  lemma UnknownFieldsChangeNothing(fields: seq<Field>, slots: seq<Slot>, a: seq<Byte>, u: seq<Byte>, b: seq<Byte>)
    requires |fields| == |slots| && UnknownField(fields, u)
    requires var r := Scan(fields, slots, {}, a); r.Done? && !r.zero
    ensures DecodeNoInit(fields, slots, a + u + b) == DecodeNoInit(fields, slots, a + b)
  {
    hide Scan, Step, UnknownField;
    ScanAppend(fields, slots, {}, a, b);
    var r := Scan(fields, slots, {}, a);
    ScanAppend(fields, slots, {}, a, u + b);
    assert a + u + b == a + (u + b);
    UnknownFieldSkipped(fields, r.slots, r.seen, u);
    ScanAppend(fields, r.slots, r.seen, u, b);
  }

  /** `u` is one field with the tag of field `i`. */
  predicate OneField(fields: seq<Field>, slots: seq<Slot>, i: nat, u: seq<Byte>)
    requires |fields| == |slots|
  {
    var r := ReadVarint32(u);
    && r.Got? && r.value != 0 && Find(fields, r.value / 8) == i && i < |fields|
    && var d := DecSlot(fields[i], r.value % 8, r.rest, slots[i]); d.Got? && d.rest == []
  }

  /** "Last one wins": of two occurrences of a singular field that is not a submessage, or of a
      oneof member, the second alone decides. */
  lemma LastOneWins(fields: seq<Field>, slots: seq<Slot>, seen: set<nat>, i: nat, u: seq<Byte>, v: seq<Byte>)
    requires |fields| == |slots| && OneField(fields, slots, i, u) && OneField(fields, slots, i, v)
    requires fields[i].htype != Repeated && (fields[i].ltype != Submessage || fields[i].htype == Oneof)
    requires fields[i].htype == Oneof ==> slots[i].OneOf?
    ensures Scan(fields, slots, seen, u + v) == Scan(fields, slots, seen, v)
    ensures Scan(fields, slots, seen, v).Done? && !Scan(fields, slots, seen, v).zero
  {
    hide DecVal;
    var f := fields[i];
    var ru, rv := ReadVarint32(u), ReadVarint32(v);
    var su := DecSlot(f, ru.value % 8, ru.rest, slots[i]).value;
    var sv := DecSlot(f, rv.value % 8, rv.rest, slots[i]).value;
    var s' := if f.htype == Required then seen + {i} else seen;
    var after := Store(fields, slots, i, su);
    OneFieldScans(fields, slots, seen, i, u);
    OneFieldScans(fields, slots, seen, i, v);
    ScanAppend(fields, slots, seen, u, v);
    SameContent(f, rv.rest, Content(f, slots[i]), Content(f, su));
    assert DecSlot(f, rv.value % 8, rv.rest, after[i]) == Got(sv, []);
    OneFieldScans(fields, after, s', i, v);
    assert Store(fields, after, i, sv) == Store(fields, slots, i, sv);
    assert s' + {i} == seen + {i};
  }

  lemma SameContent(f: Field, s: seq<Byte>, a: Val, b: Val)
    requires f.ltype != Submessage || a == b
    ensures DecVal(f, s, a) == DecVal(f, s, b)
  {
  }

  lemma OneFieldScans(fields: seq<Field>, slots: seq<Slot>, seen: set<nat>, i: nat, u: seq<Byte>)
    requires |fields| == |slots| && OneField(fields, slots, i, u)
    ensures var r := ReadVarint32(u);
            var d := DecSlot(fields[i], r.value % 8, r.rest, slots[i]);
            Scan(fields, slots, seen, u) ==
            Done(Store(fields, slots, i, d.value), if fields[i].htype == Required then seen + {i} else seen, [], false)
  {
    hide DecSlot, Find, Store;
    assert u != [];
    var r := ReadVarint32(u);
    assert Step(fields, slots, seen, u) == Record(fields, slots, seen, r.value / 8, r.value % 8, r.rest);
  }
}
