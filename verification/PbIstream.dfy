/** The decoder as it runs: a cursor over a buffer, limited substreams for everything that is length-prefixed, and
    the functions that read fields from it. Each is proved against PbDecode: what is left of the stream afterwards,
    whether it succeeds, and what it stores are those of the decoding on values, wherever in the buffer the cursor
    stands and however the substreams are nested. A substream is a stream of its own over the same buffer, and the
    outer stream goes on where it ends. The required fields are counted and checked with the iterator and the bitset
    as the source does, in words of 32 bits. */
module PbIstream {
  import opened Common
  import opened PbWire
  import opened PbSchema
  import opened PbEncode
  import opened PbDecode
  import opened PbIter
  import opened PbSeen
  import opened PbRequired

  /** A reader that was to make `r` of its input did: it reports success and failure rightly, and
      on success has the value and leaves `rest` unread. */
  predicate Did<T(==)>(r: Read<T>, ok: bool, v: T, rest: seq<Byte>) {
    (ok <==> r.Got?) && (ok ==> r == Got(v, rest))
  }

  predicate DidSkip(r: Read<()>, ok: bool, rest: seq<Byte>) {
    (ok <==> r.Got?) && (ok ==> r.rest == rest)
  }

  class Istream {
    const buf: array<Byte>
    var pos: nat
    var bytesLeft: nat

    ghost predicate Valid()
      reads this
    {
      End() <= buf.Length
    }

    ghost function End(): nat
      reads this
    {
      pos + bytesLeft
    }

    /** The bytes not read yet. */
    ghost function Rest(): seq<Byte>
      requires Valid()
      reads this, buf
    {
      buf[pos..pos + bytesLeft]
    }

    constructor (buf: array<Byte>, pos: nat, size: nat)
      requires pos + size <= buf.Length
      ensures this.buf == buf && this.pos == pos && bytesLeft == size
      ensures Valid() && Rest() == buf[pos..pos + size]
    {
      this.buf := buf;
      this.pos := pos;
      this.bytesLeft := size;
    }

    /** pb_read: buf_read copies the bytes out. */
    method Read(n: nat) returns (ok: bool, b: seq<Byte>)
      requires Valid()
      modifies this
      ensures Valid() && End() == old(End())
      ensures Did(Take(old(Rest()), n), ok, b, Rest())
      ensures !ok ==> bytesLeft == old(bytesLeft)
    {
      b := [];
      if bytesLeft < n {
        return false, [];
      }
      for i := 0 to n
        invariant b == buf[pos..pos + i]
      {
        b := b + [buf[pos + i]];
      }
      pos := pos + n;
      bytesLeft := bytesLeft - n;
      ok := true;
      assert old(Rest())[..n] == b && old(Rest())[n..] == Rest();
    }

    /** pb_readbyte. */
    method ReadByte() returns (ok: bool, b: Byte)
      requires Valid()
      modifies this
      ensures Valid() && End() == old(End())
      ensures ok <==> old(Rest()) != []
      ensures ok ==> b == old(Rest())[0] && Rest() == old(Rest())[1..]
      ensures !ok ==> bytesLeft == 0
    {
      if bytesLeft == 0 {
        return false, 0;
      }
      b := buf[pos];
      pos := pos + 1;
      bytesLeft := bytesLeft - 1;
      ok := true;
    }

    /** pb_decode_varint32_eof. */
    method DecodeVarint32Eof() returns (ok: bool, dest: nat, eof: bool)
      requires Valid()
      modifies this
      ensures Valid() && End() == old(End()) && dest < U32
      ensures Did(ReadVarint32(old(Rest())), ok, dest, Rest())
      ensures eof <==> old(Rest()) == []
    {
      hide OrShifted;
      ghost var all := Rest();
      dest := 0;
      eof := false;
      var b: Byte;
      ok, b := ReadByte();
      if !ok {
        eof := bytesLeft == 0;
        return;
      }
      if b < 0x80 {
        dest := b;
        return;
      }
      var bitpos: nat := 7;
      dest := b % 0x80;
      ghost var r := ReadVarint32(all);
      while true
        invariant Valid() && End() == old(End()) && dest < U32 && bitpos < 256
        invariant ReadVarint32From(Rest(), bitpos, dest) == r
        decreases bytesLeft
      {
        ok, b := ReadByte();
        if !ok {
          return;
        }
        if bitpos >= 32 {
          var signExtension := if bitpos < 63 then 0xff else 0x01;
          if b % 0x80 != 0 && (dest < 0x8000_0000 || b != signExtension) {
            ok := false;
            return;
          }
        } else {
          dest := OrShifted(dest, b % 0x80, bitpos);
        }
        bitpos := (bitpos + 7) % 256;
        if b < 0x80 {
          break;
        }
      }
      if bitpos == 35 && b / 16 % 8 != 0 {
        ok := false;
      }
    }

    /** pb_decode_varint32. */
    method DecodeVarint32() returns (ok: bool, dest: nat)
      requires Valid()
      modifies this
      ensures Valid() && End() == old(End()) && dest < U32
      ensures Did(ReadVarint32(old(Rest())), ok, dest, Rest())
    {
      var eof;
      ok, dest, eof := DecodeVarint32Eof();
    }

    /** pb_decode_varint. */
    method DecodeVarint() returns (ok: bool, dest: nat)
      requires Valid()
      modifies this
      ensures Valid() && End() == old(End()) && dest < U64
      ensures Did(ReadVarint(old(Rest())), ok, dest, Rest())
    {
      hide Shifted;
      ghost var all := Rest();
      var bitpos: nat := 0;
      dest := 0;
      var b: Byte;
      while true
        invariant Valid() && End() == old(End()) && dest < U64
        invariant ReadVarintFrom(Rest(), bitpos, dest) == ReadVarint(all)
        decreases bytesLeft
      {
        if bitpos >= 64 {
          return false, dest;
        }
        ok, b := ReadByte();
        if !ok {
          return;
        }
        dest := (dest + Shifted(b % 0x80, bitpos)) % U64;
        bitpos := bitpos + 7;
        if b < 0x80 {
          return;
        }
      }
    }

    /** pb_skip_varint. */
    method SkipVarint() returns (ok: bool)
      requires Valid()
      modifies this
      ensures Valid() && End() == old(End())
      ensures DidSkip(PbDecode.SkipVarint(old(Rest())), ok, Rest())
    {
      ghost var all := Rest();
      var b: Byte;
      while true
        invariant Valid() && End() == old(End())
        invariant PbDecode.SkipVarint(Rest()) == PbDecode.SkipVarint(all)
        decreases bytesLeft
      {
        ok, b := ReadByte();
        if !ok || b < 0x80 {
          return;
        }
      }
    }

    /** pb_skip_string. */
    method SkipString() returns (ok: bool)
      requires Valid()
      modifies this
      ensures Valid() && End() == old(End())
      ensures DidSkip(Forget(LengthPrefixed(old(Rest()))), ok, Rest())
    {
      hide ReadVarint32, Take;
      var n, b;
      ok, n := DecodeVarint32();
      if !ok {
        return;
      }
      ok, b := Read(n);
    }

    /** pb_decode_tag. */
    method DecodeTag() returns (ok: bool, wireType: nat, tag: nat, eof: bool)
      requires Valid()
      modifies this
      ensures Valid() && End() == old(End()) && wireType < 8
      ensures var r := ReadVarint32(old(Rest()));
              && (ok <==> r.Got? && r.value != 0)
              && (ok ==> r == Got(tag * 8 + wireType, Rest()))
              && (eof <==> old(Rest()) == [] || (r.Got? && r.value == 0))
              && (r.Got? ==> Rest() == r.rest)
    {
      hide ReadVarint32;
      EmptyVarint();
      var temp;
      wireType := 0;
      tag := 0;
      ok, temp, eof := DecodeVarint32Eof();
      if !ok {
        return;
      }
      if temp == 0 {
        return false, 0, 0, true;
      }
      tag := temp / 8;
      wireType := temp % 8;
    }

    /** pb_skip_field. */
    method SkipField(wireType: nat) returns (ok: bool)
      requires Valid()
      modifies this
      ensures Valid() && End() == old(End())
      ensures DidSkip(Skip(wireType, old(Rest())), ok, Rest())
    {
      hide PbDecode.SkipVarint, LengthPrefixed, Take;
      var b;
      if wireType == WT_VARINT {
        ok := SkipVarint();
      } else if wireType == WT_64BIT {
        ok, b := Read(8);
      } else if wireType == WT_STRING {
        ok := SkipString();
      } else if wireType == WT_32BIT {
        ok, b := Read(4);
      } else {
        ok := false;
      }
    }

    /** pb_make_string_substream: the substream holds the string, this stream what is after it; the
        position moves only when the substream is closed. */
    method MakeSubstream() returns (ok: bool, sub: Istream)
      requires Valid()
      modifies this
      ensures fresh(sub) && sub.buf == buf && sub.Valid()
      ensures Valid() && End() <= old(End())
      ensures var r := LengthPrefixed(old(Rest()));
              && (ok <==> r.Got?)
              && (ok ==> && sub.Rest() == r.value && sub.End() + bytesLeft == old(End())
                         && buf[sub.End()..sub.End() + bytesLeft] == r.rest
                         && sub.bytesLeft < old(bytesLeft))
    {
      hide ReadVarint32, LengthPrefixed, Take, Did;
      ghost var all := Rest();
      var size;
      ok, size := DecodeVarint32();
      PrefixRead(all, ok, size, Rest());
      if !ok || bytesLeft < size {
        ok := false;
        sub := new Istream(buf, pos, bytesLeft);
        return;
      }
      sub := Carve(size);
    }

    /** The stream is cut in two: the next bytes for the substream, the bytes after them for this one. */
    method Carve(size: nat) returns (sub: Istream)
      requires Valid() && size <= bytesLeft
      modifies this`bytesLeft
      ensures fresh(sub) && sub.buf == buf && sub.Valid() && sub.bytesLeft == size
      ensures Valid() && End() <= old(End()) && sub.End() + bytesLeft == old(End())
      ensures sub.Rest() == old(Rest())[..size] && buf[sub.End()..sub.End() + bytesLeft] == old(Rest())[size..]
    {
      sub := new Istream(buf, pos, size);
      bytesLeft := bytesLeft - size;
    }

    static lemma PrefixRead(all: seq<Byte>, ok: bool, size: nat, rest: seq<Byte>)
      requires Did(ReadVarint32(all), ok, size, rest)
      ensures LengthPrefixed(all) ==
              if ok && size <= |rest| then Got(rest[..size], rest[size..]) else PbWire.Fail
      ensures ok ==> |rest| < |all|
    {
      hide ReadVarint32;
    }

    static lemma TakeNone(s: seq<Byte>)
      ensures Take(s, 0) == Got([], s)
    {
      assert s[..0] == [] && s[0..] == s;
    }

    /** pb_close_string_substream. */
    method CloseSubstream(sub: Istream) returns (ok: bool)
      requires sub != this && sub.buf == buf && sub.Valid() && sub.End() + bytesLeft <= buf.Length
      modifies this, sub
      ensures ok && Valid() && bytesLeft == old(bytesLeft) && pos == old(sub.End())
    {
      var b;
      if sub.bytesLeft != 0 {
        ok, b := sub.Read(sub.bytesLeft);
        if !ok {
          return;
        }
      }
      pos := sub.pos;
      ok := true;
    }

    /** pb_dec_varint, pb_dec_uvarint and pb_dec_svarint. */
    method DecodeInt(f: Field) returns (ok: bool, v: Val)
      requires Valid()
      modifies this
      ensures Valid() && End() == old(End())
      ensures Did(DecInt(f, old(Rest())), ok, v, Rest())
    {
      hide ReadVarint, UnZigZag;
      var value;
      v := Int(0);
      ok, value := DecodeVarint();
      if !ok {
        return;
      }
      var stored: int;
      if f.ltype == UVarint {
        stored := value;
      } else if f.ltype == SVarint {
        stored := UnZigZag(value);
      } else if f.dataSize == 8 {
        stored := Signed64(value);
      } else {
        stored := Signed32(value);
      }
      if !IntSize(f.dataSize) {
        return false, v;
      }
      if !(if f.ltype == UVarint then InUnsigned(stored, f.dataSize) else InSigned(stored, f.dataSize)) {
        return false, v;
      }
      v := Int(stored);
    }

    /** pb_dec_fixed32 and pb_dec_fixed64. */
    method DecodeFixed(width: nat) returns (ok: bool, v: Val)
      requires Valid() && width > 0
      modifies this
      ensures Valid() && End() == old(End())
      ensures Did(DecFixed(width, old(Rest())), ok, v, Rest())
    {
      var b;
      ok, b := Read(width);
      v := Fixed(FromLittleEndian(b));
    }

    /** pb_dec_bytes, pb_dec_string and pb_dec_fixed_length_bytes: the size is checked before
        anything is stored. */
    method DecodeBlob(f: Field) returns (ok: bool, v: Val)
      requires Valid()
      modifies this
      ensures Valid() && End() == old(End())
      ensures Did(DecBlob(f, old(Rest())), ok, v, Rest())
    {
      hide ReadVarint32, UpToZero, Take;
      var size, b;
      v := Blob([]);
      ok, size := DecodeVarint32();
      if !ok {
        return;
      }
      if f.ltype == Bytes {
        if size + BYTES_HEADER > f.dataSize {
          return false, v;
        }
        ok, b := Read(size);
        v := Blob(b);
      } else if f.ltype == String {
        var allocSize := (size + 1) % U32;
        if allocSize < size || allocSize > f.dataSize {
          return false, v;
        }
        ok, b := Read(size);
        v := Blob(UpToZero(b));
      } else if size == 0 {
        v := Blob(seq(f.dataSize, _ => 0));
        TakeNone(Rest());
      } else if size != f.dataSize {
        return false, v;
      } else {
        ok, b := Read(size);
        v := Blob(b);
      }
    }

    /** The field decoders. */
    method DecodeVal(f: Field, current: Val) returns (ok: bool, v: Val)
      requires Valid() && WfField(f)
      modifies this
      ensures Valid() && End() <= old(End()) && (ok ==> End() == old(End()))
      ensures Did(DecVal(f, old(Rest()), current), ok, v, Rest())
      decreases bytesLeft, 1
    {
      hide DecInt, DecFixed, DecBlob;
      v := current;
      match f.ltype
      case Varint => ok, v := DecodeInt(f);
      case UVarint => ok, v := DecodeInt(f);
      case SVarint => ok, v := DecodeInt(f);
      case Fixed32 => ok, v := DecodeFixed(4);
      case Fixed64 => ok, v := DecodeFixed(8);
      case Bytes => ok, v := DecodeBlob(f);
      case String => ok, v := DecodeBlob(f);
      case FixedLengthBytes => ok, v := DecodeBlob(f);
      case Submessage => ok, v := DecodeSubmessage(f, current);
    }

    /** pb_dec_submessage: array entries are set to their defaults first. */
    method DecodeSubmessage(f: Field, current: Val) returns (ok: bool, v: Val)
      requires Valid() && WfField(f) && f.ltype == Submessage
      modifies this
      ensures Valid() && End() <= old(End()) && (ok ==> End() == old(End()))
      ensures Did(DecVal(f, old(Rest()), current), ok, v, Rest())
      decreases bytesLeft, 0
    {
      hide LengthPrefixed, PbDecode.DecodeNoInit, Into, Wf;
      var sub, slots;
      v := current;
      ok, sub := MakeSubstream();
      if !ok {
        return;
      }
      WfSub(f);
      ok, slots := sub.DecodeNoInit(f.sub, Into(f, current));
      v := Sub(slots);
      ghost var status := ok;
      var closed := CloseSubstream(sub);
    }

    /** The loop over a packed array, run on its substream. */
    method DecodePacked(f: Field, before: seq<Val>) returns (ok: bool, items: seq<Val>)
      requires Valid() && WfField(f)
      modifies this
      ensures Valid() && End() <= old(End()) && (ok ==> End() == old(End()))
      ensures Did(DecPacked(f, old(Rest()), before), ok, items, Rest())
      decreases bytesLeft, 2
    {
      hide DecVal, WfField;
      ghost var all := DecPacked(f, Rest(), before);
      items := before;
      while bytesLeft > 0 && |items| < f.arraySize
        invariant Valid() && End() == old(End()) && bytesLeft <= old(bytesLeft)
        invariant DecPacked(f, Rest(), items) == all
        decreases bytesLeft
      {
        var v;
        ok, v := DecodeVal(f, Zero(f));
        if !ok {
          return;
        }
        items := items + [v];
      }
      ok := bytesLeft == 0;
    }

    /** A packed array: a substream that must be used up exactly. */
    method DecodePackedField(f: Field, before: seq<Val>) returns (ok: bool, items: seq<Val>)
      requires Valid() && WfField(f)
      modifies this
      ensures Valid() && End() <= old(End()) && (ok ==> End() == old(End()))
      ensures Did(PackedField(f, old(Rest()), before), ok, items, Rest())
      decreases bytesLeft, 3
    {
      hide LengthPrefixed, DecPacked, WfField;
      var sub;
      items := before;
      ok, sub := MakeSubstream();
      if !ok {
        return;
      }
      ok, items := sub.DecodePacked(f, before);
      if !ok {
        return;
      }
      var closed := CloseSubstream(sub);
    }

    /** decode_static_field. */
    method DecodeSlot(f: Field, wireType: nat, before: Slot) returns (ok: bool, slot: Slot)
      requires Valid() && WfField(f)
      modifies this
      ensures Valid() && End() <= old(End()) && (ok ==> End() == old(End()))
      ensures Did(DecSlot(f, wireType, old(Rest()), before), ok, slot, Rest())
      decreases bytesLeft, 4
    {
      hide PackedField, DecVal, WfField, Content;
      slot := before;
      if f.htype == Repeated && wireType == WT_STRING && Packable(f.ltype) {
        var items;
        ok, items := DecodePackedField(f, Items(before));
        slot := Many(items);
      } else {
        if f.htype == Repeated && |Items(before)| >= f.arraySize {
          return false, before;
        }
        var v;
        ok, v := DecodeVal(f, Content(f, before));
        if !ok {
          return;
        }
        match f.htype
        case Required => slot := Plain(v);
        case Optional => slot := if f.HasFlag() then Maybe(true, v) else Plain(v);
        case Repeated => slot := Many(Items(before) + [v]);
        case Oneof => slot := OneOf(Some(v));
      }
    }

    /** One turn of pb_decode_noinit's loop, after the tag has been read. */
    method DecodeRecord(fields: seq<Field>, before: seq<Slot>, iter: FieldIter, fieldsSeen: FieldsSeen,
                        wireType: nat, tag: nat, ghost marks: set<nat>, ghost seen: set<nat>)
      returns (ok: bool, slots: seq<Slot>, ghost marks': set<nat>, ghost seen': set<nat>)
      requires Valid() && Wf(fields) && |fields| == |before| && iter.fields == fields && iter.Valid()
      requires fieldsSeen.Holds(marks) && Represents(fields, marks, seen) && (fieldsSeen.words as object) != buf
      modifies this, iter, fieldsSeen.words
      ensures Valid() && End() <= old(End()) && (ok ==> End() == old(End())) && iter.Valid()
      ensures fieldsSeen.Holds(marks') && Represents(fields, marks', seen')
      ensures var r := Record(fields, before, seen, tag, wireType, old(Rest()));
              && (ok <==> r.Next?)
              && (ok ==> r == Next(slots, seen', Rest()))
      decreases bytesLeft, 5
    {
      hide DecSlot, WfField, Represents, RequiredBefore, Store, Skip, Find;
      slots, marks', seen' := before, marks, seen;
      var found := iter.Find(tag);
      FoundField(fields, tag, found, iter.pos);
      if !found {
        ok := SkipField(wireType);
        return;
      }
      if iter.pos == |fields| {
        var value;
        ok, value := DecodeVarint();
        ok := false;
        return;
      }
      var f := fields[iter.pos];
      assert WfField(f);
      if f.htype == Required {
        MarkRequired(fields, marks, seen, iter.pos);
        seen' := seen + {iter.pos};
        if iter.requiredFieldIndex < MAX_REQUIRED_FIELDS {
          fieldsSeen.Mark(iter.requiredFieldIndex, marks);
          marks' := marks + {iter.requiredFieldIndex};
        }
      }
      assert Rest() == old(Rest());
      var slot;
      ok, slot := DecodeSlot(f, wireType, before[iter.pos]);
      assert Did(DecSlot(f, wireType, old(Rest()), before[iter.pos]), ok, slot, Rest());
      if ok {
        slots := Store(fields, before, iter.pos, slot);
      }
    }

    /** pb_decode_noinit. */
    method DecodeNoInit(fields: seq<Field>, before: seq<Slot>) returns (ok: bool, slots: seq<Slot>)
      requires Valid() && Wf(fields) && |fields| == |before|
      modifies this
      ensures Valid() && End() <= old(End()) && (ok ==> End() == old(End()))
      ensures Did(PbDecode.DecodeNoInit(fields, before, old(Rest())), ok, slots, Rest())
      ensures |slots| == |before|
      decreases bytesLeft, 6
    {
      hide Record, Scan, Wf, RequiredBefore, Represents, ReadVarint32, AllSeen, FieldIter.Valid, FieldsSeen.Holds;
      ghost var all := Scan(fields, before, {}, Rest());
      slots := before;
      var fieldsSeen := new FieldsSeen();
      WfTags(fields);
      var iter := new FieldIter(fields, 0);
      ghost var marks: set<nat>, seen: set<nat> := {}, {};
      NothingMarked(fields);
      while bytesLeft != 0
        invariant Valid() && End() == old(End()) && bytesLeft <= old(bytesLeft)
        invariant |slots| == |before| && iter.fields == fields && iter.Valid() && fresh(iter)
        invariant fresh(fieldsSeen.words) && fieldsSeen.Holds(marks) && Represents(fields, marks, seen)
        invariant Scan(fields, slots, seen, Rest()) == all
        decreases bytesLeft
      {
        ScanStep(fields, slots, seen, Rest());
        var wireType, tag, eof;
        ok, wireType, tag, eof := DecodeTag();
        if !ok {
          if eof {
            break;
          }
          return;
        }
        ok, slots, marks, seen := DecodeRecord(fields, slots, iter, fieldsSeen, wireType, tag, marks, seen);
        if !ok {
          slots := before;
          return;
        }
      }
      ScanEmpty(fields, slots, seen);
      ok := RequiredPresent(iter, fieldsSeen, marks, seen);
    }

    /** pb_decode. */
    method Decode(fields: seq<Field>) returns (ok: bool, slots: seq<Slot>)
      requires Valid() && Wf(fields)
      modifies this
      ensures Valid() && End() <= old(End()) && (ok ==> End() == old(End()))
      ensures Did(PbDecode.Decode(fields, old(Rest())), ok, slots, Rest())
      decreases bytesLeft, 7
    {
      ok, slots := DecodeNoInit(fields, Defaults(fields));
    }
  }

  /** The number of required fields to check for, found by walking to the last field. */
  method CountRequired(iter: FieldIter) returns (count: nat)
    requires iter.Valid()
    modifies iter
    ensures var n := RequiredBefore(iter.fields, |iter.fields|);
            count == if n > MAX_REQUIRED_FIELDS then MAX_REQUIRED_FIELDS else n
  {
    var last := Required;
    var more := true;
    count := 0;
    while more
      invariant iter.Valid()
      invariant more || (iter.fields != [] && last == iter.fields[|iter.fields| - 1].htype) || iter.fields == []
      invariant !more ==> count == RequiredBefore(iter.fields, if iter.fields == [] then 0 else |iter.fields| - 1)
      invariant !more ==> iter.pos == 0
      decreases more, |iter.fields| - iter.pos
    {
      count := iter.requiredFieldIndex;
      last := if iter.pos < |iter.fields| then iter.fields[iter.pos].htype else Required;
      more := iter.Next();
    }
    if last == Required && iter.pos < |iter.fields| {
      count := count + 1;
    }
    if count > MAX_REQUIRED_FIELDS {
      count := MAX_REQUIRED_FIELDS;
    }
  }

  /** The check that ends pb_decode_noinit. */
  method RequiredPresent(iter: FieldIter, fieldsSeen: FieldsSeen, ghost marks: set<nat>, ghost seen: set<nat>)
    returns (ok: bool)
    requires iter.Valid() && fieldsSeen.Holds(marks) && Represents(iter.fields, marks, seen)
    modifies iter
    ensures ok == AllSeen(iter.fields, seen)
  {
    var count := CountRequired(iter);
    AllMarked(iter.fields, marks, seen, count);
    ok := fieldsSeen.AllSet(count, marks);
  }

  lemma WfSub(f: Field)
    requires WfField(f) && f.ltype == Submessage
    ensures f.hasSub && Wf(f.sub)
  {
  }

  lemma WfTags(fields: seq<Field>)
    requires Wf(fields)
    ensures AllTagged(fields)
  {
  }

  lemma NothingMarked(fields: seq<Field>)
    ensures Represents(fields, {}, {})
  {
  }

  /** In a well-formed descriptor the iterator finds the field the tag denotes. */
  lemma FoundField(fields: seq<Field>, tag: nat, found: bool, pos: nat)
    requires Wf(fields)
    requires found <==> (fields == [] && tag == 0) || exists i: nat :: i < |fields| && Matches(fields[i], tag)
    requires found && fields != [] ==> pos < |fields| && Matches(fields[pos], tag)
    requires fields == [] ==> pos == 0
    ensures !found ==> Find(fields, tag) == |fields|
    ensures found && pos < |fields| ==> Find(fields, tag) == pos
    ensures found && pos == |fields| ==> fields == [] && tag == 0
    ensures fields == [] && tag == 0 ==> found
  {
    hide RequiredBefore;
    var i := Find(fields, tag);
    if i < |fields| {
      assert WfField(fields[i]);
      assert Matches(fields[i], tag);
      FindTag(fields, pos);
    }
  }

  lemma ScanEmpty(fields: seq<Field>, slots: seq<Slot>, seen: set<nat>)
    requires |fields| == |slots|
    ensures Scan(fields, slots, seen, []) == Done(slots, seen, [], false)
  {
  }

  /** One turn of the scan. */
  lemma ScanStep(fields: seq<Field>, slots: seq<Slot>, seen: set<nat>, s: seq<Byte>)
    requires |fields| == |slots| && s != []
    ensures var r := ReadVarint32(s);
            var all := Scan(fields, slots, seen, s);
            && (r.Fail? ==> all == Broken)
            && (r.Got? && r.value == 0 ==> all == Done(slots, seen, r.rest, true))
            && (r.Got? && r.value != 0 ==>
                  var next := Record(fields, slots, seen, r.value / 8, r.value % 8, r.rest);
                  all == if next.Next? then Scan(fields, next.slots, next.seen, next.rest) else Broken)
  {
    hide ReadVarint32, Record;
  }

  lemma EmptyVarint()
    ensures ReadVarint32([]).Fail?
  {
  }
}
