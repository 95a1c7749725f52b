/** The encoder as it runs: a stream that writes into a buffer, or only counts, and the functions
    that write fields to it. Each is proved against PbEncode; submessages are encoded twice. */
module PbOstream {
  import opened Common
  import opened PbWire
  import opened PbSchema
  import opened PbEncode

  /** The state of a stream. Without a buffer (`data` is None) it is a sizing stream. */
  datatype Out = Out(data: Option<seq<Byte>>, pos: nat, maxSize: nat, bytesWritten: nat) {
    predicate Valid() {
      data.Some? ==> bytesWritten <= maxSize && pos + maxSize - bytesWritten <= |data.value|
    }

    /** Whether `n` more bytes can be written. */
    predicate HasRoom(n: nat) {
      data.Some? ==> bytesWritten + n <= maxSize
    }
  }

  /** A stream writing `b` moves from state `s` to state `t`: it succeeds exactly when `b` can be
      encoded and fits, then counts its bytes and has put them at its position; whether or not it
      succeeds, nothing outside the bytes counted is touched. */
  predicate Wrote(s: Out, t: Out, ok: bool, b: Option<seq<Byte>>) {
    && s.Valid() && t.Valid() && t.maxSize == s.maxSize && s.bytesWritten <= t.bytesWritten
    && (ok <==> b.Some? && s.HasRoom(|b.value|))
    && (ok ==> t.bytesWritten == s.bytesWritten + |b.value|)
    && (s.data.None? ==> t.data.None?)
    && (s.data.Some? ==>
          && t.data.Some? && |t.data.value| == |s.data.value|
          && t.pos - s.pos == t.bytesWritten - s.bytesWritten
          && t.data.value[..s.pos] == s.data.value[..s.pos]
          && t.data.value[t.pos..] == s.data.value[t.pos..]
          && (ok ==> t.data.value[s.pos..t.pos] == b.value))
  }

  /** Writing `a` and then `b` is writing `a + b`. */
  lemma WroteBoth(s: Out, t: Out, u: Out, a: Option<seq<Byte>>, ok: bool, b: Option<seq<Byte>>)
    requires Wrote(s, t, true, a) && Wrote(t, u, ok, b)
    ensures Wrote(s, u, ok, Then(a, b))
  {
    if s.data.Some? {
      var x, y, z := s.data.value, t.data.value, u.data.value;
      assert z[..s.pos] == z[..t.pos][..s.pos] == y[..t.pos][..s.pos] == y[..s.pos];
      assert x[u.pos..] == x[t.pos..][u.pos - t.pos..] == y[t.pos..][u.pos - t.pos..] == y[u.pos..];
      if ok {
        assert z[s.pos..t.pos] == z[..t.pos][s.pos..] == y[..t.pos][s.pos..] == y[s.pos..t.pos];
        assert z[s.pos..u.pos] == z[s.pos..t.pos] + z[t.pos..u.pos];
      }
    }
  }

  lemma WroteValid(s: Out, t: Out, ok: bool, b: Option<seq<Byte>>)
    requires Wrote(s, t, ok, b)
    ensures t.Valid()
  {
  }

  /** When writing `a` fails, so does writing `a + b`. */
  lemma WroteFails(s: Out, t: Out, a: Option<seq<Byte>>, b: Option<seq<Byte>>)
    requires Wrote(s, t, false, a)
    ensures Wrote(s, t, false, Then(a, b))
  {
  }

  lemma {:induction false} VarintLength(n: nat, k: nat)
    requires 1 <= k && n < Pow2(7 * k)
    ensures |VarintBytes(n)| <= k
    decreases k
  {
    if n > 0x7f {
      Pow2Seven(7 * (k - 1));
      if k == 1 {
        Pow2Values();
      }
      VarintLength(n / 0x80, k - 1);
    }
  }

  lemma VarintLength64(n: nat)
    requires n < U64
    ensures |VarintBytes(n)| <= 10
  {
    Pow2Values();
    Pow2Grows(64, 70);
    VarintLength(n, 10);
  }

  /** What a second stream writes at this stream's position, within its room, this stream has
      written once it takes over the other's position and count. */
  lemma WroteThrough(s: Out, sub: Out, t: Out, b: seq<Byte>)
    requires s.Valid() && s.data.Some? && s.HasRoom(|b|)
    requires sub == Out(s.data, s.pos, |b|, 0) && Wrote(sub, t, true, Some(b))
    ensures Wrote(s, Out(t.data, t.pos, s.maxSize, s.bytesWritten + t.bytesWritten), true, Some(b))
  {
  }

  lemma WroteNothing(s: Out)
    requires s.Valid()
    ensures Wrote(s, s, true, Some([])) && Wrote(s, s, false, None)
  {
  }

  lemma WroteSome(s: Out, t: Out, b: Option<seq<Byte>>)
    requires Wrote(s, t, true, b)
    ensures b.Some?
  {
  }

  /** A sizing stream fails only when there is nothing to size, and otherwise counts. */
  lemma WroteSizing(s: Out, t: Out, ok: bool, b: Option<seq<Byte>>)
    requires Wrote(s, t, ok, b) && s.data.None?
    ensures ok <==> b.Some?
    ensures ok ==> t.bytesWritten == s.bytesWritten + |b.value|
  {
  }

  lemma WroteCounted(s: Out, b: seq<Byte>)
    requires s.data.None?
    ensures Wrote(s, s.(bytesWritten := s.bytesWritten + |b|), true, Some(b))
  {
  }

  lemma ThenUnit(a: Option<seq<Byte>>)
    ensures Then(Some([]), a) == a && Then(a, Some([])) == a
  {
    if a.Some? {
      assert [] + a.value == a.value && a.value + [] == a.value;
    }
  }

  lemma ThenAssociates(a: Option<seq<Byte>>, b: Option<seq<Byte>>, c: Option<seq<Byte>>)
    ensures Then(Then(a, b), c) == Then(a, Then(b, c))
  {
    if a.Some? && b.Some? && c.Some? {
      assert a.value + b.value + c.value == a.value + (b.value + c.value);
    }
  }

  /** Shifting right by eight bits and then `k` is shifting by `k + 8`. */
  lemma Shifts(n: nat)
    ensures n / 256 / 256 == n / 0x1_0000
    ensures n / 0x1_0000 / 256 == n / 0x100_0000
    ensures n / 0x100_0000 / 256 == n / U32
  {
  }

  lemma UnrolledLittleEndian(n: nat, width: nat)
    requires width >= 4
    ensures LittleEndian(n, width) ==
            [n % 256, n / 256 % 256, n / 0x1_0000 % 256, n / 0x100_0000 % 256] + LittleEndian(n / U32, width - 4)
  {
    Shifts(n);
    var b1 := n / 256;
    var b2 := n / 0x1_0000;
    var b3 := n / 0x100_0000;
    assert LittleEndian(b3, width - 3) == [b3 % 256] + LittleEndian(n / U32, width - 4);
    assert LittleEndian(b2, width - 2) == [b2 % 256] + LittleEndian(b3, width - 3);
    assert LittleEndian(b1, width - 1) == [b1 % 256] + LittleEndian(b2, width - 2);
  }

  /** What pb_encode_submessage writes. */
  function EncPrefixed(fields: seq<Field>, slots: seq<Slot>): Option<seq<Byte>>
    requires Shaped(fields, slots)
  {
    if Enc(fields, slots).Some? then Some(Prefixed(Enc(fields, slots).value)) else None
  }

  // Sizes.

  /** No submessage encodes to 2^64 bytes or more. */
  predicate SizedVal(f: Field, v: Val)
    requires ShapedVal(f, v)
    decreases v
  {
    f.ltype == Submessage && f.hasSub ==>
      && Sized(f.sub, v.slots)
      && (Enc(f.sub, v.slots).Some? ==> |Enc(f.sub, v.slots).value| < U64)
  }

  predicate SizedSlot(f: Field, s: Slot)
    requires ShapedSlot(f, s)
    decreases s
  {
    match s
    case Plain(v) => SizedVal(f, v)
    case Maybe(_, v) => SizedVal(f, v)
    case Many(items) => forall i: nat | i < |items| :: SizedVal(f, items[i])
    case OneOf(held) => held.Some? ==> SizedVal(f, held.value)
  }

  predicate Sized(fields: seq<Field>, slots: seq<Slot>)
    requires Shaped(fields, slots)
    decreases slots
  {
    forall i: nat | i < |slots| :: SizedSlot(fields[i], slots[i])
  }

  /** Each entry of a packed array takes at most ten bytes. */
  lemma {:induction false} PackedSize(f: Field, items: seq<Val>, k: nat)
    requires k <= |items| && Packable(f.ltype)
    requires forall i: nat | i < |items| :: ShapedVal(f, items[i])
    ensures EncItems(f, items, k, false).Some? ==> |EncItems(f, items, k, false).value| <= 10 * (|items| - k)
    ensures f.ltype == Fixed32 ==>
              EncItems(f, items, k, false).Some? && |EncItems(f, items, k, false).value| == 4 * (|items| - k)
    ensures f.ltype == Fixed64 ==>
              EncItems(f, items, k, false).Some? && |EncItems(f, items, k, false).value| == 8 * (|items| - k)
    decreases |items| - k
  {
    hide VarintBytes, LittleEndian, ZigZag;
    if k < |items| {
      PackedSize(f, items, k + 1);
      var v := items[k];
      if f.ltype == Varint {
        VarintLength64(Unsigned64(v.n));
      } else if f.ltype == UVarint {
        VarintLength64(v.n);
      } else if f.ltype == SVarint {
        VarintLength64(ZigZag(v.n));
      }
    }
  }

  /** The loop of pb_encode_varint. */
  method CollectVarint(n: nat) returns (buffer: array<Byte>, i: nat)
    requires 0x7f < n < U64
    ensures fresh(buffer) && i <= buffer.Length == 10 && buffer[..i] == VarintBytes(n)
  {
    VarintLength64(n);
    buffer := new Byte[10];
    i := 0;
    var value: nat := n;
    while value != 0
      invariant value != 0 ==> i + |VarintBytes(value)| <= 10 && VarintBytes(n) == buffer[..i] + VarintBytes(value)
      invariant value == 0 ==> 0 < i <= 10 && buffer[i - 1] >= 0x80
      invariant value == 0 ==> VarintBytes(n) == buffer[..i - 1] + [buffer[i - 1] - 0x80]
      decreases value
    {
      buffer[i] := value % 0x80 + 0x80;
      value := value / 0x80;
      i := i + 1;
    }
    buffer[i - 1] := buffer[i - 1] - 0x80;
  }

  class Ostream {
    const buf: array?<Byte>
    var pos: nat
    var maxSize: nat
    var bytesWritten: nat

    ghost function State(): Out
      reads this, buf
    {
      Out(if buf == null then None else Some(buf[..]), pos, maxSize, bytesWritten)
    }

    /** A stream at `pos` of the buffer with room for `maxSize` bytes; without a buffer, a sizing
        stream. */
    constructor (buf: array?<Byte>, pos: nat, maxSize: nat)
      requires buf != null ==> pos + maxSize <= buf.Length
      ensures this.buf == buf && State() == Out(if buf == null then None else Some(buf[..]), pos, maxSize, 0)
    {
      this.buf := buf;
      this.pos := pos;
      this.maxSize := maxSize;
      this.bytesWritten := 0;
    }

    /** buf_write: copies the bytes one by one. */
    method BufWrite(b: seq<Byte>)
      requires buf != null && pos + |b| <= buf.Length
      modifies this`pos, buf
      ensures pos == old(pos) + |b|
      ensures buf[..] == old(buf[..pos]) + b + old(buf[pos + |b|..])
    {
      var dest := pos;
      pos := pos + |b|;
      for i := 0 to |b|
        invariant pos == old(pos) + |b|
        invariant buf[..dest + i] == old(buf[..pos]) + b[..i]
        invariant buf[dest + i..] == old(buf[..])[dest + i..]
      {
        buf[dest + i] := b[i];
      }
    }

    /** pb_write. */
    method Write(b: seq<Byte>) returns (ok: bool)
      requires State().Valid()
      modifies this`pos, this`bytesWritten, buf
      ensures Wrote(old(State()), State(), ok, Some(b))
    {
      if buf != null {
        if bytesWritten + |b| > maxSize {
          return false;
        }
        BufWrite(b);
      }
      bytesWritten := bytesWritten + |b|;
      return true;
    }

    /** pb_encode_varint: the bytes are collected in a buffer of ten. */
    method EncodeVarint(n: nat) returns (ok: bool)
      requires State().Valid() && n < U64
      modifies this`pos, this`bytesWritten, buf
      ensures Wrote(old(State()), State(), ok, Some(VarintBytes(n)))
    {
      if n <= 0x7f {
        ok := Write([n]);
        return;
      }
      var buffer, i := CollectVarint(n);
      ok := Write(buffer[..i]);
    }

    /** pb_encode_tag. */
    method EncodeTag(wireType: nat, tag: nat) returns (ok: bool)
      requires State().Valid() && tag < U32 && wireType < 8
      modifies this`pos, this`bytesWritten, buf
      ensures Wrote(old(State()), State(), ok, Some(TagBytes(tag, wireType)))
    {
      ok := EncodeVarint(tag * 8 + wireType);
    }

    /** pb_encode_string. */
    method EncodeString(b: seq<Byte>) returns (ok: bool)
      requires State().Valid() && |b| < U64
      modifies this`pos, this`bytesWritten, buf
      ensures Wrote(old(State()), State(), ok, Some(Prefixed(b)))
    {
      hide Wrote, Out.Valid, VarintBytes;
      ghost var s := State();
      ok := EncodeVarint(|b|);
      ghost var t := State();
      if !ok {
        WroteFails(s, t, Some(VarintBytes(|b|)), Some(b));
        return;
      }
      WroteValid(s, t, ok, Some(VarintBytes(|b|)));
      ok := Write(b);
      WroteBoth(s, t, State(), Some(VarintBytes(|b|)), ok, Some(b));
    }

    /** pb_encode_fixed32 and pb_encode_fixed64. */
    method EncodeFixed32(bits: nat) returns (ok: bool)
      requires State().Valid() && bits < U32
      modifies this`pos, this`bytesWritten, buf
      ensures Wrote(old(State()), State(), ok, Some(LittleEndian(bits, 4)))
    {
      hide Wrote, Out.Valid;
      UnrolledLittleEndian(bits, 4);
      var b := [bits % 256, bits / 256 % 256, bits / 0x1_0000 % 256, bits / 0x100_0000 % 256];
      assert b == LittleEndian(bits, 4);
      ok := Write(b);
    }

    method EncodeFixed64(bits: nat) returns (ok: bool)
      requires State().Valid() && bits < U64
      modifies this`pos, this`bytesWritten, buf
      ensures Wrote(old(State()), State(), ok, Some(LittleEndian(bits, 8)))
    {
      hide Wrote, Out.Valid;
      var high := bits / U32;
      UnrolledLittleEndian(bits, 8);
      UnrolledLittleEndian(high, 4);
      var b := [bits % 256, bits / 256 % 256, bits / 0x1_0000 % 256, bits / 0x100_0000 % 256,
                high % 256, high / 256 % 256, high / 0x1_0000 % 256, high / 0x100_0000 % 256];
      assert b == LittleEndian(bits, 8);
      ok := Write(b);
    }

    /** pb_encode_svarint. */
    method EncodeSvarint(v: int) returns (ok: bool)
      requires State().Valid() && -S63 <= v < S63
      modifies this`pos, this`bytesWritten, buf
      ensures Wrote(old(State()), State(), ok, Some(VarintBytes(ZigZag(v))))
    {
      var zigzagged := if v < 0 then Not64(Unsigned64(v) * 2 % U64) else Unsigned64(v) * 2 % U64;
      ok := EncodeVarint(zigzagged);
    }

    /** pb_encode_submessage: a sizing pass, the length, and a pass over a stream limited to it. The
        two passes write the same number of bytes, so "submsg size changed" cannot happen. */
    method EncodeSubmessage(fields: seq<Field>, slots: seq<Slot>) returns (ok: bool)
      requires State().Valid() && Shaped(fields, slots) && Sized(fields, slots)
      requires Enc(fields, slots).Some? ==> |Enc(fields, slots).value| < U64
      modifies this`pos, this`bytesWritten, buf
      ensures Wrote(old(State()), State(), ok, EncPrefixed(fields, slots))
      decreases slots, 6
    {
      hide Shaped, Sized, Enc, VarintBytes;
      ghost var s := State();
      ghost var e := Enc(fields, slots);
      var sizing := new Ostream(null, 0, 0);
      ok := sizing.Encode(fields, slots);
      if !ok {
        return;
      }
      var size := sizing.bytesWritten;
      ghost var length := Some(VarintBytes(size));
      assert EncPrefixed(fields, slots) == Then(length, e);
      ok := EncodeVarint(size);
      ghost var t := State();
      if !ok {
        WroteFails(s, t, length, e);
        return;
      }
      if buf == null {
        bytesWritten := bytesWritten + size;
        return;
      }
      if bytesWritten + size > maxSize {
        WroteBoth(s, t, t, length, false, e);
        return false;
      }
      var sub := new Ostream(buf, pos, size);
      ghost var sub1 := sub.State();
      ok := sub.Encode(fields, slots);
      ghost var sub2 := sub.State();
      assert Wrote(sub1, sub2, true, e);
      bytesWritten := bytesWritten + sub.bytesWritten;
      pos := sub.pos;
      WroteThrough(t, sub1, sub2, e.value);
      WroteBoth(s, t, State(), length, true, e);
      if sub.bytesWritten != size {
        assert false;
      }
    }

    /** The field encoders, pb_enc_varint to pb_enc_fixed_length_bytes. */
    method EncodeVal(f: Field, v: Val) returns (ok: bool)
      requires State().Valid() && ShapedVal(f, v) && SizedVal(f, v)
      modifies this`pos, this`bytesWritten, buf
      ensures Wrote(old(State()), State(), ok, EncVal(f, v))
      decreases v, 0
    {
      hide Wrote, VarintBytes, ZigZag, LittleEndian, Prefixed, EncFrom, Sized, Shaped;
      WroteNothing(State());
      match f.ltype
      case Varint =>
        if !IntSize(f.dataSize) {
          return false;
        }
        ok := EncodeVarint(Unsigned64(v.n));
      case UVarint =>
        if !IntSize(f.dataSize) {
          return false;
        }
        ok := EncodeVarint(v.n);
      case SVarint =>
        if !IntSize(f.dataSize) {
          return false;
        }
        ok := EncodeSvarint(v.n);
      case Fixed32 => ok := EncodeFixed32(v.bits);
      case Fixed64 => ok := EncodeFixed64(v.bits);
      case Bytes =>
        if |v.bytes| + BYTES_HEADER > f.dataSize {
          return false;
        }
        ok := EncodeString(v.bytes);
      case String => ok := EncodeString(v.bytes);
      case FixedLengthBytes => ok := EncodeString(v.bytes);
      case Submessage =>
        if !f.hasSub {
          return false;
        }
        ok := EncodeSubmessage(f.sub, v.slots);
    }

    /** pb_encode_tag_for_field and the field's encoder. */
    method EncodeTagged(f: Field, v: Val) returns (ok: bool)
      requires State().Valid() && ShapedVal(f, v) && SizedVal(f, v)
      modifies this`pos, this`bytesWritten, buf
      ensures Wrote(old(State()), State(), ok, Tagged(f, v))
      decreases v, 1
    {
      hide Wrote, ShapedVal, SizedVal, EncVal, TagBytes;
      ghost var s := State();
      ghost var tag := Some(TagBytes(f.tag, WireType(f.ltype)));
      ok := EncodeTag(WireType(f.ltype), f.tag);
      ghost var t := State();
      if !ok {
        WroteFails(s, t, tag, EncVal(f, v));
        return;
      }
      WroteValid(s, t, ok, tag);
      ok := EncodeVal(f, v);
      WroteBoth(s, t, State(), tag, ok, EncVal(f, v));
    }

    /** The loops of encode_array over the entries, bare or each with its tag. */
    method EncodeItems(f: Field, items: seq<Val>, tagged: bool) returns (ok: bool)
      requires State().Valid() && forall i: nat | i < |items| :: ShapedVal(f, items[i]) && SizedVal(f, items[i])
      modifies this`pos, this`bytesWritten, buf
      ensures Wrote(old(State()), State(), ok, EncItems(f, items, 0, tagged))
      decreases items, 2
    {
      hide Wrote, ShapedVal, SizedVal, EncVal, Tagged, Then;
      ghost var s := State();
      ghost var all := EncItems(f, items, 0, tagged);
      ghost var done: seq<Byte> := [];
      WroteNothing(s);
      ThenUnit(all);
      for i := 0 to |items|
        invariant Wrote(s, State(), true, Some(done)) && State().Valid()
        invariant all == Then(Some(done), EncItems(f, items, i, tagged))
      {
        ghost var t := State();
        ghost var head := if tagged then Tagged(f, items[i]) else EncVal(f, items[i]);
        ghost var tail := EncItems(f, items, i + 1, tagged);
        if tagged {
          ok := EncodeTagged(f, items[i]);
        } else {
          ok := EncodeVal(f, items[i]);
        }
        WroteBoth(s, t, State(), Some(done), ok, head);
        ThenAssociates(Some(done), head, tail);
        if !ok {
          WroteFails(s, State(), Then(Some(done), head), tail);
          return;
        }
        WroteSome(t, State(), head);
        WroteValid(t, State(), ok, head);
        done := done + head.value;
      }
      ThenUnit(Some(done));
      return true;
    }

    /** encode_array. A packed array's size is computed, or counted with a sizing stream. */
    method EncodeArray(f: Field, items: seq<Val>) returns (ok: bool)
      requires State().Valid() && |items| <= SIZE_MAX
      requires forall i: nat | i < |items| :: ShapedVal(f, items[i]) && SizedVal(f, items[i])
      modifies this`pos, this`bytesWritten, buf
      ensures Wrote(old(State()), State(), ok, EncArray(f, items))
      decreases items, 5
    {
      hide ShapedVal, SizedVal, EncItems, Wrote, TagBytes, VarintBytes;
      ghost var s := State();
      if items == [] {
        WroteNothing(s);
        return true;
      }
      if |items| > f.arraySize {
        WroteNothing(s);
        return false;
      }
      if Packable(f.ltype) {
        ok := EncodePacked(f, items);
      } else {
        ok := EncodeItems(f, items, true);
      }
    }

    method EncodePacked(f: Field, items: seq<Val>) returns (ok: bool)
      requires State().Valid() && |items| <= SIZE_MAX && Packable(f.ltype)
      requires forall i: nat | i < |items| :: ShapedVal(f, items[i]) && SizedVal(f, items[i])
      modifies this`pos, this`bytesWritten, buf
      ensures var data := EncItems(f, items, 0, false);
              Wrote(old(State()), State(), ok,
                    if data.Some? then Some(TagBytes(f.tag, WT_STRING) + Prefixed(data.value)) else None)
      decreases items, 4
    {
      hide ShapedVal, SizedVal, EncItems, Wrote, TagBytes, VarintBytes;
      ghost var s := State();
      ghost var tag := Some(TagBytes(f.tag, WT_STRING));
      ghost var data := EncItems(f, items, 0, false);
      ok := EncodeTag(WT_STRING, f.tag);
      ghost var t := State();
      if !ok {
        WroteFails(s, t, tag, if data.Some? then Some(Prefixed(data.value)) else None);
        return;
      }
      WroteValid(s, t, ok, tag);
      var size: nat;
      ok, size := SizePacked(f, items);
      if !ok {
        WroteNothing(t);
        WroteBoth(s, t, t, tag, false, None);
        return;
      }
      ghost var length := Some(VarintBytes(size));
      ok := EncodeVarint(size);
      ghost var u := State();
      WroteBoth(s, t, u, tag, ok, length);
      ThenAssociates(tag, length, data);
      if !ok {
        WroteFails(s, u, Then(tag, length), data);
        return;
      }
      if buf == null {
        bytesWritten := bytesWritten + size;
        WroteCounted(u, data.value);
        WroteBoth(s, u, State(), Then(tag, length), ok, data);
        return;
      }
      ok := EncodeItems(f, items, false);
      WroteBoth(s, u, State(), Then(tag, length), ok, data);
    }

    /** The length of packed data is known for fixed widths and found by a sizing stream otherwise. */
    method SizePacked(f: Field, items: seq<Val>) returns (ok: bool, size: nat)
      requires |items| <= SIZE_MAX && Packable(f.ltype)
      requires forall i: nat | i < |items| :: ShapedVal(f, items[i]) && SizedVal(f, items[i])
      ensures var data := EncItems(f, items, 0, false);
              (ok <==> data.Some?) && (ok ==> size == |data.value| && size < U64)
      decreases items, 3
    {
      hide ShapedVal, SizedVal, EncItems, Wrote;
      PackedSize(f, items, 0);
      ok := true;
      if f.ltype == Fixed32 {
        size := 4 * |items|;
      } else if f.ltype == Fixed64 {
        size := 8 * |items|;
      } else {
        var sizing := new Ostream(null, 0, 0);
        ghost var sizing0 := sizing.State();
        ok := sizing.EncodeItems(f, items, false);
        WroteSizing(sizing0, sizing.State(), ok, EncItems(f, items, 0, false));
        size := sizing.bytesWritten;
      }
    }

    /** encode_basic_field. */
    method EncodeField(f: Field, slot: Slot) returns (ok: bool)
      requires State().Valid() && ShapedSlot(f, slot) && SizedSlot(f, slot)
      modifies this`pos, this`bytesWritten, buf
      ensures Wrote(old(State()), State(), ok, EncField(f, slot))
      decreases slot, 4
    {
      hide ShapedVal, SizedVal, EncArray, Wrote, Tagged, ProtoDefaultVal;
      WroteNothing(State());
      match slot
      case Plain(v) =>
        if f.htype == Optional && ProtoDefaultVal(f, v) {
          return true;
        }
        ok := EncodeTagged(f, v);
      case Maybe(has, v) =>
        if !has {
          return true;
        }
        ok := EncodeTagged(f, v);
      case Many(items) => ok := EncodeArray(f, items);
      case OneOf(held) =>
        if held.None? {
          return true;
        }
        ok := EncodeTagged(f, held.value);
    }

    /** pb_encode. */
    method Encode(fields: seq<Field>, slots: seq<Slot>) returns (ok: bool)
      requires State().Valid() && Shaped(fields, slots) && Sized(fields, slots)
      modifies this`pos, this`bytesWritten, buf
      ensures Wrote(old(State()), State(), ok, Enc(fields, slots))
      decreases slots, 5
    {
      hide Wrote, ShapedSlot, SizedSlot, EncField, Then;
      ghost var s := State();
      ghost var done: seq<Byte> := [];
      WroteNothing(s);
      ThenUnit(Enc(fields, slots));
      for k := 0 to |slots|
        invariant Wrote(s, State(), true, Some(done)) && State().Valid()
        invariant Enc(fields, slots) == Then(Some(done), EncFrom(fields, slots, k))
      {
        ghost var t := State();
        ghost var head := EncField(fields[k], slots[k]);
        ghost var tail := EncFrom(fields, slots, k + 1);
        ok := EncodeField(fields[k], slots[k]);
        WroteBoth(s, t, State(), Some(done), ok, head);
        ThenAssociates(Some(done), head, tail);
        if !ok {
          WroteFails(s, State(), Then(Some(done), head), tail);
          return;
        }
        WroteSome(t, State(), head);
        WroteValid(t, State(), ok, head);
        done := done + head.value;
      }
      ThenUnit(Some(done));
      return true;
    }
  }

  /** pb_get_encoded_size: a sizing stream succeeds exactly when the message can be encoded, and
      counts its bytes. */
  method GetEncodedSize(fields: seq<Field>, slots: seq<Slot>) returns (size: Option<nat>)
    requires Shaped(fields, slots) && Sized(fields, slots)
    ensures size == if Enc(fields, slots).Some? then Some(|Enc(fields, slots).value|) else None
  {
    hide Shaped, Sized, Enc;
    var stream := new Ostream(null, 0, 0);
    var ok := stream.Encode(fields, slots);
    if !ok {
      return None;
    }
    return Some(stream.bytesWritten);
  }

  /** pb_encode into a buffer: it succeeds exactly when the buffer is at least as large as
      pb_get_encoded_size says, and then the buffer starts with the encoding and is unchanged after
      it; on failure too nothing past the bytes counted is touched. */
  method EncodeToBuffer(buf: array<Byte>, fields: seq<Field>, slots: seq<Slot>) returns (ok: bool, n: nat)
    requires Shaped(fields, slots) && Sized(fields, slots)
    modifies buf
    ensures ok <==> Enc(fields, slots).Some? && |Enc(fields, slots).value| <= buf.Length
    ensures ok ==> n == |Enc(fields, slots).value| && buf[..n] == Enc(fields, slots).value
    ensures n <= buf.Length && buf[n..] == old(buf[n..])
  {
    hide Shaped, Sized, Enc;
    var stream := new Ostream(buf, 0, buf.Length);
    ok := stream.Encode(fields, slots);
    n := stream.bytesWritten;
  }
}
