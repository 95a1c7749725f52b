/** The Protocol Buffers wire format as nanopb writes and reads it: base-128 varints, zig-zag, little-endian
    fixed-width values, tags and length prefixes, and the readers that take them back. The 32-bit reader
    has its own checks of the fifth byte and of the sign bytes behind it; the 64-bit reader gives up after
    ten bytes. */
module PbWire {
  import opened Common

  const U32: nat := 0x1_0000_0000
  const U64: nat := 0x1_0000_0000_0000_0000
  const S63: int := 0x8000_0000_0000_0000

  function Pow2(k: nat): (p: nat)
    ensures p > 0
  {
    if k == 0 then 1 else 2 * Pow2(k - 1)
  }

  /** `b << k`, before it is cut to a word. */
  function Shifted(b: nat, k: nat): nat {
    b * Pow2(k)
  }

  // Encoding.

  /** The bytes of pb_encode_varint: seven bits at a time, low bits first, the top bit set on all
      but the last. */
  function VarintBytes(n: nat): (b: seq<Byte>)
    ensures |b| >= 1
  {
    if n <= 0x7f then [n] else [n % 0x80 + 0x80] + VarintBytes(n / 0x80)
  }

  /** (uint64_t)v of an int64_t. */
  function Unsigned64(v: int): (n: nat)
    requires -S63 <= v < S63
    ensures n < U64
  {
    if v < 0 then v + U64 else v
  }

  /** (int64_t)n of a uint64_t. */
  function Signed64(n: nat): (v: int)
    requires n < U64
    ensures -S63 <= v < S63
  {
    if n >= S63 then n - U64 else n
  }

  function Not64(n: nat): nat
    requires n < U64
  {
    U64 - 1 - n
  }

  /** The zig-zag step of pb_encode_svarint. */
  function ZigZag(v: int): (n: nat)
    requires -S63 <= v < S63
    ensures n < U64
  {
    if v < 0 then Not64(Unsigned64(v) * 2 % U64) else Unsigned64(v) * 2 % U64
  }

  /** The inverse step of pb_decode_svarint. */
  function UnZigZag(n: nat): (v: int)
    requires n < U64
    ensures -S63 <= v < S63
  {
    if n % 2 == 1 then Signed64(Not64(n / 2)) else Signed64(n / 2)
  }

  /** Zig-zag keeps small magnitudes small and loses nothing, in either direction. */
  lemma ZigZagRoundTrip(v: int, n: nat)
    requires -S63 <= v < S63 && n < U64
    ensures UnZigZag(ZigZag(v)) == v && ZigZag(UnZigZag(n)) == n
    ensures ZigZag(v) == if v < 0 then -2 * v - 1 else 2 * v
  {
    ZigZagValue(v);
    hide ZigZag;
    UnZigZagValue(n);
    UnZigZagValue(ZigZag(v));
    ZigZagValue(UnZigZag(n));
  }

  lemma ZigZagValue(v: int)
    requires -S63 <= v < S63
    ensures ZigZag(v) == if v < 0 then -2 * v - 1 else 2 * v
  {
  }

  lemma UnZigZagValue(n: nat)
    requires n < U64
    ensures UnZigZag(n) == if n % 2 == 1 then -(n / 2) - 1 else n / 2
  {
  }

  /** The low `width` bytes of `n`, least significant first. */
  function LittleEndian(n: nat, width: nat): (b: seq<Byte>)
    ensures |b| == width
  {
    if width == 0 then [] else [n % 256] + LittleEndian(n / 256, width - 1)
  }

  function FromLittleEndian(b: seq<Byte>): (n: nat) {
    if b == [] then 0 else b[0] + 256 * FromLittleEndian(b[1..])
  }

  lemma {:induction false} LittleEndianRoundTrip(n: nat, width: nat)
    requires n < Pow256(width)
    ensures FromLittleEndian(LittleEndian(n, width)) == n
  {
    if width > 0 {
      LittleEndianRoundTrip(n / 256, width - 1);
      assert LittleEndian(n, width)[1..] == LittleEndian(n / 256, width - 1);
    }
  }

  // Decoding. Each function takes the bytes left and yields a value and the bytes after it.

  datatype Read<+T> = Fail | Got(value: T, rest: seq<Byte>)

  /** pb_decode_varint's loop, with the bits collected so far. A byte at bit 63 contributes its
      lowest bit only, and an eleventh byte is an overflow. */
  function ReadVarintFrom(s: seq<Byte>, bitpos: nat, result: nat): (r: Read<nat>)
    requires result < U64
    ensures r.Got? ==> r.value < U64 && |r.rest| < |s|
    decreases |s|
  {
    if bitpos >= 64 || s == [] then Fail
    else
      var next := (result + Shifted(s[0] % 0x80, bitpos)) % U64;
      if s[0] >= 0x80 then ReadVarintFrom(s[1..], bitpos + 7, next) else Got(next, s[1..])
  }

  function ReadVarint(s: seq<Byte>): (r: Read<nat>)
    ensures r.Got? ==> r.value < U64 && |r.rest| < |s|
  {
    ReadVarintFrom(s, 0, 0)
  }

  /** `result | b << bitpos` on 32 bits. */
  function OrShifted(result: nat, b: nat, bitpos: nat): (r: nat)
    requires result < U32 && b < 0x80 && bitpos < 32
    ensures r < U32
  {
    if result < Pow2(bitpos) then (result + Shifted(b, bitpos)) % U32
    else ((result as bv32) | ((b as bv32) << bitpos)) as nat
  }

  /** The loop of pb_decode_varint32_eof after the first byte. The bit position is an 8-bit
      counter; bytes past bit 32 must be zero bits or sign extension. */
  function ReadVarint32From(s: seq<Byte>, bitpos: nat, result: nat): (r: Read<nat>)
    requires result < U32 && bitpos < 256
    ensures r.Got? ==> r.value < U32 && |r.rest| < |s|
    decreases |s|
  {
    if s == [] then Fail
    else
      var b := s[0];
      var signExtension := if bitpos < 63 then 0xff else 0x01;
      if bitpos >= 32 && b % 0x80 != 0 && (result < 0x8000_0000 || b != signExtension) then Fail
      else
        var next := if bitpos >= 32 then result else OrShifted(result, b % 0x80, bitpos);
        var nextPos := (bitpos + 7) % 256;
        if b >= 0x80 then ReadVarint32From(s[1..], nextPos, next)
        else if nextPos == 35 && b / 16 % 8 != 0 then Fail
        else Got(next, s[1..])
  }

  /** pb_decode_varint32. */
  function ReadVarint32(s: seq<Byte>): (r: Read<nat>)
    ensures r.Got? ==> r.value < U32 && |r.rest| < |s|
  {
    if s == [] then Fail
    else if s[0] < 0x80 then Got(s[0], s[1..])
    else ReadVarint32From(s[1..], 7, s[0] % 0x80)
  }

  lemma OrShiftedLow(result: nat, b: nat, bitpos: nat)
    requires result < Pow2(bitpos) && b < 0x80 && bitpos < 32 && result + Shifted(b, bitpos) < U32
    ensures OrShifted(result, b, bitpos) == result + Shifted(b, bitpos)
  {
    hide Shifted;
  }

  // Round trips.

  lemma {:induction false} Pow2Adds(a: nat, b: nat)
    ensures Pow2(a + b) == Pow2(a) * Pow2(b)
  {
    if a > 0 {
      Pow2Adds(a - 1, b);
      MulAssoc(2, Pow2(a - 1), Pow2(b));
    }
  }

  lemma MulAssoc(a: nat, b: nat, c: nat)
    ensures a * b * c == a * (b * c)
  {
  }

  lemma MulLe(a: nat, b: nat, p: nat)
    requires a <= b
    ensures a * p <= b * p
  {
  }

  lemma Pow2Seven(k: nat)
    ensures Pow2(k + 7) == 0x80 * Pow2(k)
  {
    assert Pow2(k + 1) == 2 * Pow2(k);
    assert Pow2(k + 2) == 4 * Pow2(k);
    assert Pow2(k + 3) == 8 * Pow2(k);
    assert Pow2(k + 4) == 16 * Pow2(k);
    assert Pow2(k + 5) == 32 * Pow2(k);
    assert Pow2(k + 6) == 64 * Pow2(k);
  }

  lemma {:induction false} Pow2Grows(a: nat, b: nat)
    requires a <= b
    ensures Pow2(a) <= Pow2(b)
  {
    if a < b {
      Pow2Grows(a, b - 1);
    }
  }

  lemma Pow2Values()
    ensures Pow2(7) == 0x80 && Pow2(14) == 0x4000 && Pow2(21) == 0x20_0000 && Pow2(28) == 0x1000_0000
    ensures Pow2(32) == U32 && Pow2(64) == U64
  {
    Pow2Seven(0);
    Pow2Seven(7);
    Pow2Seven(14);
    Pow2Seven(21);
    assert Pow2(29) == 2 * Pow2(28);
    assert Pow2(30) == 4 * Pow2(28);
    assert Pow2(31) == 8 * Pow2(28);
    Pow2Adds(32, 32);
  }

  /** Splitting a number at its low seven bits, shifted. */
  lemma ShiftedSplit(n: nat, k: nat)
    ensures Shifted(n, k) == Shifted(n % 0x80, k) + Shifted(n / 0x80, k + 7)
  {
    Pow2Seven(k);
    var q, r, p := n / 0x80, n % 0x80, Pow2(k);
    assert n == 0x80 * q + r;
    assert (0x80 * q + r) * p == 0x80 * q * p + r * p;
    assert 0x80 * q * p == q * (0x80 * p);
  }

  /** Seven more bits stay below the next bit position. */
  lemma ShiftedLow(b: nat, k: nat, result: nat)
    requires b < 0x80 && result < Pow2(k)
    ensures result + Shifted(b, k) < Pow2(k + 7)
  {
    Pow2Seven(k);
    MulLe(b, 0x7f, Pow2(k));
  }

  /** A shifted value that fits 64 bits still fits with anything below its bit position. */
  lemma ShiftedFits(n: nat, k: nat, result: nat)
    requires k < 64 && Shifted(n, k) < U64 && result < Pow2(k)
    ensures result + Shifted(n, k) < U64
  {
    Pow2Adds(64 - k, k);
    Pow2Values();
    FitsAbove(n, Pow2(k), Pow2(64 - k), result);
  }

  lemma FitsAbove(n: nat, p: nat, q: nat, result: nat)
    requires n * p < q * p && result < p
    ensures result + n * p < q * p
  {
    if n >= q {
      MulLe(q, n, p);
    }
    MulLe(n + 1, q, p);
    assert (n + 1) * p == n * p + p;
  }

  /** The bit position of a value that fits 64 bits is below 64. */
  lemma PositionBound(n: nat, k: nat)
    requires n > 0 && Shifted(n, k) < U64
    ensures k < 64
  {
    if k >= 64 {
      Pow2Values();
      Pow2Grows(64, k);
      MulLe(1, n, Pow2(k));
    }
  }

  /** Reading back what is left of a varint adds it at its bit position. */
  lemma {:induction false} ReadVarintFromRoundTrip(n: nat, bitpos: nat, result: nat, rest: seq<Byte>)
    requires bitpos < 64 && result < Pow2(bitpos) && Shifted(n, bitpos) < U64 && result < U64
    ensures ReadVarintFrom(VarintBytes(n) + rest, bitpos, result) == Got(result + Shifted(n, bitpos), rest)
    decreases n
  {
    hide Pow2, Shifted, ReadVarintFrom;
    ShiftedFits(n, bitpos, result);
    if n <= 0x7f {
      ReadLastGroup(n, bitpos, result, rest);
    } else {
      ShiftedSplit(n, bitpos);
      ShiftedLow(n % 0x80, bitpos, result);
      PositionBound(n / 0x80, bitpos + 7);
      ReadNextGroup(n, bitpos, result, rest);
      ReadVarintFromRoundTrip(n / 0x80, bitpos + 7, result + Shifted(n % 0x80, bitpos), rest);
    }
  }

  lemma ReadLastGroup(n: nat, bitpos: nat, result: nat, rest: seq<Byte>)
    requires n <= 0x7f && bitpos < 64 && result + Shifted(n, bitpos) < U64
    ensures ReadVarintFrom(VarintBytes(n) + rest, bitpos, result) == Got(result + Shifted(n, bitpos), rest)
  {
    hide Shifted;
    assert (VarintBytes(n) + rest)[1..] == rest;
  }

  lemma ReadNextGroup(n: nat, bitpos: nat, result: nat, rest: seq<Byte>)
    requires n > 0x7f && bitpos < 64 && result + Shifted(n % 0x80, bitpos) < U64
    ensures ReadVarintFrom(VarintBytes(n) + rest, bitpos, result)
         == ReadVarintFrom(VarintBytes(n / 0x80) + rest, bitpos + 7, result + Shifted(n % 0x80, bitpos))
  {
    hide Shifted;
    assert (VarintBytes(n) + rest)[1..] == VarintBytes(n / 0x80) + rest;
  }

  /** pb_decode_varint undoes pb_encode_varint on every 64-bit value. */
  lemma VarintRoundTrip(n: nat, rest: seq<Byte>)
    requires n < U64
    ensures ReadVarint(VarintBytes(n) + rest) == Got(n, rest)
  {
    assert Pow2(0) == 1 && Shifted(n, 0) == n;
    ReadVarintFromRoundTrip(n, 0, 0, rest);
  }

  /** The quick case aside, the loop starts at bit seven. */
  lemma AfterFirstByte(n: nat, rest: seq<Byte>)
    requires n > 0x7f
    ensures ReadVarint32(VarintBytes(n) + rest) == ReadVarint32From(VarintBytes(n / 0x80) + rest, 7, n % 0x80)
    ensures n % 0x80 < Pow2(7) && n == n % 0x80 + Shifted(n / 0x80, 7)
  {
    hide ReadVarint32From;
    Pow2Values();
    assert (VarintBytes(n) + rest)[1..] == VarintBytes(n / 0x80) + rest;
  }

  /** pb_decode_varint32 undoes pb_encode_varint on every 32-bit value. */
  lemma Varint32RoundTrip(n: nat, rest: seq<Byte>)
    requires n < U32
    ensures ReadVarint32(VarintBytes(n) + rest) == Got(n, rest)
  {
    if n <= 0x7f {
      assert (VarintBytes(n) + rest)[1..] == rest;
    } else {
      hide ReadVarint32, ReadVarint32From, Shifted, Pow2;
      AfterFirstByte(n, rest);
      ReadVarint32FromRoundTrip(n / 0x80, 7, n % 0x80, rest);
    }
  }

  /** Reading back what is left of a varint whose value fits 32 bits. */
  lemma {:induction false} ReadVarint32FromRoundTrip(n: nat, bitpos: nat, result: nat, rest: seq<Byte>)
    requires bitpos == 7 || bitpos == 14 || bitpos == 21 || bitpos == 28
    requires n > 0 && result < Pow2(bitpos) && result + Shifted(n, bitpos) < U32 && result < U32
    ensures ReadVarint32From(VarintBytes(n) + rest, bitpos, result) == Got(result + Shifted(n, bitpos), rest)
    decreases n
  {
    hide Pow2, Shifted, OrShifted;
    var s := VarintBytes(n) + rest;
    if n <= 0x7f {
      assert s[1..] == rest;
      TopByteFits(n, bitpos);
      OrShiftedLow(result, n, bitpos);
    } else {
      ShiftedSplit(n, bitpos);
      ShiftedLow(n % 0x80, bitpos, result);
      assert s[1..] == VarintBytes(n / 0x80) + rest;
      NotLast(n / 0x80, bitpos);
      OrShiftedLow(result, n % 0x80, bitpos);
      ReadVarint32FromRoundTrip(n / 0x80, bitpos + 7, result + Shifted(n % 0x80, bitpos), rest);
    }
  }

  /** A byte at bit 28 of a 32-bit value has its upper bits clear. */
  lemma TopByteFits(n: nat, bitpos: nat)
    requires n < 0x80 && Shifted(n, bitpos) < U32
    ensures bitpos == 28 ==> n / 16 % 8 == 0
  {
    if bitpos == 28 {
      Pow2Values();
      assert n * 0x1000_0000 < U32;
    }
  }

  lemma NotLast(n: nat, bitpos: nat)
    requires n > 0 && Shifted(n, bitpos + 7) < U32
    ensures bitpos != 28
  {
    if bitpos == 28 {
      Pow2Values();
      Pow2Seven(28);
      MulLe(1, n, Pow2(35));
    }
  }

  // Sign-extended negative values.

  const S31: nat := 0x8000_0000

  lemma SignBytes(rest: seq<Byte>)
    ensures VarintBytes(0x1fff_ffff) + rest == [0xff] + ([0xff] + ([0xff] + ([0xff] + ([1] + rest))))
  {
    assert VarintBytes(1) == [1];
    assert VarintBytes(0xff) == [0xff] + [1];
    assert VarintBytes(0x7fff) == [0xff] + ([0xff] + [1]);
    assert VarintBytes(0x3f_ffff) == [0xff] + ([0xff] + ([0xff] + [1]));
  }

  /** The four full bytes and the last bit that sign extension ends with. */
  lemma ReadSignTail(result: nat, rest: seq<Byte>)
    requires S31 <= result < U32
    ensures ReadVarint32From(VarintBytes(0x1fff_ffff) + rest, 35, result) == Got(result, rest)
  {
    hide ReadVarint32From, VarintBytes;
    var t := [1] + rest;
    SignBytes(rest);
    LastSignBit(result, rest);
    SignByte(t, 56, result);
    SignByte([0xff] + t, 49, result);
    SignByte([0xff] + ([0xff] + t), 42, result);
    SignByte([0xff] + ([0xff] + ([0xff] + t)), 35, result);
  }

  lemma LastSignBit(result: nat, rest: seq<Byte>)
    requires S31 <= result < U32
    ensures ReadVarint32From([1] + rest, 63, result) == Got(result, rest)
  {
    assert ([1] + rest)[1..] == rest;
  }

  lemma SignByte(t: seq<Byte>, bitpos: nat, result: nat)
    requires 32 <= bitpos < 63 && S31 <= result < U32
    ensures ReadVarint32From([0xff] + t, bitpos, result) == ReadVarint32From(t, bitpos + 7, result)
  {
    hide OrShifted;
    assert ([0xff] + t)[1..] == t;
  }

  lemma {:induction false} ReadSignedFrom(n: nat, bitpos: nat, result: nat, rest: seq<Byte>)
    requires bitpos == 7 || bitpos == 14 || bitpos == 21 || bitpos == 28
    requires result < Pow2(bitpos) && result < U32 && U64 - S31 <= result + Shifted(n, bitpos) < U64
    ensures ReadVarint32From(VarintBytes(n) + rest, bitpos, result)
         == Got(result + Shifted(n, bitpos) - (U64 - U32), rest)
    decreases n
  {
    hide Pow2, Shifted, OrShifted, ReadVarint32From;
    if bitpos == 28 {
      ReadTopSigned(n, result, rest);
    } else {
      ManyBits(n, bitpos, result);
      LowByteSigned(n, bitpos, result);
      ReadLowByte(n, bitpos, result, rest);
      ReadSignedFrom(n / 0x80, bitpos + 7, result + Shifted(n % 0x80, bitpos), rest);
    }
  }

  lemma ReadLowByte(n: nat, bitpos: nat, result: nat, rest: seq<Byte>)
    requires bitpos <= 21 && n > 0x7f && result < U32
    ensures ReadVarint32From(VarintBytes(n) + rest, bitpos, result)
         == ReadVarint32From(VarintBytes(n / 0x80) + rest, bitpos + 7, OrShifted(result, n % 0x80, bitpos))
  {
    hide OrShifted;
    assert (VarintBytes(n) + rest)[1..] == VarintBytes(n / 0x80) + rest;
  }

  lemma ReadTopSigned(n: nat, result: nat, rest: seq<Byte>)
    requires result < Pow2(28) && result < U32 && U64 - S31 <= result + Shifted(n, 28) < U64
    ensures ReadVarint32From(VarintBytes(n) + rest, 28, result)
         == Got(result + Shifted(n, 28) - (U64 - U32), rest)
  {
    hide Pow2, Shifted, OrShifted;
    ManyBits(n, 28, result);
    assert (VarintBytes(n) + rest)[1..] == VarintBytes(n / 0x80) + rest;
    TopByteSigned(n, result);
    ReadSignTail(OrShifted(result, n % 0x80, 28), rest);
  }

  lemma LowByteSigned(n: nat, bitpos: nat, result: nat)
    requires bitpos <= 21 && result < Pow2(bitpos) && result < U32
    ensures OrShifted(result, n % 0x80, bitpos) == result + Shifted(n % 0x80, bitpos) < Pow2(bitpos + 7) <= Pow2(28)
    ensures Pow2(28) < U32 && Shifted(n, bitpos) == Shifted(n % 0x80, bitpos) + Shifted(n / 0x80, bitpos + 7)
  {
    hide Pow2, Shifted, OrShifted;
    ShiftedSplit(n, bitpos);
    ShiftedLow(n % 0x80, bitpos, result);
    Pow2Grows(bitpos + 7, 28);
    Pow2Values();
    OrShiftedLow(result, n % 0x80, bitpos);
  }

  lemma ManyBits(n: nat, bitpos: nat, result: nat)
    requires bitpos <= 28 && result < U32 && U64 - S31 <= result + Shifted(n, bitpos)
    ensures n > 0x7f
  {
    Pow2Values();
    Pow2Grows(bitpos, 28);
    if n <= 0x7f {
      MulLe(n, 0x7f, Pow2(bitpos));
    }
  }

  /** The byte at bit 28: its lower half completes the value, its upper half begins the sign. */
  lemma TopByteSigned(n: nat, result: nat)
    requires result < Pow2(28) && U64 - S31 <= result + Shifted(n, 28) < U64
    ensures n / 0x80 == 0x1fff_ffff && result < U32
    ensures OrShifted(result, n % 0x80, 28) == result + Shifted(n, 28) - (U64 - U32)
    ensures OrShifted(result, n % 0x80, 28) >= S31
  {
    Pow2Values();
    assert 0xf_ffff_fff8 <= n < 0x10_0000_0000;
  }

  lemma SignedRoundTrip(n: nat, rest: seq<Byte>)
    requires U64 - S31 <= n < U64
    ensures ReadVarint32(VarintBytes(n) + rest) == Got(n - (U64 - U32), rest)
  {
    hide ReadVarint32, ReadVarint32From, Shifted, Pow2, VarintBytes;
    AfterFirstByte(n, rest);
    ReadSignedFrom(n / 0x80, 7, n % 0x80, rest);
  }

  lemma LowWord(n: nat)
    requires U64 - S31 <= n < U64
    ensures n % U32 == n - (U64 - U32)
  {
    assert n == 0xffff_ffff * U32 + (n - (U64 - U32));
  }

  /** The 32-bit reader agrees with the 64-bit one on every varint of a 32-bit value, unsigned or
      sign-extended: it reads the value's low 32 bits. */
  lemma VarintReadersAgree(n: nat, rest: seq<Byte>)
    requires n < U32 || U64 - S31 <= n < U64
    ensures ReadVarint(VarintBytes(n) + rest) == Got(n, rest)
    ensures ReadVarint32(VarintBytes(n) + rest) == Got(n % U32, rest)
  {
    hide ReadVarint, ReadVarint32, VarintBytes;
    VarintRoundTrip(n, rest);
    if n < U32 {
      Varint32RoundTrip(n, rest);
    } else {
      SignedRoundTrip(n, rest);
      LowWord(n);
    }
  }
}
