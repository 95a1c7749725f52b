/** The bytes of the wire format told without the encoder: what number a varint is, which key a field is
    written under, in which order fields come and which are left out. */
module PbFormat {
  import opened Common
  import opened PbWire
  import opened PbSchema
  import opened PbEncode
  import opened PbDecode

  // Varints.

  /** The number whose base-128 digits the bytes carry, the first digit counting least. */
  function Digits(b: seq<Byte>): (n: nat) {
    if b == [] then 0 else b[0] % 0x80 + 0x80 * Digits(b[1..])
  }

  /** Every byte but the last says that another follows. */
  predicate Continues(b: seq<Byte>) {
    b != [] && b[|b| - 1] < 0x80 && forall i: nat | i < |b| - 1 :: b[i] >= 0x80
  }

  /** A varint carries its number in base 128, and no digit too many. */
  lemma {:induction false} VarintIs(n: nat)
    ensures var b := VarintBytes(n);
            Digits(b) == n && Continues(b) && (n > 0 ==> b[|b| - 1] != 0)
    decreases n
  {
    hide Digits, Continues;
    if n > 0x7f {
      VarintIs(n / 0x80);
      OneMoreDigit(n % 0x80 + 0x80, VarintBytes(n / 0x80));
    } else {
      OneDigit(n);
    }
  }

  lemma OneDigit(n: Byte)
    requires n < 0x80
    ensures Digits([n]) == n && Continues([n])
  {
    assert [n][1..] == [];
  }

  lemma OneMoreDigit(first: Byte, b: seq<Byte>)
    requires first >= 0x80 && Continues(b)
    ensures Digits([first] + b) == first % 0x80 + 0x80 * Digits(b) && Continues([first] + b)
  {
    assert ([first] + b)[1..] == b;
  }

  /** Where the first byte is that ends a varint. */
  function EndOf(s: seq<Byte>): (k: nat)
    ensures k <= |s| && (forall i: nat | i < k :: s[i] >= 0x80) && (k < |s| ==> s[k] < 0x80)
  {
    if s == [] || s[0] < 0x80 then 0 else 1 + EndOf(s[1..])
  }

  lemma {:induction false} ReadVarintFromIs(s: seq<Byte>, j: nat, result: nat)
    requires j <= 10 && result < U64
    ensures var k := EndOf(s);
            ReadVarintFrom(s, 7 * j, result) ==
            if k == |s| || j + k >= 10 then Fail
            else Got((result + Shifted(Digits(s[..k + 1]), 7 * j)) % U64, s[k + 1..])
    decreases |s|
  {
    hide Shifted;
    if s != [] && j < 10 {
      var next := (result + Shifted(s[0] % 0x80, 7 * j)) % U64;
      if s[0] >= 0x80 {
        ReadVarintFromIs(s[1..], j + 1, next);
        var k := EndOf(s[1..]);
        if k < |s[1..]| {
          assert s[..k + 2][1..] == s[1..][..k + 1] && s[k + 2..] == s[1..][k + 1..];
          DigitShifts(s[0] % 0x80, Digits(s[1..][..k + 1]), 7 * j);
          ModAdds(result, Shifted(s[0] % 0x80, 7 * j), Shifted(Digits(s[1..][..k + 1]), 7 * j + 7));
        }
      } else {
        assert s[..1][1..] == [] && Digits(s[..1]) == s[0] % 0x80 + 0x80 * Digits([]);
      }
    }
  }

  lemma DigitShifts(low: nat, high: nat, k: nat)
    ensures Shifted(low + 0x80 * high, k) == Shifted(low, k) + Shifted(high, k + 7)
  {
    assert Pow2(k + 7) == 0x80 * Pow2(k) by {
      Pow2Seven(k);
    }
    assert (low + 0x80 * high) * Pow2(k) == low * Pow2(k) + high * (0x80 * Pow2(k));
  }

  lemma Pow2Seven(k: nat)
    ensures Pow2(k + 7) == 0x80 * Pow2(k)
  {
    assert Pow2(k + 7) == 2 * Pow2(k + 6) == 4 * Pow2(k + 5) == 8 * Pow2(k + 4);
    assert Pow2(k + 4) == 2 * Pow2(k + 3) == 4 * Pow2(k + 2) == 8 * Pow2(k + 1) == 16 * Pow2(k);
  }

  lemma ModAdds(a: nat, b: nat, c: nat)
    ensures ((a + b) % U64 + c) % U64 == (a + (b + c)) % U64
  {
  }

  /** The 64-bit reader on any input at all: the varint has to end within ten bytes, and its value is its
      digits, cut to 64 bits. */
  lemma ReadVarintIs(s: seq<Byte>)
    ensures var k := EndOf(s);
            ReadVarint(s) ==
            if k == |s| || k >= 10 then Fail else Got(Digits(s[..k + 1]) % U64, s[k + 1..])
  {
    hide ReadVarintFrom, Digits, EndOf, Shifted, Pow2;
    assert ReadVarint(s) == ReadVarintFrom(s, 7 * 0, 0);
    ReadVarintFromIs(s, 0, 0);
    if EndOf(s) < |s| {
      var n := Digits(s[..EndOf(s) + 1]);
      NotShifted(n);
      assert (0 + Shifted(n, 7 * 0)) % U64 == n % U64;
    }
  }

  lemma NotShifted(n: nat)
    ensures Shifted(n, 0) == n
  {
    assert Pow2(0) == 1;
  }

  /** The 32-bit reader takes no number of 33 to 63 bits for a smaller one. */
  lemma TooLargeFor32(n: nat, t: seq<Byte>)
    requires U32 <= n < S63
    ensures ReadVarint32(VarintBytes(n) + t) == Fail
  {
    hide ReadVarint32From;
    assert (VarintBytes(n) + t)[1..] == VarintBytes(n / 0x80) + t;
    LowRefused(n / 0x80, 7, n % 0x80, t);
  }

  /** What a number of 33 to 63 bits leaves from a bit position on. */
  predicate Above(n: nat, bitpos: nat) {
    match bitpos
    case 7 => 0x200_0000 <= n < 0x100_0000_0000_0000
    case 14 => 0x4_0000 <= n < 0x2_0000_0000_0000
    case 21 => 0x800 <= n < 0x400_0000_0000
    case 28 => 0x10 <= n < 0x8_0000_0000
    case 35 => 1 <= n < 0x1000_0000
    case 42 => 1 <= n < 0x20_0000
    case 49 => 1 <= n < 0x4000
    case 56 => 1 <= n < 0x80
    case _ => false
  }

  lemma {:induction false} LowRefused(n: nat, bitpos: nat, result: nat, t: seq<Byte>)
    requires bitpos <= 28 && Above(n, bitpos) && result < U32
    ensures ReadVarint32From(VarintBytes(n) + t, bitpos, result) == Fail
    decreases n
  {
    hide OrShifted;
    if n > 0x7f {
      var next := OrShifted(result, n % 0x80, bitpos);
      assert (VarintBytes(n) + t)[1..] == VarintBytes(n / 0x80) + t;
      if bitpos < 28 {
        LowRefused(n / 0x80, bitpos + 7, next, t);
      } else {
        HighRefused(n / 0x80, 35, next, t);
      }
    }
  }

  lemma {:induction false} HighRefused(n: nat, bitpos: nat, result: nat, t: seq<Byte>)
    requires bitpos >= 35 && Above(n, bitpos) && result < U32
    ensures ReadVarint32From(VarintBytes(n) + t, bitpos, result) == Fail
    decreases n
  {
    hide OrShifted;
    if n > 0x7f {
      assert (VarintBytes(n) + t)[1..] == VarintBytes(n / 0x80) + t;
      HighRefused(n / 0x80, bitpos + 7, result, t);
    }
  }

  /** The `i`-th base-128 digit. */
  function Group(n: nat, i: nat): (g: nat)
    ensures g < 0x80
  {
    if i == 0 then n % 0x80 else Group(n / 0x80, i - 1)
  }

  /** What is left, from group `i` on, of a number whose top bit is bit 63. */
  predicate TopBit(n: nat, i: nat) {
    match i
    case 5 => 0x1000_0000 <= n < 0x2000_0000
    case 6 => 0x20_0000 <= n < 0x40_0000
    case 7 => 0x4000 <= n < 0x8000
    case 8 => 0x80 <= n < 0x100
    case 9 => n == 1
    case _ => false
  }

  /** The groups from bit 35 to bit 62 have to be all zeros or all ones. */
  predicate SignGroups(n: nat, from: nat, end: nat) {
    forall i: nat | from <= i < end :: Group(n, i) in {0, 0x7f}
  }

  /** The 32-bit reader on numbers of 64 bits, which the wire format has for negative ones: it takes those with bit
      31 set and nothing but zeros or nothing but ones in each group that lies above bit 35. */
  lemma LongestFor32(n: nat, t: seq<Byte>)
    requires S63 <= n < U64
    ensures ReadVarint32(VarintBytes(n) + t) ==
            if n % U32 >= 0x8000_0000 && SignGroups(n, 5, 9) then Got(n % U32, t) else Fail
  {
    hide ReadVarint32, ReadVarint32From, Pow2, SignGroups;
    Pow2Values();
    AfterFirstByte(n, t);
    LowBits(n);
    LowGroup(n / 0x80, 7, n % 0x80, t);
    LowGroup(n / 0x4000, 14, n % 0x4000, t);
    LowGroup(n / 0x20_0000, 21, n % 0x20_0000, t);
    TopGroup(n / 0x1000_0000, n % 0x1000_0000, t);
    SignsAccepted(n / 0x8_0000_0000, 5, n % U32, t);
    GroupsFrom(n);
  }

  lemma LowBits(n: nat)
    ensures n / 0x80 / 0x80 == n / 0x4000 && n / 0x4000 / 0x80 == n / 0x20_0000
    ensures n / 0x20_0000 / 0x80 == n / 0x1000_0000 && n / 0x1000_0000 / 0x80 == n / 0x8_0000_0000
    ensures n % 0x80 + n / 0x80 % 0x80 * 0x80 == n % 0x4000
    ensures n % 0x4000 + n / 0x4000 % 0x80 * 0x4000 == n % 0x20_0000
    ensures n % 0x20_0000 + n / 0x20_0000 % 0x80 * 0x20_0000 == n % 0x1000_0000
    ensures (n % 0x1000_0000 + n / 0x1000_0000 % 0x80 * 0x1000_0000) % U32 == n % U32
  {
    Splits(n, 0x80);
    Splits(n, 0x4000);
    Splits(n, 0x20_0000);
    Splits(n, 0x1000_0000);
    Cut35(n);
  }

  lemma Cut35(n: nat)
    ensures n % 0x8_0000_0000 % U32 == n % U32
  {
  }

  /** One more base-128 digit above `d`. */
  lemma Splits(n: nat, d: nat)
    requires d > 0
    ensures n / d / 0x80 == n / (d * 0x80) && n % d + n / d % 0x80 * d == n % (d * 0x80)
  {
    var m := n / d;
    var q, r := m / 0x80, m % 0x80;
    Joins(n, d, 0x80, m, q, r, n % d);
    Below(d, 0x80, r, n % d);
    Quotient(n, d * 0x80, q, d * r + n % d);
  }

  lemma LowGroup(n: nat, bitpos: nat, result: nat, t: seq<Byte>)
    requires n > 0x7f && bitpos in {7, 14, 21} && result < Pow2(bitpos) && result < U32
    requires result + Shifted(n % 0x80, bitpos) < U32
    ensures ReadVarint32From(VarintBytes(n) + t, bitpos, result)
         == ReadVarint32From(VarintBytes(n / 0x80) + t, bitpos + 7, result + Shifted(n % 0x80, bitpos))
  {
    hide Pow2, Shifted, OrShifted;
    OrShiftedLow(result, n % 0x80, bitpos);
    assert (VarintBytes(n) + t)[1..] == VarintBytes(n / 0x80) + t;
  }

  lemma TopGroup(n: nat, result: nat, t: seq<Byte>)
    requires n > 0x7f && result < 0x1000_0000
    ensures ReadVarint32From(VarintBytes(n) + t, 28, result)
         == ReadVarint32From(VarintBytes(n / 0x80) + t, 35, (result + n % 0x80 * 0x1000_0000) % U32)
  {
    hide OrShifted;
    OrShiftedTop(result, n % 0x80);
    assert (VarintBytes(n) + t)[1..] == VarintBytes(n / 0x80) + t;
  }

  lemma OrShiftedTop(result: nat, b: nat)
    requires result < 0x1000_0000 && b < 0x80
    ensures OrShifted(result, b, 28) == (result + b * 0x1000_0000) % U32
  {
    hide Pow2;
    Pow2Values();
  }

  lemma {:induction false} SignsAccepted(n: nat, i: nat, result: nat, t: seq<Byte>)
    requires 5 <= i <= 9 && TopBit(n, i) && result < U32
    ensures ReadVarint32From(VarintBytes(n) + t, 7 * i, result) ==
            if result >= 0x8000_0000 && SignGroups(n, 0, 9 - i) then Got(result, t) else Fail
    decreases 9 - i
  {
    hide OrShifted;
    if i < 9 {
      assert (VarintBytes(n) + t)[1..] == VarintBytes(n / 0x80) + t;
      SignsAccepted(n / 0x80, i + 1, result, t);
      NextGroups(n, 9 - i);
    } else {
      assert (VarintBytes(n) + t)[1..] == t;
    }
  }

  lemma NextGroups(n: nat, end: nat)
    requires end > 0
    ensures SignGroups(n, 0, end) <==> n % 0x80 in {0, 0x7f} && SignGroups(n / 0x80, 0, end - 1)
  {
    assert Group(n, 0) == n % 0x80;
    forall i: nat ensures Group(n, i + 1) == Group(n / 0x80, i) {
      NextGroup(n, i);
    }
    hide Group;
    if SignGroups(n, 0, end) {
      forall i: nat | i < end - 1 ensures Group(n / 0x80, i) in {0, 0x7f} {
        assert Group(n, i + 1) in {0, 0x7f};
      }
    }
    if n % 0x80 in {0, 0x7f} && SignGroups(n / 0x80, 0, end - 1) {
      forall i: nat | i < end ensures Group(n, i) in {0, 0x7f} {
        if i > 0 {
          assert Group(n, i - 1 + 1) == Group(n / 0x80, i - 1);
        }
      }
    }
  }

  lemma GroupsFrom(n: nat)
    ensures SignGroups(n, 5, 9) <==> SignGroups(n / 0x8_0000_0000, 0, 4)
  {
    hide Group;
    if SignGroups(n, 5, 9) {
      forall i: nat | i < 4 ensures Group(n / 0x8_0000_0000, i) in {0, 0x7f} {
        FifthOn(n, i);
        assert Group(n, i + 5) in {0, 0x7f};
      }
    }
    if SignGroups(n / 0x8_0000_0000, 0, 4) {
      forall i: nat | 5 <= i < 9 ensures Group(n, i) in {0, 0x7f} {
        FifthOn(n, i - 5);
      }
    }
  }

  lemma FifthOn(n: nat, i: nat)
    ensures Group(n, i + 5) == Group(n / 0x8_0000_0000, i)
  {
    hide Group;
    LowBits(n);
    NextGroup(n, i + 4);
    NextGroup(n / 0x80, i + 3);
    NextGroup(n / 0x4000, i + 2);
    NextGroup(n / 0x20_0000, i + 1);
    NextGroup(n / 0x1000_0000, i);
  }

  lemma NextGroup(n: nat, i: nat)
    ensures Group(n, i + 1) == Group(n / 0x80, i)
  {
  }

  // Fixed widths.

  /** Byte `i` of a fixed-width number is its `i`-th base-256 digit. */
  lemma {:induction false} LittleEndianDigit(n: nat, width: nat, i: nat)
    requires i < width
    ensures LittleEndian(n, width)[i] == n / Pow256(i) % 256
  {
    if i == 0 {
      assert n / Pow256(0) == n;
    } else {
      LittleEndianDigit(n / 256, width - 1, i - 1);
      DivDiv(n, 256, Pow256(i - 1));
    }
  }

  lemma DivDiv(n: nat, a: nat, b: nat)
    requires a > 0 && b > 0
    ensures a * b > 0 && n / a / b == n / (a * b)
  {
    var m := n / a;
    var q, r := m / b, m % b;
    Joins(n, a, b, m, q, r, n % a);
    Below(a, b, r, n % a);
    Quotient(n, a * b, q, a * r + n % a);
  }

  lemma Joins(n: nat, a: nat, b: nat, m: nat, q: nat, r: nat, s: nat)
    requires n == a * m + s && m == b * q + r
    ensures n == (a * b) * q + (a * r + s)
  {
  }

  lemma Below(a: nat, b: nat, r: nat, s: nat)
    requires r < b && s < a
    ensures a * r + s < a * b
  {
    MulUp(a, r + 1, b);
  }

  lemma MulUp(a: nat, b: nat, c: nat)
    requires b <= c
    ensures a * b <= a * c
  {
  }

  lemma Quotient(n: nat, d: nat, q: nat, r: nat)
    requires d > 0 && n == d * q + r && r < d
    ensures n / d == q && n % d == r
  {
    if n / d < q {
      MulUp(d, n / d + 1, q);
      assert false;
    } else if n / d > q {
      MulUp(d, q + 1, n / d);
      assert false;
    }
  }

  // Keys.

  /** What follows the bytes of a key: everything else of the field. */
  predicate StartsWithKey(b: seq<Byte>, tag: nat, wireType: nat) {
    var key := VarintBytes(8 * tag + wireType);
    key <= b
  }

  /** Each value is written under the key of its type: 0 for numbers written as varints, 1 for eight bytes, 5
      for four, 2 for all that has a length. */
  lemma KeysOnTheWire(f: Field, v: Val, b: seq<Byte>)
    requires ShapedVal(f, v) && Tagged(f, v) == Some(b)
    ensures f.ltype in {Varint, UVarint, SVarint} ==> StartsWithKey(b, f.tag, 0)
    ensures f.ltype == Fixed64 ==> StartsWithKey(b, f.tag, 1) && |b| == |VarintBytes(8 * f.tag + 1)| + 8
    ensures f.ltype in {Bytes, String, FixedLengthBytes, Submessage} ==> StartsWithKey(b, f.tag, 2)
    ensures f.ltype == Fixed32 ==> StartsWithKey(b, f.tag, 5) && |b| == |VarintBytes(8 * f.tag + 5)| + 4
  {
    hide EncVal, VarintBytes;
    if f.ltype == Fixed32 || f.ltype == Fixed64 {
      FixedLength(f, v);
    }
  }

  lemma FixedLength(f: Field, v: Val)
    requires ShapedVal(f, v) && (f.ltype == Fixed32 || f.ltype == Fixed64)
    ensures EncVal(f, v).Some? && |EncVal(f, v).value| == if f.ltype == Fixed32 then 4 else 8
  {
  }

  /** What is written of a number: of a negative one as 64 bits in two's complement or, zig-zag, as twice its
      distance from minus one, plus one. */
  lemma NumbersOnTheWire(f: Field, v: Val, b: seq<Byte>)
    requires ShapedVal(f, v) && EncVal(f, v) == Some(b)
    ensures f.ltype in {Varint, UVarint, SVarint} ==> Continues(b)
    ensures f.ltype in {Varint, UVarint} ==> Digits(b) == if v.n >= 0 then v.n else v.n + U64
    ensures f.ltype == SVarint ==> Digits(b) == if v.n >= 0 then 2 * v.n else -2 * v.n - 1
    ensures f.ltype == Fixed32 ==> |b| == 4 && forall i: nat | i < 4 :: b[i] == v.bits / Pow256(i) % 256
    ensures f.ltype == Fixed64 ==> |b| == 8 && forall i: nat | i < 8 :: b[i] == v.bits / Pow256(i) % 256
  {
    hide VarintBytes, LittleEndian, ZigZag, Pow256, Digits, Continues;
    if f.ltype in {Varint, UVarint, SVarint} {
      assert InSigned(v.n, f.dataSize) || InUnsigned(v.n, f.dataSize);
      if f.ltype == SVarint {
        ZigZagValue(v.n);
        VarintIs(ZigZag(v.n));
      } else {
        VarintIs(if v.n >= 0 then v.n else v.n + U64);
      }
    } else if f.ltype == Fixed32 {
      forall i: nat | i < 4 ensures b[i] == v.bits / Pow256(i) % 256 {
        LittleEndianDigit(v.bits, 4, i);
      }
    } else if f.ltype == Fixed64 {
      forall i: nat | i < 8 ensures b[i] == v.bits / Pow256(i) % 256 {
        LittleEndianDigit(v.bits, 8, i);
      }
    }
  }

  /** What has a length is written as its length and then its bytes. */
  lemma LengthsOnTheWire(f: Field, v: Val, b: seq<Byte>)
    requires ShapedVal(f, v) && EncVal(f, v) == Some(b)
    ensures f.ltype in {Bytes, String, FixedLengthBytes} ==> b == VarintBytes(|v.bytes|) + v.bytes
    ensures f.ltype == Submessage ==>
              exists inner: seq<Byte> :: Enc(f.sub, v.slots) == Some(inner) && b == VarintBytes(|inner|) + inner
  {
    hide EncFrom, VarintBytes;
  }

  /** The entries of a packed array share one key of type 2 and one length; others each have their own. */
  lemma ArraysOnTheWire(f: Field, items: seq<Val>, b: seq<Byte>)
    requires (forall i: nat | i < |items| :: ShapedVal(f, items[i])) && items != [] && EncArray(f, items) == Some(b)
    ensures if f.ltype in {Varint, UVarint, SVarint, Fixed32, Fixed64}
            then exists data: seq<Byte> :: b == VarintBytes(8 * f.tag + 2) + VarintBytes(|data|) + data
                                           && Joined(f, items, false, data)
            else Joined(f, items, true, b)
  {
    hide EncVal, ShapedVal, VarintBytes, Joined, EncItems, EncArray;
    assert items[0..] == items;
    if Packable(f.ltype) {
      PackedIs(f, items);
      ItemsJoined(f, items, 0, false);
    } else {
      UnpackedIs(f, items);
      ItemsJoined(f, items, 0, true);
    }
  }

  lemma PackedIs(f: Field, items: seq<Val>)
    requires (forall i: nat | i < |items| :: ShapedVal(f, items[i])) && items != [] && EncArray(f, items).Some?
    requires Packable(f.ltype)
    ensures var data := EncItems(f, items, 0, false);
            data.Some? && EncArray(f, items).value
            == VarintBytes(8 * f.tag + 2) + VarintBytes(|data.value|) + data.value
  {
    hide EncItems, ShapedVal, VarintBytes;
    var data := EncItems(f, items, 0, false);
    assert TagBytes(f.tag, WT_STRING) == VarintBytes(8 * f.tag + 2);
    assert VarintBytes(8 * f.tag + 2) + (VarintBytes(|data.value|) + data.value)
        == VarintBytes(8 * f.tag + 2) + VarintBytes(|data.value|) + data.value;
  }

  lemma UnpackedIs(f: Field, items: seq<Val>)
    requires (forall i: nat | i < |items| :: ShapedVal(f, items[i])) && items != [] && EncArray(f, items).Some?
    requires !Packable(f.ltype)
    ensures EncItems(f, items, 0, true) == EncArray(f, items)
  {
    hide EncItems, ShapedVal;
  }

  /** `data` is the entries' own bytes, one after the other, each behind its key if `tagged`. */
  predicate Joined(f: Field, items: seq<Val>, tagged: bool, data: seq<Byte>)
    requires forall i: nat | i < |items| :: ShapedVal(f, items[i])
    decreases |items|
  {
    if items == [] then data == []
    else
      var b := if tagged then Tagged(f, items[0]) else EncVal(f, items[0]);
      b.Some? && b.value <= data && Joined(f, items[1..], tagged, data[|b.value|..])
  }

  lemma {:induction false} ItemsJoined(f: Field, items: seq<Val>, k: nat, tagged: bool)
    requires k <= |items| && forall i: nat | i < |items| :: ShapedVal(f, items[i])
    requires EncItems(f, items, k, tagged).Some?
    ensures Joined(f, items[k..], tagged, EncItems(f, items, k, tagged).value)
    decreases |items| - k
  {
    hide EncVal, ShapedVal, Tagged;
    if k < |items| {
      ItemsJoined(f, items, k + 1, tagged);
      assert items[k..][0] == items[k] && items[k..][1..] == items[k + 1..];
    }
  }

  // Order.

  /** The fields' own bytes, in the descriptor's order and nothing else. */
  predicate InOrder(fields: seq<Field>, slots: seq<Slot>, b: seq<Byte>)
    requires |fields| == |slots| && forall i: nat | i < |slots| :: ShapedSlot(fields[i], slots[i])
    decreases |slots|
  {
    if slots == [] then b == []
    else
      var head := EncField(fields[0], slots[0]);
      head.Some? && head.value <= b && InOrder(fields[1..], slots[1..], b[|head.value|..])
  }

  lemma {:induction false} EncodesInOrder(fields: seq<Field>, slots: seq<Slot>, k: nat)
    requires Shaped(fields, slots) && k <= |slots| && EncFrom(fields, slots, k).Some?
    ensures InOrder(fields[k..], slots[k..], EncFrom(fields, slots, k).value)
    decreases |slots| - k
  {
    hide EncField, ShapedSlot;
    if k < |slots| {
      EncodesInOrder(fields, slots, k + 1);
      assert fields[k..][0] == fields[k] && fields[k..][1..] == fields[k + 1..];
      assert slots[k..][0] == slots[k] && slots[k..][1..] == slots[k + 1..];
    }
  }

  // What is left out.

  /** A proto3 field is left out exactly if it is zero: a number or fixed-width value of zero, no bytes, or a
      submessage none of whose fields would be written. Byte arrays of fixed length are never empty. */
  lemma LeftOutExactly(f: Field, v: Val)
    requires WfField(f) && ShapedVal(f, v)
    ensures f.ltype in {Varint, UVarint, SVarint} ==> (ProtoDefaultVal(f, v) <==> v.n == 0)
    ensures f.ltype in {Fixed32, Fixed64} ==> (ProtoDefaultVal(f, v) <==> v.bits == 0)
    ensures f.ltype in {Bytes, String, FixedLengthBytes} ==> (ProtoDefaultVal(f, v) <==> v.bytes == [])
    ensures f.ltype == Submessage ==> (ProtoDefaultVal(f, v) <==> Enc(f.sub, v.slots) == Some([]))
  {
    hide EncFrom;
    if f.ltype == Submessage {
      SubmessageLeftOut(f, v);
    }
  }

  lemma {:induction false} SubmessageLeftOut(f: Field, v: Val)
    requires WfField(f) && ShapedVal(f, v) && f.ltype == Submessage
    ensures ProtoDefaultVal(f, v) <==> Enc(f.sub, v.slots) == Some([])
    decreases v, 2
  {
    hide EncFrom, ProtoDefault, EncField, ShapedSlot, WfField;
    WfSub(f);
    assert Shaped(f.sub, v.slots);
    NothingWritten(f.sub, v.slots, 0);
    forall i: nat | i < |v.slots|
      ensures EncField(f.sub[i], v.slots[i]) == Some([]) <==> ProtoDefault(f.sub[i], v.slots[i])
    {
      assert WfField(f.sub[i]) && ShapedSlot(f.sub[i], v.slots[i]);
      FieldLeftOut(f.sub[i], v.slots[i]);
    }
  }

  lemma WfSub(f: Field)
    requires WfField(f) && f.ltype == Submessage
    ensures f.hasSub && Wf(f.sub)
  {
  }

  lemma {:induction false} FieldLeftOut(f: Field, s: Slot)
    requires WfField(f) && ShapedSlot(f, s)
    ensures EncField(f, s) == Some([]) <==> ProtoDefault(f, s)
    decreases s, 1
  {
    hide EncVal, ShapedVal, ProtoDefaultVal, WfField, TagBytes;
    match s
    case Many(items) =>
      if items != [] && EncArray(f, items).Some? {
        SomethingWritten(f, items);
      }
    case _ =>
  }

  lemma SomethingWritten(f: Field, items: seq<Val>)
    requires (forall i: nat | i < |items| :: ShapedVal(f, items[i])) && items != [] && EncArray(f, items).Some?
    ensures EncArray(f, items).value != []
  {
    hide EncVal, ShapedVal, Tagged;
    if !Packable(f.ltype) {
      assert Tagged(f, items[0]).Some?;
    }
  }

  lemma {:induction false} NothingWritten(fields: seq<Field>, slots: seq<Slot>, k: nat)
    requires Shaped(fields, slots) && k <= |slots|
    ensures EncFrom(fields, slots, k) == Some([]) <==>
            forall i: nat | k <= i < |slots| :: EncField(fields[i], slots[i]) == Some([])
    decreases |slots| - k
  {
    hide EncField, ShapedSlot;
    if k < |slots| {
      NothingWritten(fields, slots, k + 1);
    }
  }
}
