/** The bit set in which the decoder notes the required fields it has seen: two 32-bit words, with a bit
    for each of the first 64 required fields. The check at the end of decoding compares full words and
    then the remaining bits of the last word, shifted down; it succeeds exactly when every required
    field that has a bit has been marked. */
module PbSeen {
  import opened Common
  import opened PbSchema
  import opened PbDecode

  // The bit operations, named so that proofs can treat them as black boxes.

  function Double(m: bv32): bv32 {
    m << 1
  }

  function DoublePlusOne(m: bv32): bv32 {
    (m << 1) | 1
  }

  /** `1 << k`. */
  function Bit(k: nat): bv32 {
    if k == 0 then 1 else Double(Bit(k - 1))
  }

  /** `~0 >> (32 - n)`: the low `n` bits set. */
  function LowBits(n: nat): bv32 {
    if n == 0 then 0 else DoublePlusOne(LowBits(n - 1))
  }

  function Join(m: bv32, x: bv32): bv32 {
    m | x
  }

  predicate Meets(m: bv32, x: bv32) {
    m & x != 0
  }

  predicate Has(w: bv32, k: nat) {
    Meets(w, Bit(k))
  }

  lemma {:induction false} BitDisjoint(j: nat, k: nat)
    requires j < k
    ensures Bit(j) & Bit(k) == 0
  {
    if j > 0 {
      BitDisjoint(j - 1, k - 1);
      ShiftMeets(Bit(j - 1), Bit(k - 1));
    } else {
      ShiftLow(Bit(k - 1));
    }
  }

  lemma ShiftMeets(x: bv32, y: bv32)
    ensures (x << 1) & (y << 1) == (x & y) << 1
  {
  }

  lemma ShiftLow(x: bv32)
    ensures 1 & (x << 1) == 0
  {
  }

  lemma BitValues()
    ensures Bit(0) == 0x1 && Bit(1) == 0x2 && Bit(2) == 0x4 && Bit(3) == 0x8
    ensures Bit(4) == 0x10 && Bit(5) == 0x20 && Bit(6) == 0x40 && Bit(7) == 0x80
    ensures Bit(8) == 0x100 && Bit(9) == 0x200 && Bit(10) == 0x400 && Bit(11) == 0x800
    ensures Bit(12) == 0x1000 && Bit(13) == 0x2000 && Bit(14) == 0x4000 && Bit(15) == 0x8000
    ensures Bit(16) == 0x1_0000 && Bit(17) == 0x2_0000 && Bit(18) == 0x4_0000 && Bit(19) == 0x8_0000
    ensures Bit(20) == 0x10_0000 && Bit(21) == 0x20_0000 && Bit(22) == 0x40_0000 && Bit(23) == 0x80_0000
    ensures Bit(24) == 0x100_0000 && Bit(25) == 0x200_0000 && Bit(26) == 0x400_0000 && Bit(27) == 0x800_0000
    ensures Bit(28) == 0x1000_0000 && Bit(29) == 0x2000_0000 && Bit(30) == 0x4000_0000 && Bit(31) == 0x8000_0000
  {
  }

  lemma BitNonZero(k: nat)
    requires k < 32
    ensures Bit(k) != 0
  {
    hide Bit;
    BitValues();
  }

  /** Setting bit `j` sets it and no other. */
  lemma HasAfterSet(w: bv32, j: nat, k: nat)
    requires j < 32 && k < 32
    ensures Has(Join(w, Bit(j)), k) <==> j == k || Has(w, k)
  {
    hide Bit, Join, Meets;
    BitsMeet(j, k);
    JoinMeets(w, Bit(j), Bit(k));
  }

  lemma JoinMeetsNone(m: bv32, x: bv32, y: bv32)
    requires !Meets(m, y) && !Meets(x, y)
    ensures !Meets(Join(m, x), y)
  {
  }

  lemma LeftMeets(m: bv32, x: bv32, y: bv32)
    requires Meets(m, y)
    ensures Meets(Join(m, x), y)
  {
  }

  lemma RightMeets(m: bv32, x: bv32, y: bv32)
    requires Meets(x, y)
    ensures Meets(Join(m, x), y)
  {
  }

  lemma JoinMeets(m: bv32, x: bv32, y: bv32)
    ensures Meets(Join(m, x), y) <==> Meets(m, y) || Meets(x, y)
  {
    hide Meets, Join;
    if Meets(m, y) {
      LeftMeets(m, x, y);
    } else if Meets(x, y) {
      RightMeets(m, x, y);
    } else {
      JoinMeetsNone(m, x, y);
    }
  }

  lemma BitsMeet(j: nat, k: nat)
    requires j < 32 && k < 32
    ensures Meets(Bit(j), Bit(k)) <==> j == k
  {
    hide Bit;
    BitNonZero(k);
    if j < k {
      BitDisjoint(j, k);
    } else if k < j {
      BitDisjoint(k, j);
      MeetsCommutes(Bit(j), Bit(k));
    }
  }

  lemma MeetsCommutes(x: bv32, y: bv32)
    ensures Meets(x, y) == Meets(y, x)
  {
  }

  /** A word with no other bits set equals the low `n` bits exactly when each of them is set. */
  lemma {:induction false} AllLowBits(w: bv32, n: nat)
    requires n <= 32 && forall k: nat | n <= k < 32 :: !Has(w, k)
    ensures w == LowBits(n) <==> forall k: nat | k < n :: Has(w, k)
  {
    hide Bit;
    forall k: nat | k < 32 ensures Has(LowBits(n), k) <==> k < n {
      LowBitsHas(n, k);
    }
    if forall k: nat | k < n :: Has(w, k) {
      SameBits(w, LowBits(n));
    }
  }

  lemma {:induction false} LowBitsHas(n: nat, k: nat)
    requires n <= 32 && k < 32
    ensures Has(LowBits(n), k) <==> k < n
  {
    if n == 0 {
    } else if k == 0 {
      LowBitSet(LowBits(n - 1));
    } else {
      LowBitsHas(n - 1, k - 1);
      BitNonZero(k);
      ShiftedBit(LowBits(n - 1), k);
    }
  }

  lemma LowBitSet(x: bv32)
    ensures Meets(DoublePlusOne(x), 1)
  {
  }

  lemma TopBit()
    ensures Bit(31) == 0x8000_0000
  {
    BitValues();
  }

  lemma ShiftedBit(x: bv32, k: nat)
    requires 0 < k < 32
    ensures Has(DoublePlusOne(x), k) <==> Has(x, k - 1)
  {
    hide Meets, DoublePlusOne, Double;
    BitsMeet(k - 1, 31);
    TopBit();
    DoubleMeets(x, Bit(k - 1));
  }

  lemma DoubleMeets(x: bv32, y: bv32)
    requires !Meets(y, 0x8000_0000)
    ensures Meets(DoublePlusOne(x), Double(y)) <==> Meets(x, y)
  {
  }

  lemma SameBits(v: bv32, w: bv32)
    requires forall k: nat | k < 32 :: Has(v, k) <==> Has(w, k)
    ensures v == w
  {
    hide Bit, Meets;
    BitValues();
    forall k: nat | k < 32 ensures Meets(v, Bit(k)) == Meets(w, Bit(k)) {
      assert Has(v, k) <==> Has(w, k);
    }
    SameWord(v, w);
  }

  lemma SameWord(v: bv32, w: bv32)
    requires Meets(v, 0x1) == Meets(w, 0x1) && Meets(v, 0x2) == Meets(w, 0x2)
    requires Meets(v, 0x4) == Meets(w, 0x4) && Meets(v, 0x8) == Meets(w, 0x8)
    requires Meets(v, 0x10) == Meets(w, 0x10) && Meets(v, 0x20) == Meets(w, 0x20)
    requires Meets(v, 0x40) == Meets(w, 0x40) && Meets(v, 0x80) == Meets(w, 0x80)
    requires Meets(v, 0x100) == Meets(w, 0x100) && Meets(v, 0x200) == Meets(w, 0x200)
    requires Meets(v, 0x400) == Meets(w, 0x400) && Meets(v, 0x800) == Meets(w, 0x800)
    requires Meets(v, 0x1000) == Meets(w, 0x1000) && Meets(v, 0x2000) == Meets(w, 0x2000)
    requires Meets(v, 0x4000) == Meets(w, 0x4000) && Meets(v, 0x8000) == Meets(w, 0x8000)
    requires Meets(v, 0x1_0000) == Meets(w, 0x1_0000) && Meets(v, 0x2_0000) == Meets(w, 0x2_0000)
    requires Meets(v, 0x4_0000) == Meets(w, 0x4_0000) && Meets(v, 0x8_0000) == Meets(w, 0x8_0000)
    requires Meets(v, 0x10_0000) == Meets(w, 0x10_0000) && Meets(v, 0x20_0000) == Meets(w, 0x20_0000)
    requires Meets(v, 0x40_0000) == Meets(w, 0x40_0000) && Meets(v, 0x80_0000) == Meets(w, 0x80_0000)
    requires Meets(v, 0x100_0000) == Meets(w, 0x100_0000) && Meets(v, 0x200_0000) == Meets(w, 0x200_0000)
    requires Meets(v, 0x400_0000) == Meets(w, 0x400_0000) && Meets(v, 0x800_0000) == Meets(w, 0x800_0000)
    requires Meets(v, 0x1000_0000) == Meets(w, 0x1000_0000) && Meets(v, 0x2000_0000) == Meets(w, 0x2000_0000)
    requires Meets(v, 0x4000_0000) == Meets(w, 0x4000_0000) && Meets(v, 0x8000_0000) == Meets(w, 0x8000_0000)
    ensures v == w
  {
  }

  class FieldsSeen {
    const words: array<bv32>

    /** Bit `k` is set exactly when `k` is in the set. */
    ghost predicate Holds(marks: set<nat>)
      reads words
    {
      && words.Length == 2
      && forall k: nat | k < 64 :: Has(words[k / 32], k % 32) <==> k in marks
    }

    constructor ()
      ensures Holds({}) && fresh(words)
    {
      words := new bv32[2](_ => 0);
      new;
      hide Bit;
      assert forall k: nat | k < 64 :: !Has(words[k / 32], k % 32);
    }

    /** fields_seen[k >> 5] |= 1 << (k & 31). */
    method Mark(k: nat, ghost marks: set<nat>)
      requires Holds(marks) && k < 64
      modifies words
      ensures Holds(marks + {k})
    {
      hide Has;
      ghost var before := words[k / 32];
      words[k / 32] := Join(words[k / 32], Bit(k % 32));
      forall j: nat | j < 64 ensures Has(words[j / 32], j % 32) <==> j in marks + {k} {
        HasAfterSet(before, k % 32, j % 32);
      }
    }

    /** Whether the first `n` bits are all set: the whole words first, then the rest. */
    method AllSet(n: nat, ghost marks: set<nat>) returns (all: bool)
      requires Holds(marks) && n <= 64 && forall k: nat | n <= k < 64 :: k !in marks
      ensures all <==> forall k: nat | k < n :: k in marks
    {
      hide Has, LowBits, Bit;
      for i := 0 to n / 32
        invariant forall k: nat | k < 32 * i :: k in marks
      {
        Whole(words[i]);
        if words[i] != 0xffff_ffff {
          ghost var b: nat :| b < 32 && !Has(words[i], b);
          assert Has(words[(32 * i + b) / 32], (32 * i + b) % 32) <==> 32 * i + b in marks;
          return false;
        }
        forall k: nat | 32 * i <= k < 32 * (i + 1) ensures k in marks {
          assert Has(words[k / 32], k % 32);
        }
      }
      if n % 32 != 0 {
        var i := n / 32;
        forall b: nat | b < 32 ensures Has(words[i], b) <==> 32 * i + b in marks {
          assert Has(words[(32 * i + b) / 32], (32 * i + b) % 32) <==> 32 * i + b in marks;
        }
        AllLowBits(words[i], n % 32);
        if words[i] != LowBits(n % 32) {
          ghost var b: nat :| b < n % 32 && !Has(words[i], b);
          assert 32 * i + b !in marks;
          return false;
        }
        forall k: nat | 32 * i <= k < n ensures k in marks {
          assert Has(words[i], k - 32 * i);
        }
      }
      return true;
    }
  }

  lemma Whole(w: bv32)
    ensures w == 0xffff_ffff <==> forall b: nat | b < 32 :: Has(w, b)
  {
    hide Has;
    AllLowBits(w, 32);
    AllOnes();
  }

  lemma AllOnes()
    ensures LowBits(32) == 0xffff_ffff
  {
    assert LowBits(4) == 0xf;
    assert LowBits(8) == 0xff;
    assert LowBits(12) == 0xfff;
    assert LowBits(16) == 0xffff;
    assert LowBits(20) == 0xf_ffff;
    assert LowBits(24) == 0xff_ffff;
    assert LowBits(28) == 0xfff_ffff;
  }

  // The bits stand for required fields, numbered in descriptor order.

  predicate Represents(fields: seq<Field>, marks: set<nat>, seen: set<nat>) {
    && (forall k: nat | k in marks :: k < RequiredBefore(fields, |fields|))
    && forall i: nat | i < |fields| && Checked(fields, i) :: RequiredBefore(fields, i) in marks <==> i in seen
  }

  lemma {:induction false} RequiredGrows(fields: seq<Field>, i: nat, j: nat)
    requires i < j <= |fields|
    ensures RequiredBefore(fields, i) + (if fields[i].htype == Required then 1 else 0) <= RequiredBefore(fields, j)
    decreases j
  {
    if i + 1 < j {
      RequiredGrows(fields, i, j - 1);
    }
  }

  /** The `k`th required field. */
  lemma {:induction false} RequiredAt(fields: seq<Field>, k: nat, n: nat) returns (i: nat)
    requires n <= |fields| && k < RequiredBefore(fields, n)
    ensures i < n && fields[i].htype == Required && RequiredBefore(fields, i) == k
    decreases n
  {
    if k == RequiredBefore(fields, n - 1) {
      i := n - 1;
    } else {
      i := RequiredAt(fields, k, n - 1);
    }
  }

  lemma MarkRequired(fields: seq<Field>, marks: set<nat>, seen: set<nat>, i: nat)
    requires Represents(fields, marks, seen) && i < |fields| && fields[i].htype == Required
    ensures Checked(fields, i) ==> Represents(fields, marks + {RequiredBefore(fields, i)}, seen + {i})
    ensures !Checked(fields, i) ==> Represents(fields, marks, seen + {i})
  {
    hide RequiredBefore;
    RequiredGrows(fields, i, |fields|);
    forall j: nat | j < |fields| && j != i && fields[j].htype == Required
      ensures RequiredBefore(fields, j) != RequiredBefore(fields, i)
    {
      RequiredGrows(fields, if i < j then i else j, if i < j then j else i);
    }
  }

  /** All of the first 64 required fields were seen exactly when their bits are all set. */
  lemma AllMarked(fields: seq<Field>, marks: set<nat>, seen: set<nat>, n: nat)
    requires Represents(fields, marks, seen)
    requires n == if RequiredBefore(fields, |fields|) > 64 then 64 else RequiredBefore(fields, |fields|)
    ensures AllSeen(fields, seen) <==> forall k: nat | k < n :: k in marks
  {
    hide RequiredBefore;
    forall k: nat | k < n && AllSeen(fields, seen) ensures k in marks {
      var i := RequiredAt(fields, k, |fields|);
      assert Checked(fields, i);
    }
    forall i: nat | i < |fields| && Checked(fields, i) ensures RequiredBefore(fields, i) < n {
      RequiredGrows(fields, i, |fields|);
    }
  }
}
