/** The replay window of section 4.1.2.6 of RFC 6347: a 64-bit map of the last 64 record numbers and the
    largest of them, proved against the set of all numbers recorded. Sliding the window shifts the map,
    and numbers that fall off its end are discarded from then on whether they were recorded or not. */
module DtlsReplay {
  import opened Common
  import opened DtlsRecordLayer

  const U64: nat := 0x1_0000_0000_0000_0000
  const TOP: bv64 := 0x8000_0000_0000_0000

  // The three bit operations the window uses, named so that proofs can treat them as black boxes.

  function Double(m: bv64): bv64 {
    m << 1
  }

  function Join(m: bv64, x: bv64): bv64 {
    m | x
  }

  predicate Meets(m: bv64, x: bv64) {
    m & x != 0
  }

  /** `m << k` on 64 bits, as `k` single shifts. */
  function ShiftLeft(m: bv64, k: nat): bv64 {
    if k == 0 then m else Double(ShiftLeft(m, k - 1))
  }

  /** `1 << idx`. */
  function Mask(idx: nat): bv64 {
    ShiftLeft(1, idx)
  }

  /** Bit `idx` of the map, tested as the source does. */
  predicate BitSet(m: bv64, idx: nat) {
    Meets(m, Mask(idx))
  }

  /** Eight shifts in one go. */
  lemma ShiftByEight(k: nat, v: bv64)
    requires Mask(k) == v
    ensures Mask(k + 8) == Double(Double(Double(Double(Double(Double(Double(Double(v))))))))
  {
    forall n: nat | k < n <= k + 8
      ensures Mask(n) == Double(Mask(n - 1))
    {
    }
    hide Double;
    assert Mask(k + 8) == Double(Mask(k + 7)) == Double(Double(Mask(k + 6)));
    assert Mask(k + 6) == Double(Mask(k + 5)) == Double(Double(Mask(k + 4)));
    assert Mask(k + 4) == Double(Mask(k + 3)) == Double(Double(Mask(k + 2)));
    assert Mask(k + 2) == Double(Mask(k + 1)) == Double(Double(Mask(k)));
  }

  lemma TopMask()
    ensures Mask(63) == TOP
  {
    assert Mask(0) == 1;
    assert Mask(2) == 4;
    assert Mask(4) == 0x10;
    assert Mask(6) == 0x40;
    assert Mask(7) == 0x80;
    ShiftByEight(7, 0x80);
    ShiftByEight(15, 0x8000);
    ShiftByEight(23, 0x80_0000);
    ShiftByEight(31, 0x8000_0000);
    ShiftByEight(39, 0x80_0000_0000);
    ShiftByEight(47, 0x8000_0000_0000);
    ShiftByEight(55, 0x80_0000_0000_0000);
  }

  predicate PowerOfTwo(x: bv64) {
    x != 0 && x & (x - 1) == 0
  }

  lemma ShiftedPower(x: bv64)
    requires PowerOfTwo(x)
    ensures if x == TOP then Double(x) == 0 else PowerOfTwo(Double(x)) && !Meets(x, TOP)
  {
  }

  lemma SamePower(x: bv64, y: bv64)
    requires PowerOfTwo(x) && PowerOfTwo(y)
    ensures Meets(x, y) <==> x == y
  {
  }

  lemma JoinMeetsNone(m: bv64, x: bv64, y: bv64)
    requires !Meets(m, y) && !Meets(x, y)
    ensures !Meets(Join(m, x), y)
  {
  }

  lemma LeftMeets(m: bv64, x: bv64, y: bv64)
    requires Meets(m, y)
    ensures Meets(Join(m, x), y)
  {
  }

  lemma RightMeets(m: bv64, x: bv64, y: bv64)
    requires Meets(x, y)
    ensures Meets(Join(m, x), y)
  {
  }

  lemma JoinMeets(m: bv64, x: bv64, y: bv64)
    ensures Meets(Join(m, x), y) <==> Meets(m, y) || Meets(x, y)
  {
    hide Meets, Join;
    if Meets(m, y) {
      LeftMeets(m, x, y);
    } else if Meets(x, y) {
      RightMeets(m, x, y);
    } else {
      JoinMeetsNone(m, x, y);
    }
  }

  lemma DoubleMeets(m: bv64, x: bv64)
    requires !Meets(x, TOP)
    ensures Meets(Double(m), Double(x)) <==> Meets(m, x)
  {
  }

  lemma DoubleIsEven(m: bv64)
    ensures !Meets(Double(m), 1)
  {
  }

  lemma ZeroMeets(x: bv64)
    ensures !Meets(0, x) && Double(0) == 0
  {
  }

  lemma {:induction false} ShiftOut(idx: nat, later: nat)
    requires idx < later && Mask(idx) == TOP
    ensures Mask(later) == 0
  {
    if idx + 1 < later {
      ShiftOut(idx, later - 1);
    }
  }

  /** Each of the 64 masks is a power of two, and only the last one has the top bit. */
  lemma {:induction false} MaskPower(idx: nat)
    requires idx < WINDOW_SIZE
    ensures PowerOfTwo(Mask(idx)) && (Mask(idx) == TOP <==> idx == 63)
  {
    hide Double, PowerOfTwo, Meets;
    TopMask();
    if idx == 0 {
      OneIsPower();
    } else {
      MaskPower(idx - 1);
      ShiftedPower(Mask(idx - 1));
    }
    if idx < 63 && Mask(idx) == TOP {
      ShiftOut(idx, 63);
    }
  }

  lemma OneIsPower()
    ensures PowerOfTwo(1)
  {
  }

  /** Different masks share no bit. */
  lemma {:induction false} MasksDiffer(i: nat, j: nat)
    requires i < WINDOW_SIZE && j < WINDOW_SIZE
    ensures Meets(Mask(i), Mask(j)) <==> i == j
    decreases 128 - i - j
  {
    hide Double, PowerOfTwo, Meets;
    MaskPower(i);
    MaskPower(j);
    SamePower(Mask(i), Mask(j));
    if i != j && i < 63 && j < 63 {
      MasksDiffer(i + 1, j + 1);
      MaskPower(i + 1);
      MaskPower(j + 1);
      SamePower(Mask(i + 1), Mask(j + 1));
      assert Mask(i + 1) == Double(Mask(i)) && Mask(j + 1) == Double(Mask(j));
    }
  }

  lemma SetBit(m: bv64, j: nat, i: nat)
    requires i < WINDOW_SIZE && j < WINDOW_SIZE
    ensures BitSet(Join(m, Mask(j)), i) <==> BitSet(m, i) || i == j
  {
    hide Mask, Join, Meets;
    MasksDiffer(j, i);
    JoinMeets(m, Mask(j), Mask(i));
  }

  /** Sliding the map by `s` moves bit `i - s` to bit `i` and clears the rest. */
  lemma {:induction false} SlideBit(m: bv64, s: nat, i: nat)
    requires i < WINDOW_SIZE
    ensures BitSet(ShiftLeft(m, s), i) <==> i >= s && BitSet(m, i - s)
    decreases s
  {
    hide Double, PowerOfTwo, Meets;
    if s > 0 {
      if i == 0 {
        DoubleIsEven(ShiftLeft(m, s - 1));
      } else {
        SlideBit(m, s - 1, i - 1);
        MaskPower(i - 1);
        ShiftedPower(Mask(i - 1));
        DoubleMeets(ShiftLeft(m, s - 1), Mask(i - 1));
      }
    }
  }

  /** to_u64_be. */
  method ToU64Be(bytes: seq<Byte>) returns (ret: nat)
    requires |bytes| == 8
    ensures ret == FromBigEndian(bytes) && ret < U64
  {
    ret := 0;
    FromBigEndianBound(bytes);
    assert Pow256(8) == U64 by {
      assert Pow256(2) == 256 * Pow256(1);
      assert Pow256(4) == 256 * (256 * Pow256(2));
      assert Pow256(6) == 256 * (256 * Pow256(4));
      assert Pow256(8) == 256 * (256 * Pow256(6));
    }
    for i := 0 to 8
      invariant ret == FromBigEndian(bytes[..i])
    {
      assert bytes[..i + 1][..i] == bytes[..i];
      PrefixBound(bytes, i);
      ret := ret * 256 % U64 + bytes[i];
    }
    assert bytes[..8] == bytes;
  }

  /** A prefix shorter than eight bytes leaves room for another byte. */
  lemma PrefixBound(bytes: seq<Byte>, i: nat)
    requires i < 8 == |bytes|
    ensures FromBigEndian(bytes[..i]) * 256 < U64
  {
    FromBigEndianBound(bytes[..i]);
    PowGrows(i, 7);
    assert Pow256(7) * 256 == U64 by {
      assert Pow256(1) == 256;
      assert Pow256(3) == 256 * (256 * Pow256(1));
      assert Pow256(5) == 256 * (256 * Pow256(3));
      assert Pow256(7) == 256 * (256 * Pow256(5));
    }
  }

  lemma {:induction false} PowGrows(i: nat, j: nat)
    requires i <= j
    ensures Pow256(i) <= Pow256(j)
  {
    if i < j {
      PowGrows(i, j - 1);
    }
  }

  /** `m` tells which of the 64 numbers up to `top` were recorded. */
  ghost predicate Tracks(m: bv64, top: nat, recorded: set<nat>) {
    && (forall n: nat :: n in recorded ==> n <= top)
    && (forall idx: nat | idx < WINDOW_SIZE && idx <= top :: BitSet(m, idx) <==> top - idx in recorded)
  }

  /** Sliding the window forward keeps it in step. */
  lemma SlideTracks(m: bv64, top: nat, recorded: set<nat>, n: nat)
    requires Tracks(m, top, recorded) && n > top
    ensures Tracks(if n - top >= WINDOW_SIZE then 0 else ShiftLeft(m, n - top), n, recorded)
  {
    hide Mask, Join, Meets, ShiftLeft;
    var slid := if n - top >= WINDOW_SIZE then 0 else ShiftLeft(m, n - top);
    forall i: nat | i < WINDOW_SIZE && i <= n
      ensures BitSet(slid, i) <==> n - i in recorded
    {
      if n - top >= WINDOW_SIZE {
        ZeroMeets(Mask(i));
      } else {
        SlideBit(m, n - top, i);
      }
    }
  }

  /** Setting a number's bit, or leaving the map alone when it is too far back, records it. */
  lemma SetTracks(m: bv64, top: nat, recorded: set<nat>, n: nat)
    requires Tracks(m, top, recorded) && n <= top
    ensures Tracks(if top - n < WINDOW_SIZE then Join(m, Mask(top - n)) else m, top, recorded + {n})
  {
    hide Mask, Join, Meets, ShiftLeft;
    var set_ := if top - n < WINDOW_SIZE then Join(m, Mask(top - n)) else m;
    forall i: nat | i < WINDOW_SIZE && i <= top
      ensures BitSet(set_, i) <==> top - i in recorded + {n}
    {
      if top - n < WINDOW_SIZE {
        SetBit(m, top - n, i);
      }
    }
  }

  /** DTLS1_BITMAP. */
  class Bitmap {
    var map_: bv64
    var maxSeqNum: nat
    ghost var window: Window

    ghost predicate Valid()
      reads this
    {
      maxSeqNum < U64 && window.maxSeq == maxSeqNum && Tracks(map_, maxSeqNum, window.recorded)
    }

    constructor ()
      ensures Valid() && window == FRESH_WINDOW
    {
      map_ := 0;
      maxSeqNum := 0;
      window := FRESH_WINDOW;
      new;
      FreshTracks();
    }

    /** The memset of dtls1_set_read_state. */
    method Clear()
      modifies this
      ensures Valid() && window == FRESH_WINDOW
    {
      map_ := 0;
      maxSeqNum := 0;
      window := FRESH_WINDOW;
      FreshTracks();
    }

    /** dtls1_bitmap_should_discard: exactly the recorded numbers and those 64 or more behind. */
    method ShouldDiscard(seqNum: seq<Byte>) returns (discard: bool)
      requires Valid() && |seqNum| == 8
      ensures discard <==> Discards(window, FromBigEndian(seqNum))
    {
      hide Mask, Meets;
      var n := ToU64Be(seqNum);
      if n > maxSeqNum {
        return false;
      }
      var idx := maxSeqNum - n;
      discard := idx >= WINDOW_SIZE || Meets(map_, Mask(idx));
      assert idx < WINDOW_SIZE ==> discard == BitSet(map_, idx);
    }

    /** dtls1_bitmap_record. */
    method Record(seqNum: seq<Byte>)
      requires Valid() && |seqNum| == 8
      modifies this
      ensures Valid() && window == Note(old(window), FromBigEndian(seqNum))
    {
      hide Mask, Join, ShiftLeft, Tracks, FromBigEndian;
      var n := ToU64Be(seqNum);
      if n > maxSeqNum {
        SlideTracks(map_, maxSeqNum, window.recorded, n);
        var shift := n - maxSeqNum;
        if shift >= WINDOW_SIZE {
          map_ := 0;
        } else {
          map_ := ShiftLeft(map_, shift);
        }
        maxSeqNum := n;
      }
      SetTracks(map_, maxSeqNum, window.recorded, n);
      var idx := maxSeqNum - n;
      if idx < WINDOW_SIZE {
        map_ := Join(map_, Mask(idx));
      }
      window := Note(window, n);
    }
  }

  lemma FreshTracks()
    ensures Tracks(0, 0, {})
  {
    ZeroMeets(Mask(0));
  }
}
