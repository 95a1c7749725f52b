/** A handshake message under reassembly: its buffer, and the bit mask of the bytes received (section 4.2.3 of
    RFC 6347). A range of bytes is marked in the mask byte by byte, the first and the last of them in part;
    the message is complete when all full bytes and the rest of the last one are set, and the mask is then
    dropped. */
module DtlsReassembly {
  import opened Common
  import opened DtlsFragment
  import opened DtlsReceive

  /** Bit `k` of a mask byte. */
  predicate Bit(b: bv8, k: nat)
    requires k < 8
  {
    (b >> k) & 1 == 1
  }

  /** bit_range: bits `start`, inclusive, to `end`, exclusive, in 32-bit arithmetic cut to 8 bits. */
  function BitRange(start: nat, end: nat): bv8
    requires start <= 8 && end <= 8
  {
    ((!((1 as bv32 << start) - 1) & ((1 as bv32 << end) - 1)) & 0xff) as bv8
  }

  lemma BitRangeBits(start: nat, end: nat, k: nat)
    requires start < 8 && end <= 8 && k < 8
    ensures Bit(BitRange(start, end), k) <==> start <= k < end
  {
  }

  /** Mask bytes with the same bits are equal. */
  lemma SameBits(a: bv8, b: bv8)
    requires forall k: nat | k < 8 :: Bit(a, k) <==> Bit(b, k)
    ensures a == b
  {
    assert (Bit(a, 0) <==> Bit(b, 0)) && (Bit(a, 1) <==> Bit(b, 1)) && (Bit(a, 2) <==> Bit(b, 2))
        && (Bit(a, 3) <==> Bit(b, 3)) && (Bit(a, 4) <==> Bit(b, 4)) && (Bit(a, 5) <==> Bit(b, 5))
        && (Bit(a, 6) <==> Bit(b, 6)) && (Bit(a, 7) <==> Bit(b, 7));
  }

  /** Or-ing a bit range into a mask byte sets exactly that range. */
  lemma OrRange(a: bv8, start: nat, end: nat)
    requires start < 8 && end <= 8
    ensures forall k: nat | k < 8 :: Bit(a | BitRange(start, end), k) <==> Bit(a, k) || start <= k < end
  {
  }

  /** Bit of message byte `i` in a mask. */
  predicate BitAt(mask: seq<bv8>, i: nat)
    requires i < 8 * |mask|
  {
    Bit(mask[i / 8], i % 8)
  }

  /** The mask byte a complete message has at index `j`: full bytes, then the tail range. */
  function FullByte(msgLen: nat, j: nat): bv8 {
    if j < msgLen / 8 then 0xff else BitRange(0, msgLen % 8)
  }

  lemma FullByteBits(msgLen: nat, j: nat)
    requires j < (msgLen + 7) / 8
    ensures forall k: nat | k < 8 :: Bit(FullByte(msgLen, j), k) <==> 8 * j + k < msgLen
  {
  }

  predicate WellSized(mask: seq<bv8>, msgLen: nat) {
    |mask| == (msgLen + 7) / 8
  }

  /** No bit past the message's last byte is set. */
  ghost predicate PaddingZero(mask: seq<bv8>, msgLen: nat)
    requires WellSized(mask, msgLen)
  {
    forall i: nat | msgLen <= i < 8 * |mask| :: !BitAt(mask, i)
  }

  ghost predicate AllReceived(mask: seq<bv8>, msgLen: nat)
    requires WellSized(mask, msgLen)
  {
    forall i: nat | i < msgLen :: BitAt(mask, i)
  }

  /** Comparing mask bytes with their full values decides whether every message byte arrived. */
  lemma FullMask(mask: seq<bv8>, msgLen: nat)
    requires WellSized(mask, msgLen) && PaddingZero(mask, msgLen)
    ensures AllReceived(mask, msgLen) <==> forall j: nat | j < |mask| :: mask[j] == FullByte(msgLen, j)
  {
    if AllReceived(mask, msgLen) {
      forall j: nat | j < |mask|
        ensures mask[j] == FullByte(msgLen, j)
      {
        FullByteBits(msgLen, j);
        forall k: nat | k < 8
          ensures Bit(mask[j], k) <==> Bit(FullByte(msgLen, j), k)
        {
          assert (8 * j + k) / 8 == j && (8 * j + k) % 8 == k;
          assert BitAt(mask, 8 * j + k) == Bit(mask[j], k);
        }
        SameBits(mask[j], FullByte(msgLen, j));
      }
    }
    if forall j: nat | j < |mask| :: mask[j] == FullByte(msgLen, j) {
      forall i: nat | i < msgLen
        ensures BitAt(mask, i)
      {
        FullByteBits(msgLen, i / 8);
        assert 8 * (i / 8) + i % 8 == i;
      }
    }
  }

  /** `after` is `before` with exactly the bits `start..end` added. */
  ghost predicate Marked(before: seq<bv8>, after: seq<bv8>, start: nat, end: nat) {
    && |after| == |before|
    && forall i: nat | i < 8 * |before| :: BitAt(after, i) <==> BitAt(before, i) || start <= i < end
  }

  /** Mask byte `j` after the bits `start..end` are set, case by case as the source writes it. */
  function MarkByte(b: bv8, start: nat, end: nat, j: nat): bv8 {
    if j < start / 8 || j > end / 8 then b
    else if start / 8 == end / 8 then b | BitRange(start % 8, end % 8)
    else if j == start / 8 then b | BitRange(start % 8, 8)
    else if j < end / 8 then 0xff
    else if end % 8 != 0 then b | BitRange(0, end % 8)
    else b
  }

  lemma MarkByteBits(b: bv8, start: nat, end: nat, j: nat, k: nat)
    requires start < end && k < 8
    ensures Bit(MarkByte(b, start, end, j), k) <==> Bit(b, k) || start <= 8 * j + k < end
  {
    hide Bit, BitRange;
    Compare(j, k, start);
    Compare(j, k, end);
    assert start / 8 <= end / 8;
    assert end % 8 == 0 ==> !(end / 8 == j && k < end % 8);
    if start / 8 == j == end / 8 {
      OrRange(b, start % 8, end % 8);
    } else if start / 8 == j {
      OrRange(b, start % 8, 8);
    } else if j == end / 8 {
      OrRange(b, 0, end % 8);
    } else {
      AllOnes(k);
    }
  }

  /** Bit `k` of byte `j` against position `p`. */
  lemma Compare(j: nat, k: nat, p: nat)
    requires k < 8
    ensures p <= 8 * j + k <==> p / 8 < j || (p / 8 == j && p % 8 <= k)
  {
  }

  lemma AllOnes(k: nat)
    requires k < 8
    ensures Bit(0xff, k)
  {
  }

  lemma MarkBytes(before: seq<bv8>, after: seq<bv8>, start: nat, end: nat)
    requires start < end && |after| == |before|
    requires forall j: nat | j < |before| :: after[j] == MarkByte(before[j], start, end, j)
    ensures Marked(before, after, start, end)
  {
    hide Bit, MarkByte;
    forall i: nat | i < 8 * |before|
      ensures BitAt(after, i) <==> BitAt(before, i) || start <= i < end
    {
      MarkByteBits(before[i / 8], start, end, i / 8, i % 8);
    }
  }

  lemma PaddingStays(before: seq<bv8>, after: seq<bv8>, start: nat, end: nat, msgLen: nat)
    requires Marked(before, after, start, end) && end <= msgLen
    requires WellSized(before, msgLen) && PaddingZero(before, msgLen)
    ensures PaddingZero(after, msgLen)
  {
    hide BitAt;
  }

  /** hm_fragment: a message being reassembled. `reassembly` is null once every byte arrived. */
  class HmFragment {
    const typ: Byte
    const seqNo: Uint16
    const msgLen: nat
    const data: array<Byte>
    var reassembly: array?<bv8>
    /** The epochs of the records copied in so far. */
    ghost var epochs: set<nat>

    ghost predicate Valid()
      reads this`reassembly, data, reassembly
    {
      && data.Length == HM_HEADER_LENGTH + msgLen
      && msgLen < U24
      && data[..HM_HEADER_LENGTH] == Header(typ, msgLen, seqNo, 0, msgLen)
      && (reassembly != null ==>
            && (reassembly as object) != data
            && WellSized(reassembly[..], msgLen)
            && PaddingZero(reassembly[..], msgLen)
            && !AllReceived(reassembly[..], msgLen))
    }

    /** The memory the message occupies. */
    ghost function Footprint(): set<object>
      reads this`reassembly
    {
      {this, data} + if reassembly == null then {} else {reassembly}
    }

    /** The message bytes received so far, by position. */
    ghost function Got(): (g: map<nat, Byte>)
      reads this`reassembly, data, reassembly
      requires Valid()
    {
      map i: nat | i in Range(0, msgLen) && (reassembly == null || BitAt(reassembly[..], i))
        :: data[HM_HEADER_LENGTH + i]
    }

    /** dtls1_hm_fragment_new: an empty message is complete from the start. */
    constructor (typ: Byte, seqNo: Uint16, msgLen: nat)
      requires msgLen < U24
      ensures Valid() && fresh(data) && (reassembly != null ==> fresh(reassembly))
      ensures this.typ == typ && this.seqNo == seqNo && this.msgLen == msgLen
      ensures Got() == map[] && epochs == {} && (reassembly == null <==> msgLen == 0)
    {
      this.typ := typ;
      this.seqNo := seqNo;
      this.msgLen := msgLen;
      var header := Header(typ, msgLen, seqNo, 0, msgLen);
      var buffer := new Byte[HM_HEADER_LENGTH + msgLen];
      forall i | 0 <= i < HM_HEADER_LENGTH {
        buffer[i] := header[i];
      }
      data := buffer;
      epochs := {};
      if msgLen > 0 {
        reassembly := new bv8[(msgLen + 7) / 8](_ => 0);
      } else {
        reassembly := null;
      }
      new;
      if reassembly != null {
        assert !BitAt(reassembly[..], 0);
      }
    }

    /** Sets the bits `start..end` of the mask, byte-wise. */
    method SetBits(start: nat, end: nat)
      requires reassembly != null && WellSized(reassembly[..], msgLen) && PaddingZero(reassembly[..], msgLen)
      requires start < end <= msgLen
      modifies reassembly
      ensures Marked(old(reassembly[..]), reassembly[..], start, end)
      ensures PaddingZero(reassembly[..], msgLen)
    {
      hide Bit, BitAt, BitRange;
      ghost var before := reassembly[..];
      if start / 8 == end / 8 {
        reassembly[start / 8] := reassembly[start / 8] | BitRange(start % 8, end % 8);
      } else {
        reassembly[start / 8] := reassembly[start / 8] | BitRange(start % 8, 8);
        for i := start / 8 + 1 to end / 8
          invariant forall j: nat | j < start / 8 || i <= j < reassembly.Length :: reassembly[j] == before[j]
          invariant forall j: nat | start / 8 <= j < i :: reassembly[j] == MarkByte(before[j], start, end, j)
        {
          reassembly[i] := 0xff;
        }
        if end % 8 != 0 {
          reassembly[end / 8] := reassembly[end / 8] | BitRange(0, end % 8);
        }
      }
      MarkBytes(before, reassembly[..], start, end);
      PaddingStays(before, reassembly[..], start, end, msgLen);
    }

    /** Decides, mask byte by mask byte, whether the message is complete. */
    method IsFull() returns (full: bool)
      requires reassembly != null && WellSized(reassembly[..], msgLen) && PaddingZero(reassembly[..], msgLen)
      ensures full <==> AllReceived(reassembly[..], msgLen)
    {
      FullMask(reassembly[..], msgLen);
      for i := 0 to msgLen / 8
        invariant forall j: nat | j < i :: reassembly[j] == FullByte(msgLen, j)
      {
        if reassembly[i] != 0xff {
          assert reassembly[..][i] != FullByte(msgLen, i);
          return false;
        }
      }
      if msgLen % 8 != 0 && reassembly[msgLen / 8] != BitRange(0, msgLen % 8) {
        assert reassembly[..][msgLen / 8] != FullByte(msgLen, msgLen / 8);
        return false;
      }
      return true;
    }

    /** dtls1_hm_fragment_mark, after the bytes `start..end` were copied in: exactly those
        positions join the received set, and the mask is dropped exactly when all have arrived. */
    method Mark(start: nat, end: nat)
      requires Valid() && reassembly != null
      requires start <= end <= msgLen
      modifies this`reassembly, reassembly
      ensures Valid() && (reassembly == null || reassembly == old(reassembly))
      ensures Got().Keys == old(Got()).Keys + Range(start, end)
      ensures forall i: nat | i in Got() :: Got()[i] == data[HM_HEADER_LENGTH + i]
      ensures reassembly == null <==> Got().Keys == Range(0, msgLen)
    {
      hide Bit, BitAt, Header, BigEndian;
      ghost var gotBefore := Got().Keys;
      KeysAreBits();
      if start == end {
        return;
      }
      SetBits(start, end);
      assert forall i: nat | i < msgLen :: BitAt(reassembly[..], i) <==> i in gotBefore + Range(start, end);
      var full := IsFull();
      if full {
        assert Range(0, msgLen) <= gotBefore + Range(start, end);
        reassembly := null;
      } else {
        KeysAreBits();
      }
    }

    /** The fragment as a value. */
    ghost function AsIncoming(): Incoming
      reads this, data, reassembly
      requires Valid()
    {
      Incoming(typ, seqNo, msgLen, Got(), epochs)
    }

    lemma Fields()
      requires Valid()
      ensures AsIncoming() == Incoming(typ, seqNo, msgLen, Got(), epochs)
    {
    }

    /** The mask is dropped exactly when the message is complete. */
    lemma NullIsComplete()
      requires Valid()
      ensures reassembly == null <==> Complete(AsIncoming())
    {
      if reassembly != null {
        KeysAreBits();
      } else {
        assert Got().Keys == Range(0, msgLen);
      }
    }

    /** A complete message: its body, and the body behind the header as if it had come in one fragment. */
    method Whole() returns (body: seq<Byte>, raw: seq<Byte>)
      requires Valid() && reassembly == null && Complete(AsIncoming())
      ensures body == BodyOf(AsIncoming()) && |body| == msgLen
      ensures raw == Serialize(Fragment(typ, msgLen, seqNo, 0, body))
    {
      hide Header;
      body := data[HM_HEADER_LENGTH..];
      raw := data[..];
      assert body == BodyOf(AsIncoming());
      assert raw == data[..HM_HEADER_LENGTH] + body;
    }

    /** The memcpy of a fragment's body into the buffer. */
    method CopyIn(f: Fragment)
      requires Valid() && f.fragOff + |f.body| <= msgLen
      modifies data
      ensures Valid()
      ensures forall i: nat | i < msgLen ::
                data[HM_HEADER_LENGTH + i] == if i in Pieces(f) then Pieces(f)[i] else old(data[HM_HEADER_LENGTH + i])
    {
      hide Bit, BitAt, BitRange, Header;
      forall i | 0 <= i < |f.body| {
        data[HM_HEADER_LENGTH + f.fragOff + i] := f.body[i];
      }
      assert data[..HM_HEADER_LENGTH] == old(data[..HM_HEADER_LENGTH]);
      assert reassembly != null ==> reassembly[..] == old(reassembly[..]);
      forall i: nat | i < msgLen
        ensures data[HM_HEADER_LENGTH + i] == if i in Pieces(f) then Pieces(f)[i] else old(data[HM_HEADER_LENGTH + i])
      {
        if i in Pieces(f) {
          assert data[HM_HEADER_LENGTH + f.fragOff + (i - f.fragOff)] == f.body[i - f.fragOff];
        }
      }
    }

    /** Copies a fragment's body in and marks it received. */
    method Fill(f: Fragment, ghost epoch: nat)
      requires Valid() && reassembly != null
      requires f.fragOff + |f.body| <= msgLen
      modifies this, data, reassembly
      ensures Valid() && (reassembly == null || reassembly == old(reassembly))
      ensures AsIncoming() == Merge(old(AsIncoming()), f, epoch)
    {
      hide Bit, BitAt, BitRange, Header, Pieces, Merge, Complete, Got, WellSized, PaddingZero, AllReceived;
      NullIsComplete();
      ghost var before := AsIncoming();
      CopyAll(f);
      epochs := epochs + {epoch};
      Mark(f.fragOff, f.fragOff + |f.body|);
      forall i: nat | i in Got()
        ensures Got()[i] == if i in Pieces(f) then Pieces(f)[i] else before.got[i]
      {
        assert i in Pieces(f) <==> i in Pieces(f).Keys;
        assert i !in Pieces(f) ==> i in before.got.Keys;
      }
      MergeIs(before, f, epoch, Got());
    }

    static lemma MergeIs(m: Incoming, f: Fragment, epoch: nat, got: map<nat, Byte>)
      requires !Complete(m) && got.Keys == m.got.Keys + Range(f.fragOff, f.fragOff + |f.body|)
      requires forall i: nat | i in got :: got[i] == if i in Pieces(f) then Pieces(f)[i] else m.got[i]
      ensures Merge(m, f, epoch) == m.(got := got, epochs := m.epochs + {epoch})
    {
      assert got == m.got + Pieces(f);
    }

    /** The copy alone: what was received stays received, with the fragment's bytes where it has any. */
    method CopyAll(f: Fragment)
      requires Valid() && reassembly != null && f.fragOff + |f.body| <= msgLen
      modifies data
      ensures Valid() && Got().Keys == old(Got()).Keys && forall i: nat | i in old(Got()) :: i < msgLen
      ensures forall i: nat | i < msgLen && i in Pieces(f) :: data[HM_HEADER_LENGTH + i] == Pieces(f)[i]
      ensures forall i: nat | i in old(Got()) && i !in Pieces(f) :: data[HM_HEADER_LENGTH + i] == old(Got())[i]
    {
      hide Bit, BitAt, BitRange, Header, Pieces;
      KeysAreBits();
      CopyIn(f);
      KeysAreBits();
      assert reassembly[..] == old(reassembly[..]);
    }

    /** While the mask is there, the received positions are its set bits, and some are missing. */
    lemma KeysAreBits()
      requires Valid() && reassembly != null
      ensures forall i: nat | i < msgLen :: i in Got().Keys <==> BitAt(reassembly[..], i)
      ensures Got().Keys != Range(0, msgLen)
    {
      var i: nat :| i < msgLen && !BitAt(reassembly[..], i);
      assert i !in Got().Keys && i in Range(0, msgLen);
    }
  }
}
