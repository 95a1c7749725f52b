/** The TLS write buffer: a byte queue inside an allocated block, with 16-bit positions. */
module TlsBuffer {
  import opened Common

  /** SSL3_ALIGN_PAYLOAD. */
  const ALIGN: int := 8
  const UINT16_MAX: nat := 0xffff
  const WRAP: nat := 0x1_0000

  /** (0 - headerLen - address) & (ALIGN - 1): the record body that follows a header is aligned. */
  function AlignedOffset(headerLen: nat, address: nat): (o: int)
    ensures 0 <= o < ALIGN && (address + o + headerLen) % ALIGN == 0
  {
    (0 - headerLen - address) % ALIGN
  }

  function Uint16(n: nat): (r: nat)
    ensures n <= UINT16_MAX ==> r == n
  {
    n % WRAP
  }

  class Buffer {
    var buf: array?<Byte>
    var offset: nat
    var size: nat
    var cap: nat

    /** The contents and the free space behind them lie inside the block; offset and capacity are 16-bit
        numbers. */
    ghost predicate Valid()
      reads this
    {
      && size <= cap <= UINT16_MAX && offset <= UINT16_MAX
      && (if buf == null then cap == 0 && offset == 0 else offset + cap <= buf.Length)
    }

    /** However full the buffer gets, the offset will not wrap while bytes are left. */
    predicate Straight()
      reads this
    {
      offset + cap <= WRAP
    }

    /** The bytes queued. */
    ghost function Contents(): seq<Byte>
      requires Valid()
      reads this, buf
    {
      if buf == null then [] else buf[offset..offset + size]
    }

    constructor ()
      ensures Valid() && Contents() == [] && buf == null
    {
      buf := null;
      offset, size, cap := 0, 0, 0;
    }

    /** SSLBuffer::Clear. */
    method Clear()
      modifies this
      ensures Valid() && Contents() == [] && buf == null && cap == 0 && size == 0
    {
      buf := null;
      offset, size, cap := 0, 0, 0;
    }

    /** SSLBuffer::EnsureCap: on success there is room for `newCap` bytes in all; the queue is the
        same. `address` is where a new block is allocated; the byte `headerLen` into the queue is then
        aligned. The offset cannot wrap if and only if capacity and alignment slack stay within 2^16. */
    method EnsureCap(headerLen: nat, newCap: nat, address: nat) returns (ok: bool)
      requires Valid()
      modifies this
      ensures Valid() && Contents() == old(Contents()) && size == old(size)
      ensures buf == old(buf) || fresh(buf)
      ensures ok <==> newCap <= UINT16_MAX
      ensures ok ==> cap >= newCap
      ensures !ok || old(cap) >= newCap ==> unchanged(this)
      ensures ok && old(cap) < newCap ==>
                && offset == AlignedOffset(headerLen, address) && cap == newCap
                && (address + offset + headerLen) % ALIGN == 0
                && (Straight() <==> AlignedOffset(headerLen, address) + newCap <= WRAP)
    {
      hide AlignedOffset;
      if newCap > UINT16_MAX {
        return false;
      }
      if cap >= newCap {
        return true;
      }
      var newBuf := new Byte[newCap + ALIGN - 1];
      var newOffset: nat := AlignedOffset(headerLen, address);
      if buf != null {
        CopyTo(newBuf, newOffset);
      }
      buf := newBuf;
      offset := newOffset;
      cap := newCap;
      return true;
    }

    /** The memcpy of the queue. */
    method CopyTo(newBuf: array<Byte>, newOffset: nat)
      requires Valid() && buf != null && newBuf != buf && newOffset + size <= newBuf.Length
      modifies newBuf
      ensures Valid() && newBuf[newOffset..newOffset + size] == old(Contents())
    {
      for i := 0 to size
        invariant newBuf[newOffset..newOffset + i] == old(buf[offset..offset + i])
      {
        newBuf[newOffset + i] := buf[offset + i];
      }
    }

    /** Fills in bytes behind the queue, where remaining() points. */
    method Fill(b: seq<Byte>)
      requires Valid() && |b| <= cap - size
      modifies buf
      ensures Valid() && Contents() == old(Contents())
      ensures b != [] ==> buf != null && buf[offset + size..offset + size + |b|] == b
    {
      if b == [] {
        return;
      }
      ghost var end := offset + size;
      for i := 0 to |b|
        invariant buf != null && end + |b| <= buf.Length
        invariant buf[..end] == old(if buf == null then [] else buf[..end]) && buf[end..end + i] == b[..i]
      {
        buf[offset + size + i] := b[i];
      }
      assert Contents() == buf[..end][offset..];
    }

    /** SSLBuffer::DidWrite; it aborts when there is no room. */
    method DidWrite(n: nat)
      requires Valid() && n <= cap - size
      modifies this`size
      ensures Valid() && size == old(size) + n
      ensures Contents() == if buf == null then [] else buf[offset..offset + size]
    {
      size := size + n;
    }

    /** Fill and DidWrite together: `b` joins the queue. */
    method Append(b: seq<Byte>)
      requires Valid() && |b| <= cap - size
      modifies this`size, buf
      ensures Valid() && size == old(size) + |b| && Contents() == old(Contents()) + b
    {
      Fill(b);
      ghost var before := Contents();
      DidWrite(|b|);
      if b != [] {
        assert buf[offset..offset + size] == before + b;
      }
    }

    /** SSLBuffer::Consume: bytes leave the front of the queue. The offset is a 16-bit number; what is
        left is what lies behind it. */
    method Consume(len: nat)
      requires Valid() && len <= size
      modifies this`offset, this`size, this`cap
      ensures Valid() && size == old(size) - len && cap == old(cap) - len && offset == Uint16(old(offset) + len)
      ensures old(Straight()) ==> Straight() && Contents() == old(Contents())[len..]
      ensures buf != null ==> Contents() == Shown(buf[..], Uint16(old(offset) + len), old(size) - len)
    {
      hide Uint16;
      Wraps(offset + len);
      offset := Uint16(offset + len);
      size := size - len;
      cap := cap - len;
    }

    /** SSLBuffer::DiscardConsumed. */
    method DiscardConsumed()
      requires Valid()
      modifies this
      ensures Valid() && Contents() == old(Contents()) && (size == 0 ==> buf == null)
    {
      if size == 0 {
        Clear();
      }
    }
  }

  lemma Wraps(n: nat)
    requires n < 2 * WRAP
    ensures Uint16(n) == if n < WRAP then n else n - WRAP
  {
  }

  /** The queue of `size` bytes behind an offset. */
  function Shown(block: seq<Byte>, offset: nat, size: nat): (queue: seq<Byte>)
    requires offset + size <= |block|
  {
    block[offset..offset + size]
  }

  /** Whatever the block holds and however many bytes are consumed, the queue keeps the rest of them. */
  ghost predicate KeepsTheRest(offset: nat, size: nat)
    requires offset <= UINT16_MAX && size <= UINT16_MAX
  {
    forall block: seq<Byte>, len: nat | offset + size <= |block| && len <= size ::
      Shown(block, Consumed(offset, len, size), size - len) == Shown(block, offset, size)[len..]
  }

  /** The offset after consuming. */
  function Consumed(offset: nat, len: nat, size: nat): (o: nat)
    requires offset <= UINT16_MAX && len <= size <= UINT16_MAX
    ensures o + (size - len) <= offset + size
  {
    Wraps(offset + len);
    Uint16(offset + len)
  }

  /** Consuming is right exactly for queues that end within 2^16 of the block's start. */
  lemma KeepsTheRestExactly(offset: nat, size: nat)
    requires offset <= UINT16_MAX && size <= UINT16_MAX
    ensures KeepsTheRest(offset, size) <==> offset + size <= WRAP
  {
    hide Uint16;
    if offset + size <= WRAP {
      forall block: seq<Byte>, len: nat | offset + size <= |block| && len <= size
        ensures Shown(block, Consumed(offset, len, size), size - len) == Shown(block, offset, size)[len..]
      {
        Wraps(offset + len);
      }
    } else {
      var len := WRAP - offset;
      Wraps(WRAP);
      var block := seq(offset + size, i requires 0 <= i < offset + size => if i < WRAP then 0 else 1);
      assert Consumed(offset, len, size) == 0;
      assert Shown(block, Consumed(offset, len, size), size - len)[0] != Shown(block, offset, size)[len..][0];
    }
  }

  /** A record header of five bytes and a block four bytes past an aligned address: a buffer of the largest
      capacity is filled and all but six bytes are consumed. What is left is not the end of the queue but
      six bytes in front of it, which nobody has written. */
  method LosesBytes(queue: seq<Byte>) returns (b: Buffer)
    requires |queue| == UINT16_MAX
    ensures b.Valid() && b.size == 6 && b.buf != null && b.buf.Length >= 7 + UINT16_MAX
    ensures b.buf[7..7 + UINT16_MAX] == queue && b.Contents() == b.buf[..6]
  {
    b := new Buffer();
    var ok := b.EnsureCap(5, UINT16_MAX, 4);
    assert b.offset == 7;
    b.Append(queue);
    b.Consume(UINT16_MAX - 6);
    Wraps(7 + UINT16_MAX - 6);
  }
}
