/** The TLS write path over a stream transport that may take part of what it is given or refuse it:
    application writes that are retried, flights of handshake records, and the buffer between. */
module TlsWriter {
  import opened Common
  import opened TlsBuffer

  datatype RecordType = ChangeCipherSpec | Alert | Handshake | ApplicationData

  /** A record that has been sealed: what it carries and its bytes on the wire. */
  datatype Sealed = Sealed(kind: RecordType, payload: seq<Byte>, bytes: seq<Byte>)

  const MAX_PLAIN_LENGTH: nat := 0x4000
  const INT_MAX: nat := 0x7fff_ffff

  /** The wire bytes of records, in the order they were sealed. */
  function Wire(log: seq<Sealed>): seq<Byte> {
    if log == [] then [] else Wire(log[..|log| - 1]) + log[|log| - 1].bytes
  }

  /** What the records of one type carry, in order. */
  function Carried(log: seq<Sealed>, kind: RecordType): seq<Byte> {
    if log == [] then []
    else
      var last := log[|log| - 1];
      Carried(log[..|log| - 1], kind) + if last.kind == kind then last.payload else []
  }

  lemma LogAppend(log: seq<Sealed>, r: Sealed)
    ensures Wire(log + [r]) == Wire(log) + r.bytes
    ensures forall k :: Carried(log + [r], k) == Carried(log, k) + if r.kind == k then r.payload else []
  {
    assert (log + [r])[..|log|] == log;
  }

  /** What is on the wire, what is queued behind it and what comes after that are all of `wire`. */
  predicate Balanced(out: seq<Byte>, queue: seq<Byte>, unsent: seq<Byte>, wire: seq<Byte>) {
    out + queue + unsent == wire
  }

  lemma TakeFromQueue(out: seq<Byte>, queue: seq<Byte>, unsent: seq<Byte>, wire: seq<Byte>, r: nat)
    requires Balanced(out, queue, unsent, wire) && r <= |queue|
    ensures Balanced(out + queue[..r], queue[r..], unsent, wire)
  {
    assert out + queue == out + queue[..r] + queue[r..];
  }

  lemma TakeFromUnsent(out: seq<Byte>, unsent: seq<Byte>, wire: seq<Byte>, r: nat)
    requires Balanced(out, [], unsent, wire) && r <= |unsent|
    ensures Balanced(out + unsent[..r], [], unsent[r..], wire)
  {
    assert out + unsent == out + unsent[..r] + unsent[r..];
  }

  lemma MoveToQueue(out: seq<Byte>, unsent: seq<Byte>, wire: seq<Byte>)
    ensures Balanced(out, [], unsent, wire) ==> Balanced(out, unsent, [], wire)
  {
  }

  lemma AddSealed(out: seq<Byte>, queue: seq<Byte>, unsent: seq<Byte>, wire: seq<Byte>, b: seq<Byte>)
    requires Balanced(out, queue, unsent, wire)
    ensures Balanced(out, queue, unsent + b, wire + b)
    ensures unsent == [] ==> Balanced(out, queue + b, [], wire + b)
  {
    assert out + queue + (unsent + b) == out + queue + unsent + b;
    assert out + (queue + b) == out + queue + b;
  }

  lemma AllOut(out: seq<Byte>, wire: seq<Byte>)
    requires Balanced(out, [], [], wire)
    ensures out == wire
  {
  }

  /** tls_seal_record: its ciphertexts, of at most the room given, are the script's; it fails when the
      script says so or there is no room. */
  class Sealer {
    var script: seq<Option<seq<Byte>>>
    ghost var log: seq<Sealed>

    constructor (script: seq<Option<seq<Byte>>>)
      ensures log == [] && this.script == script
    {
      this.script := script;
      log := [];
    }

    method Seal(kind: RecordType, payload: seq<Byte>, maxOut: nat) returns (ok: bool, bytes: seq<Byte>)
      modifies this
      ensures ok <==> old(script) != [] && old(script)[0].Some? && |old(script)[0].value| <= maxOut
      ensures ok ==> bytes == old(script)[0].value && script == old(script)[1..]
      ensures !ok ==> script == old(script)
      ensures log == if ok then old(log) + [Sealed(kind, payload, bytes)] else old(log)
    {
      if script == [] || script[0].None? || |script[0].value| > maxOut {
        return false, [];
      }
      ok, bytes := true, script[0].value;
      script := script[1..];
      log := log + [Sealed(kind, payload, bytes)];
    }
  }

  /** The transport: each write takes as many bytes as the script says, at most what it is given, or
      fails; it would block once the script runs out. */
  class Transport {
    var script: seq<int>
    var output: seq<Byte>

    constructor (script: seq<int>)
      ensures output == [] && this.script == script
    {
      this.script := script;
      output := [];
    }

    /** BIO_write. */
    method Write(b: seq<Byte>) returns (r: int)
      requires b != []
      modifies this
      ensures r == if old(script) == [] then -1 else if old(script)[0] > |b| then |b| else old(script)[0]
      ensures script == if old(script) == [] then [] else old(script)[1..]
      ensures output == if r > 0 then old(output) + b[..r] else old(output)
    {
      if script == [] {
        return -1;
      }
      r := if script[0] > |b| then |b| else script[0];
      script := script[1..];
      if r > 0 {
        output := output + b[..r];
      }
    }

    /** BIO_flush. */
    method Flush() returns (r: int)
      modifies this`script
      ensures r == if old(script) == [] then 1 else old(script)[0]
      ensures script == if old(script) == [] then [] else old(script)[1..]
    {
      if script == [] {
        return 1;
      }
      r := script[0];
      script := script[1..];
    }
  }

  // What becomes of what is to be written, told from lengths and answers alone.

  /** The record being flushed (zero for none), the bytes queued, those of the flight behind them, and the
      answers of transport and sealer. */
  datatype Cursor = Cursor(pending: nat, queued: nat, unsent: nat, answers: seq<int>, seals: seq<Option<seq<Byte>>>)

  /** Flushing `queued` bytes: what stays queued, the answers left, and the result. */
  function FlushOf(queued: nat, answers: seq<int>): (nat, seq<int>, int)
    decreases queued
  {
    if queued == 0 then (0, answers, 1)
    else if answers == [] then (queued, [], -1)
    else if answers[0] <= 0 then (queued, answers[1..], answers[0])
    else FlushOf(if answers[0] > queued then 0 else queued - answers[0], answers[1..])
  }

  function Sum(answers: seq<int>): int {
    if answers == [] then 0 else answers[0] + Sum(answers[1..])
  }

  predicate Positive(answers: seq<int>) {
    forall i: nat | i < |answers| :: answers[i] > 0
  }

  /** Once the transport has taken as much as is queued, everything is out, and no more was asked of it. */
  lemma {:induction false} EnoughFlushes(queued: nat, a: seq<int>, rest: seq<int>) returns (k: nat)
    requires Positive(a) && Sum(a) >= queued
    ensures k <= |a| && FlushOf(queued, a + rest) == (0, a[k..] + rest, 1)
    ensures k > 0 ==> Sum(a[..k - 1]) < queued
    decreases |a|
  {
    if queued == 0 {
      k := 0;
    } else {
      var left := if a[0] > queued then 0 else queued - a[0];
      assert (a + rest)[1..] == a[1..] + rest;
      assert Positive(a[1..]) by {
        assert forall i: nat | i < |a| - 1 :: a[1..][i] == a[i + 1];
      }
      SumPositive(a[1..]);
      var j := EnoughFlushes(left, a[1..], rest);
      k := j + 1;
      assert a[1..][j..] == a[k..];
      if j > 0 {
        assert a[..k - 1][1..] == a[1..][..j - 1];
      }
    }
  }

  /** A refusal before that leaves queued what was not taken, and is the answer. */
  lemma {:induction false} RefusalLeaves(queued: nat, a: seq<int>, refusal: int, rest: seq<int>)
    requires Positive(a) && Sum(a) < queued && refusal <= 0
    ensures FlushOf(queued, a + [refusal] + rest) == (queued - Sum(a), rest, refusal)
    decreases |a|
  {
    var s := a + [refusal] + rest;
    if a == [] {
      assert s[1..] == rest;
    } else {
      assert forall i: nat | i < |a| - 1 :: a[1..][i] == a[i + 1];
      SumPositive(a[1..]);
      assert s[1..] == a[1..] + [refusal] + rest;
      RefusalLeaves(queued - a[0], a[1..], refusal, rest);
    }
  }

  lemma {:induction false} SumPositive(a: seq<int>)
    requires Positive(a)
    ensures Sum(a) >= 0
  {
    if a != [] {
      assert forall i: nat | i < |a| - 1 :: a[1..][i] == a[i + 1];
      SumPositive(a[1..]);
    }
  }

  /** A flight goes out: the transport takes what is queued and then the flight, and flushes. */
  lemma FlightGoesOut(queued: nat, unsent: nat, a: seq<int>, b: seq<int>)
    requires Positive(a) && Positive(b) && Sum(a) >= queued && Sum(b) >= unsent
    ensures FlightOf(queued, unsent, a + b).0 == 0 && FlightOf(queued, unsent, a + b).1 == 0
    ensures FlightOf(queued, unsent, a + b).3 == 1
  {
    hide FlushOf, Sum;
    var k := EnoughFlushes(queued, a, b);
    var left := a[k..] + b;
    assert Positive(a[k..]) by {
      assert forall i: nat | i < |a| - k :: a[k..][i] == a[i + k];
    }
    SumJoins(a[k..], b);
    SumPositive(a[k..]);
    var j := EnoughFlushes(unsent, left, []);
    assert left + [] == left;
    assert forall i: nat | i < |left| - j :: left[j..][i] == left[i + j];
    assert left[j..] + [] == left[j..];
  }

  lemma {:induction false} FlushExtends(queued: nat, a: seq<int>, more: seq<int>)
    ensures var (q, b, r) := FlushOf(queued, a);
            r > 0 ==> FlushOf(queued, a + more) == (0, b + more, 1)
    decreases |a|
  {
    if queued > 0 && a != [] && a[0] > 0 {
      assert (a + more)[1..] == a[1..] + more;
      FlushExtends(if a[0] > queued then 0 else queued - a[0], a[1..], more);
    }
  }

  /** Where a flight stops: a refusal is the answer and leaves what was not taken, of what is queued or of the flight
      behind it; and a flight that is all written but not flushed is not done. */
  lemma FlightRefused(queued: nat, unsent: nat, a: seq<int>, b: seq<int>, refusal: int, rest: seq<int>)
    requires Positive(b) && refusal <= 0
    ensures Sum(b) < queued ==>
              FlightOf(queued, unsent, b + [refusal] + rest) == (queued - Sum(b), unsent, rest, refusal)
    ensures FlushOf(queued, a) == (0, [], 1) && Sum(b) < unsent ==>
              FlightOf(queued, unsent, a + (b + [refusal] + rest)) == (0, unsent - Sum(b), rest, refusal)
    ensures FlushOf(queued, a) == (0, [], 1) && FlushOf(unsent, b) == (0, [], 1) ==>
              FlightOf(queued, unsent, a + (b + [refusal] + rest)) == (0, 0, rest, -1)
  {
    hide FlushOf, Sum;
    var more := b + [refusal] + rest;
    if Sum(b) < queued {
      RefusalLeaves(queued, b, refusal, rest);
    }
    if FlushOf(queued, a) == (0, [], 1) {
      FlushExtends(queued, a, more);
      assert [] + more == more;
      if Sum(b) < unsent {
        RefusalLeaves(unsent, b, refusal, rest);
      }
      if FlushOf(unsent, b) == (0, [], 1) {
        FlushExtends(unsent, b, [refusal] + rest);
        assert b + ([refusal] + rest) == more && [] + ([refusal] + rest) == [refusal] + rest;
        assert ([refusal] + rest)[1..] == rest;
      }
    }
  }

  lemma {:induction false} SumJoins(a: seq<int>, b: seq<int>)
    ensures Sum(a + b) == Sum(a) + Sum(b)
  {
    if a == [] {
      assert a + b == b;
    } else {
      assert (a + b)[1..] == a[1..] + b;
      SumJoins(a[1..], b);
    }
  }

  /** A write completes: with nothing in its way, a seal for every record, and a transport that takes each
      record whole, all of the data is written, or with partial writes the first record. */
  lemma {:induction false} WritesAll(c: Cursor, tot: nat, len: nat, how: Writing)
    requires tot < len && how.fragment > 0 && how.fragment + how.overhead + c.unsent <= UINT16_MAX
    requires c.pending == c.queued == 0 && |c.seals| >= len - tot && |c.answers| >= len - tot
    requires forall i: nat | i < |c.seals| :: c.seals[i].Some? && |c.seals[i].value| <= 1 + how.overhead
    requires forall i: nat | i < |c.answers| :: c.answers[i] > how.fragment + how.overhead + c.unsent
    ensures LoopOf(c, tot, len, how).1 ==
            if how.partialWrites then tot + Chunk(len - tot, how.fragment) else len
    decreases len - tot
  {
    var n := Chunk(len - tot, how.fragment);
    var d := Cursor(0, 0, 0, if c.unsent + |c.seals[0].value| == 0 then c.answers else c.answers[1..], c.seals[1..]);
    FlushStep(c.unsent + |c.seals[0].value|, c.answers);
    assert TurnOf(c, n, how.overhead) == (d, n);
    if n < len - tot && !how.partialWrites {
      WritesAll(d, tot + n, len, how);
    }
  }

  /** A message is sealed whole exactly if there is a seal that fits for each of its records. */
  lemma {:induction false} MessageSealsWhen(seals: seq<Option<seq<Byte>>>, len: nat, fragment: nat, overhead: nat)
    requires fragment > 0 && forall i: nat | i < |seals| :: seals[i].Some? && |seals[i].value| <= overhead
    ensures var (whole, left) := MessageOf(seals, len, fragment, overhead);
            && (whole <==> seals != [] && |seals| * fragment >= len)
            && (whole && len > 0 ==>
                  && |left| < |seals|
                  && (|seals| - |left|) * fragment >= len > (|seals| - |left| - 1) * fragment)
    decreases len
  {
    hide MessageOf;
    MessageStep(seals, len, fragment, overhead);
    if seals != [] {
      if len > fragment {
        MessageSealsWhen(seals[1..], len - fragment, fragment, overhead);
        var (whole, left) := MessageOf(seals[1..], len - fragment, fragment, overhead);
        OneFewer(|seals|, fragment);
        if whole {
          OneFewer(|seals| - |left|, fragment);
          OneFewer(|seals| - |left| - 1, fragment);
        }
      } else {
        OneFewer(|seals|, fragment);
        NotNegative(|seals| - 1, fragment);
      }
    }
  }

  lemma OneFewer(n: int, d: nat)
    ensures n * d == (n - 1) * d + d
  {
  }

  lemma NotNegative(n: nat, d: nat)
    ensures n * d >= 0
  {
  }

  lemma FlushStep(queued: nat, answers: seq<int>)
    ensures FlushOf(queued, answers) ==
            if queued == 0 then (0, answers, 1)
            else if answers == [] then (queued, [], -1)
            else if answers[0] <= 0 then (queued, answers[1..], answers[0])
            else FlushOf(if answers[0] > queued then 0 else queued - answers[0], answers[1..])
  {
  }

  function Flushed(c: Cursor): (res: (Cursor, int))
    ensures res.1 > 0 ==> res.1 == c.pending && res.0.pending == 0
  {
    var (queued, answers, r) := FlushOf(c.queued, c.answers);
    if r > 0 then (c.(pending := 0, queued := 0, answers := answers), c.pending)
    else (c.(queued := queued, answers := answers), r)
  }

  /** One record of `nw` bytes is sealed behind the flight and flushed with it, or the pending one is retried.
      Without a seal the flight alone is queued. */
  function TurnOf(c: Cursor, nw: nat, overhead: nat): (res: (Cursor, int))
    ensures res.1 <= nw
  {
    if c.pending > nw then (c, -1)
    else if c.pending > 0 then Flushed(c)
    else if c.queued > 0 then (c, -1)
    else if nw == 0 then (c, 0)
    else if nw + overhead + c.unsent > UINT16_MAX then (c, -1)
    else if c.seals == [] then (c.(queued := c.unsent, unsent := 0), -1)
    else
      var sealed := if c.seals[0].Some? then |c.seals[0].value| else 0;
      Flushed(c.(pending := nw, queued := c.unsent + sealed, unsent := 0, seals := c.seals[1..]))
  }

  /** Flushing a flight: what is queued goes out first and then the flight, and then the transport is asked to
      flush. What stays queued, what stays unsent, the answers left, and the result. */
  function FlightOf(queued: nat, unsent: nat, answers: seq<int>): (nat, nat, seq<int>, int) {
    var (q, a, r) := FlushOf(queued, answers);
    if r <= 0 then (q, unsent, a, r)
    else
      var (u, b, s) := FlushOf(unsent, a);
      if s <= 0 then (0, u, b, s)
      else if b == [] then (0, 0, [], 1)
      else (0, 0, b[1..], if b[0] <= 0 then -1 else 1)
  }

  /** Sealing a message of `len` bytes record by record: whether it succeeds, and the seals left. */
  function MessageOf(seals: seq<Option<seq<Byte>>>, len: nat, fragment: nat, overhead: nat)
    : (bool, seq<Option<seq<Byte>>>)
    requires fragment > 0
    decreases len
  {
    var n := Chunk(len, fragment);
    if seals == [] || seals[0].None? || |seals[0].value| > n + overhead then (false, seals)
    else if n == len then (true, seals[1..])
    else MessageOf(seals[1..], len - n, fragment, overhead)
  }

  function Chunk(n: nat, fragment: nat): nat {
    if n > fragment then fragment else n
  }

  lemma MessageStep(seals: seq<Option<seq<Byte>>>, len: nat, fragment: nat, overhead: nat)
    requires fragment > 0
    ensures var n := Chunk(len, fragment);
            MessageOf(seals, len, fragment, overhead) ==
            if seals == [] || seals[0].None? || |seals[0].value| > n + overhead then (false, seals)
            else if n == len then (true, seals[1..])
            else MessageOf(seals[1..], len - n, fragment, overhead)
  {
  }

  /** The records of a write of `len` bytes, from `tot` on: the result, and how far an unfinished write
      has come. */
  function LoopOf(c: Cursor, tot: nat, len: nat, how: Writing): (Cursor, int, nat)
    requires tot <= len
    decreases len - tot
  {
    var (d, r) := TurnOf(c, Chunk(len - tot, how.fragment), how.overhead);
    if r <= 0 then (d, r, tot)
    else if r == len - tot || how.partialWrites then (d, tot + r, 0)
    else LoopOf(d, tot + r, len, how)
  }

  /** The largest fragment, the most a cipher adds, and whether a write may return early. */
  datatype Writing = Writing(fragment: nat, overhead: nat, partialWrites: bool)

  lemma LoopStep(c: Cursor, tot: nat, len: nat, how: Writing)
    requires tot <= len
    ensures var (d, r) := TurnOf(c, Chunk(len - tot, how.fragment), how.overhead);
            LoopOf(c, tot, len, how) ==
            if r <= 0 then (d, r, tot)
            else if r == len - tot || how.partialWrites then (d, tot + r, 0)
            else LoopOf(d, tot + r, len, how)
  {
    hide TurnOf;
  }

  class Writer {
    const buffer: Buffer
    const transport: Transport
    const sealer: Sealer
    const maxSendFragment: nat
    const overhead: nat
    const alignPrefix: nat
    const partialWrites: bool
    const movingBuffer: bool
    var pendingFlight: Option<seq<Byte>>
    var flightOffset: nat
    var shutDown: bool
    var sendAlert: seq<Byte>
    var alertDispatch: bool
    // Of the caller's data, the bytes of earlier records of an unfinished write.
    var wnum: nat
    // The record that is being flushed: its length, where its data was, and its type.
    var wpendTot: nat
    var wpendBuf: int
    var wpendType: RecordType
    var wpendRet: int
    var wpendPending: bool
    // The bytes reported as written, and those sealed but not reported yet.
    ghost var accepted: seq<Byte>
    ghost var outstanding: seq<Byte>

    /** The bytes of the flight the transport has not taken. */
    function Unsent(): seq<Byte>
      reads this`pendingFlight, this`flightOffset
    {
      if pendingFlight.Some? && flightOffset <= |pendingFlight.value| then pendingFlight.value[flightOffset..] else []
    }

    /** What every call keeps, whatever the buffer's alignment. */
    ghost predicate Sound()
      reads this`pendingFlight, this`flightOffset, this`wpendPending, this`wpendTot, this`wpendRet
      reads this`sendAlert, this`alertDispatch, buffer
    {
      && buffer.Valid()
      && (if pendingFlight.Some? then flightOffset <= |pendingFlight.value| else flightOffset == 0)
      && 0 < maxSendFragment <= MAX_PLAIN_LENGTH && maxSendFragment + overhead + ALIGN - 1 <= UINT16_MAX
      && (wpendPending ==> wpendTot > 0 && wpendRet == wpendTot)
      && (alertDispatch ==> |sendAlert| == 2)
    }

    /** The transport's output, the write buffer and the rest of the flight are the sealed records, in
        the order they were sealed: nothing is lost, repeated or reordered. */
    ghost predicate Conserves()
      reads this`pendingFlight, this`flightOffset, this`wpendPending, this`wpendTot, this`wpendRet
      reads this`sendAlert, this`alertDispatch, buffer, buffer.buf, transport, sealer
    {
      && Sound() && buffer.Straight()
      && Balanced(transport.output, buffer.Contents(), Unsent(), Wire(sealer.log))
    }

    /** A record of `len` bytes behind the flight is too large for the write buffer, or a block allocated
        at `heap` keeps it clear of the point where the buffer's offset wraps. */
    predicate RoomFor(len: nat, heap: nat)
      reads this`pendingFlight, this`flightOffset
    {
      var newCap := |Unsent()| + len + overhead;
      newCap > UINT16_MAX || AlignedOffset(|Unsent()| + alignPrefix, heap) + newCap <= WRAP
    }

    predicate AnyRoom(heap: nat)
      reads this`pendingFlight, this`flightOffset
    {
      forall len: nat | len <= maxSendFragment :: RoomFor(len, heap)
    }

    /** The sealer is about to succeed with `len` bytes behind the flight. */
    predicate WillSeal(len: nat)
      reads this`pendingFlight, this`flightOffset, sealer
    {
      && |Unsent()| + len + overhead <= UINT16_MAX
      && sealer.script != [] && sealer.script[0].Some? && |sealer.script[0].value| <= len + overhead
    }

    lemma SealsWhenClear(kind: RecordType, len: nat)
      ensures Clear(kind) && len > 0 && sealer.script != [] && len + overhead + |Unsent()| <= UINT16_MAX ==>
                WillSeal(len)
      ensures Clear(kind) && sealer.script != [] ==> sealer.script[0].Some?
    {
    }

    ghost function PendingApp(): nat
      reads this`wpendPending, this`wpendType, this`wpendTot
    {
      if wpendPending && wpendType == ApplicationData then wpendTot else 0
    }

    /** The application data sealed so far is what was reported as written and then the part of an
        unfinished write, each byte once. */
    ghost predicate Accounts()
      reads this`accepted, this`outstanding, this`wnum, this`wpendPending, this`wpendType, this`wpendTot, sealer
    {
      && Carried(sealer.log, ApplicationData) == accepted + outstanding
      && |outstanding| == wnum + PendingApp()
    }

    /** `data` repeats the data of the unfinished write, if there is one. */
    ghost predicate Retries(data: seq<Byte>)
      reads this`outstanding
    {
      outstanding <= data
    }

    /** A record under way is of this type, and what is sealed next fits its room. */
    ghost predicate Clear(kind: RecordType)
      reads this`wpendPending, this`wpendType, sealer
    {
      && movingBuffer && (wpendPending ==> wpendType == kind)
      && forall i: nat | i < |sealer.script| :: sealer.script[i].Some? && |sealer.script[i].value| <= 1 + overhead
    }

    ghost function Current(): Cursor
      reads this`pendingFlight, this`flightOffset, this`wpendPending, this`wpendTot, buffer, transport, sealer
    {
      Cursor(if wpendPending then wpendTot else 0, buffer.size, |Unsent()|, transport.script, sealer.script)
    }

    function How(): Writing {
      Writing(maxSendFragment, overhead, partialWrites)
    }

    constructor (transport: Transport, sealer: Sealer, maxSendFragment: nat, overhead: nat, alignPrefix: nat,
                 partialWrites: bool, movingBuffer: bool)
      requires transport.output == [] && sealer.log == []
      requires 0 < maxSendFragment <= MAX_PLAIN_LENGTH && maxSendFragment + overhead + ALIGN - 1 <= UINT16_MAX
      ensures Conserves() && Accounts() && fresh(buffer) && buffer.buf == null && buffer.size == 0
      ensures this.transport == transport && this.sealer == sealer && accepted == [] && outstanding == []
      ensures this.maxSendFragment == maxSendFragment && this.overhead == overhead && this.alignPrefix == alignPrefix
      ensures this.partialWrites == partialWrites && this.movingBuffer == movingBuffer
      ensures pendingFlight.None? && flightOffset == 0 && !wpendPending && !shutDown && wnum == 0
    {
      buffer := new Buffer();
      this.transport, this.sealer := transport, sealer;
      this.maxSendFragment, this.overhead, this.alignPrefix := maxSendFragment, overhead, alignPrefix;
      this.partialWrites, this.movingBuffer := partialWrites, movingBuffer;
      pendingFlight, flightOffset, shutDown, sendAlert, alertDispatch := None, 0, false, [], false;
      wnum, wpendTot, wpendBuf, wpendType, wpendRet, wpendPending := 0, 0, 0, Handshake, 0, false;
      accepted, outstanding := [], [];
    }

    /** tls_write_buffer_flush. */
    method FlushBuffer() returns (r: int)
      requires Sound()
      modifies buffer, transport
      ensures Sound() && (buffer.buf == old(buffer.buf) || buffer.buf == null)
      ensures old(Conserves()) ==> Conserves()
      ensures if r > 0 then r == 1 && buffer.Contents() == [] && buffer.size == 0 else buffer.size > 0
      ensures (buffer.size, transport.script, r) == FlushOf(old(buffer.size), old(transport.script))
    {
      hide Wire, Balanced, FlushOf, Conserves, Unsent;
      ghost var goal := FlushOf(buffer.size, transport.script);
      while buffer.size != 0
        invariant Sound() && buffer.buf == old(buffer.buf) && (old(Conserves()) ==> Conserves())
        invariant FlushOf(buffer.size, transport.script) == goal
        decreases buffer.size
      {
        FlushStep(buffer.size, transport.script);
        r := WriteQueued();
        if r <= 0 {
          return;
        }
      }
      FlushStep(0, transport.script);
      ConservesMeans();
      buffer.Clear();
      ConservesMeans();
      return 1;
    }

    /** One write of what is queued. */
    method WriteQueued() returns (r: int)
      requires Sound() && buffer.size > 0
      modifies buffer, transport
      ensures Sound() && buffer.buf == old(buffer.buf) && (old(Conserves()) ==> Conserves())
      ensures r == if old(transport.script) == [] then -1
                   else if old(transport.script)[0] > old(buffer.size) then old(buffer.size)
                   else old(transport.script)[0]
      ensures buffer.size == old(buffer.size) - if r > 0 then r else 0
      ensures transport.script == if old(transport.script) == [] then [] else old(transport.script)[1..]
    {
      hide Wire, Balanced;
      ghost var before, out := buffer.Contents(), transport.output;
      var b := buffer.buf[buffer.offset..buffer.offset + buffer.size];
      r := transport.Write(b);
      if r <= 0 {
        return;
      }
      buffer.Consume(r);
      if old(Conserves()) {
        TakeFromQueue(out, before, Unsent(), Wire(sealer.log), r);
      }
    }

    /** add_record_to_flight. It may not be called while a flight is partly written. */
    method AddRecordToFlight(kind: RecordType, b: seq<Byte>) returns (ok: bool)
      requires Sound() && flightOffset == 0
      modifies this`pendingFlight, sealer
      ensures Sound() && (old(Conserves()) ==> Conserves())
      ensures forall k :: Carried(sealer.log, k) ==
                          old(Carried(sealer.log, k)) + if ok && k == kind then b else []
      ensures ok <==> old(sealer.script) != [] && old(sealer.script)[0].Some?
                      && |old(sealer.script)[0].value| <= |b| + overhead
      ensures Unsent() == old(Unsent()) + if ok then old(sealer.script)[0].value else []
      ensures sealer.script == if ok then old(sealer.script)[1..] else old(sealer.script)
    {
      hide Wire, Carried, Balanced;
      if pendingFlight.None? {
        pendingFlight := Some([]);
      }
      var bytes;
      ok, bytes := sealer.Seal(kind, b, |b| + overhead);
      if !ok {
        return;
      }
      LogAppend(old(sealer.log), Sealed(kind, b, bytes));
      if old(Conserves()) {
        AddSealed(transport.output, buffer.Contents(), Unsent(), Wire(old(sealer.log)), bytes);
      }
      pendingFlight := Some(pendingFlight.value + bytes);
    }

    /** The records of one message: each of at most the largest fragment size. */
    method AddMessage(msg: seq<Byte>) returns (ok: bool)
      requires Sound() && flightOffset == 0
      modifies this`pendingFlight, sealer
      ensures Sound() && (old(Conserves()) ==> Conserves())
      ensures old(Accounts()) ==> Accounts()
      ensures ok ==> Carried(sealer.log, Handshake) == old(Carried(sealer.log, Handshake)) + msg
      ensures (ok, sealer.script) == MessageOf(old(sealer.script), |msg|, maxSendFragment, overhead)
    {
      hide Wire, Carried, Balanced, Conserves, Unsent, MessageOf;
      ghost var goal := MessageOf(sealer.script, |msg|, maxSendFragment, overhead);
      var rest := msg;
      ghost var done: seq<Byte> := [];
      var more := true;
      while more
        invariant Sound() && (old(Conserves()) ==> Conserves()) && done + rest == msg && (!more ==> rest == [])
        invariant Carried(sealer.log, ApplicationData) == old(Carried(sealer.log, ApplicationData))
        invariant Carried(sealer.log, Handshake) == old(Carried(sealer.log, Handshake)) + done
        invariant if more then goal == MessageOf(sealer.script, |rest|, maxSendFragment, overhead)
                  else goal == (true, sealer.script)
        decreases more, |rest|
      {
        MessageStep(sealer.script, |rest|, maxSendFragment, overhead);
        var chunk := FirstChunk(rest);
        rest := rest[|chunk|..];
        ok := AddRecordToFlight(Handshake, chunk);
        if !ok {
          return;
        }
        done := done + chunk;
        more := rest != [];
      }
      return true;
    }

    /** rest.subspan(0, max_send_fragment). */
    function FirstChunk(rest: seq<Byte>): (chunk: seq<Byte>)
      requires maxSendFragment > 0
      ensures |chunk| == Chunk(|rest|, maxSendFragment) && chunk <= rest && (rest != [] ==> chunk != [])
    {
      if |rest| > maxSendFragment then rest[..maxSendFragment] else rest
    }

    /** The loop of ssl3_flush_flight that writes the flight, once the write buffer is empty. */
    method DrainFlight() returns (r: int)
      requires Sound() && buffer.size == 0 && pendingFlight.Some?
      modifies this`flightOffset, transport
      ensures Sound() && (old(Conserves()) ==> Conserves())
      ensures r > 0 ==> Unsent() == [] && (old(Conserves()) ==> transport.output == Wire(sealer.log))
      ensures (|Unsent()|, transport.script, r) == FlushOf(old(|Unsent()|), old(transport.script))
    {
      hide Wire, Balanced, FlushOf, Conserves;
      ghost var goal := FlushOf(|Unsent()|, transport.script);
      while flightOffset < |pendingFlight.value|
        invariant Sound() && (old(Conserves()) ==> Conserves())
        invariant FlushOf(|Unsent()|, transport.script) == goal
        decreases |pendingFlight.value| - flightOffset
      {
        FlushStep(|Unsent()|, transport.script);
        r := WriteUnsent();
        if r <= 0 {
          return;
        }
      }
      FlushStep(0, transport.script);
      assert Unsent() == [];
      if old(Conserves()) {
        ConservesMeans();
        assert buffer.Contents() == [];
        AllOut(transport.output, Wire(sealer.log));
      }
      return 1;
    }

    /** One write of what the transport has not taken of the flight. */
    method WriteUnsent() returns (r: int)
      requires Sound() && buffer.size == 0 && pendingFlight.Some? && Unsent() != []
      modifies this`flightOffset, transport
      ensures Sound() && (old(Conserves()) ==> Conserves())
      ensures r == if old(transport.script) == [] then -1
                   else if old(transport.script)[0] > old(|Unsent()|) then old(|Unsent()|)
                   else old(transport.script)[0]
      ensures Unsent() == old(Unsent())[if r > 0 then r else 0..]
      ensures flightOffset == old(flightOffset) + if r > 0 then r else 0
      ensures transport.script == if old(transport.script) == [] then [] else old(transport.script)[1..]
    {
      hide Wire, Balanced;
      assert buffer.Contents() == [];
      ghost var out, unsent := transport.output, Unsent();
      r := transport.Write(pendingFlight.value[flightOffset..]);
      if r <= 0 {
        return;
      }
      if old(Conserves()) {
        TakeFromUnsent(out, unsent, Wire(sealer.log), r);
      }
      flightOffset := flightOffset + r;
      assert Unsent() == unsent[r..];
    }

    /** ssl3_flush_flight. When there is no flight it reports success without looking at the write
        buffer: so success means that everything sealed is on the wire exactly if there was a flight
        or nothing was buffered. */
    method FlushFlight() returns (r: int)
      requires Sound()
      modifies this`pendingFlight, this`flightOffset, buffer, transport
      ensures Sound() && (old(Conserves()) ==> Conserves()) && (buffer.buf == old(buffer.buf) || buffer.buf == null)
      ensures old(pendingFlight).None? ==> r == 1 && unchanged(this, buffer, transport)
      ensures r > 0 ==> r == 1 && pendingFlight.None?
      ensures r > 0 && old(Conserves()) ==>
                (transport.output == Wire(sealer.log) <==> old(pendingFlight).Some? || old(buffer.size) == 0)
      // The answers tell what happens, unless writing is over or the flight is longer than a write can be.
      ensures old(pendingFlight).Some? && (shutDown || |old(pendingFlight).value| > INT_MAX) ==>
                r == -1 && unchanged(this, buffer, transport)
      ensures old(pendingFlight).Some? && !shutDown && |old(pendingFlight).value| <= INT_MAX ==>
                && (buffer.size, |Unsent()|, transport.script, r)
                   == FlightOf(old(buffer.size), old(|Unsent()|), old(transport.script))
                && pendingFlight == if r > 0 then None else old(pendingFlight)
    {
      hide Wire, Balanced, FlushOf, Conserves;
      if pendingFlight.None? {
        if Conserves() {
          ConservesMeans();
          OutUnlessQueued(transport.output, buffer.Contents(), Wire(sealer.log));
        }
        return 1;
      }
      if shutDown {
        return -1;
      }
      if |pendingFlight.value| > INT_MAX {
        return -1;
      }
      r := FlushAll();
      if r <= 0 {
        return;
      }
      ConservesMeans();
      r := transport.Flush();
      ConservesMeans();
      if r <= 0 {
        return -1;
      }
      pendingFlight, flightOffset := None, 0;
      ConservesMeans();
      return 1;
    }

    /** The write buffer, which holds what comes before the flight, and then the flight. */
    method FlushAll() returns (r: int)
      requires Sound() && pendingFlight.Some?
      modifies this`flightOffset, buffer, transport
      ensures Sound() && (old(Conserves()) ==> Conserves()) && (buffer.buf == old(buffer.buf) || buffer.buf == null)
      ensures r > 0 ==> Unsent() == [] && (old(Conserves()) ==> transport.output == Wire(sealer.log))
      ensures r > 0 ==> buffer.size == 0
      ensures var (q, a, s) := FlushOf(old(buffer.size), old(transport.script));
              if s <= 0 then buffer.size == q && transport.script == a && r == s && Unsent() == old(Unsent())
              else buffer.size == 0 && (|Unsent()|, transport.script, r) == FlushOf(old(|Unsent()|), a)
    {
      hide Wire, Balanced, FlushOf, Conserves;
      FlushStep(0, transport.script);
      if buffer.size != 0 {
        r := FlushBuffer();
        if r <= 0 {
          return;
        }
      }
      r := DrainFlight();
    }

    /** ssl3_write_pending: flushes the record that is being written, if this call repeats the one
        that sealed it. */
    method WritePending(kind: RecordType, address: int, len: nat) returns (r: int)
      requires Sound() && wpendPending
      modifies this`wpendPending, buffer, transport
      ensures Sound() && (old(Conserves()) ==> Conserves()) && (buffer.buf == old(buffer.buf) || buffer.buf == null)
      ensures wpendPending <==> r <= 0
      ensures r > 0 ==> r == wpendTot <= len && kind == wpendType && buffer.size == 0
      ensures if wpendTot <= len && (movingBuffer || wpendBuf == address) && wpendType == kind
              then (Current(), r) == Flushed(old(Current())) else r == -1 && unchanged(this, buffer, transport)
    {
      hide Balanced, Wire;
      if wpendTot > len || (!movingBuffer && wpendBuf != address) || wpendType != kind {
        return -1;
      }
      r := FlushBuffer();
      if r <= 0 {
        return;
      }
      wpendPending := false;
      return wpendRet;
    }

    /** In do_ssl3_write, the rest of the flight becomes a prefix of the write buffer. */
    method MoveFlight()
      requires Sound() && buffer.size == 0 && buffer.cap >= |Unsent()|
      modifies this`pendingFlight, this`flightOffset, buffer`size, buffer.buf
      ensures Sound() && (old(Conserves()) ==> Conserves()) && pendingFlight.None?
      ensures buffer.Contents() == old(Unsent()) && buffer.size == old(|Unsent()|)
    {
      hide Balanced, Wire, Conserves;
      ConservesMeans();
      var flight := Unsent();
      assert buffer.Contents() == [];
      MoveToQueue(transport.output, flight, Wire(sealer.log));
      if pendingFlight.Some? {
        buffer.Append(flight);
        pendingFlight, flightOffset := None, 0;
      }
      assert buffer.Contents() == flight;
      ConservesMeans();
    }

    /** The part of do_ssl3_write that fills the write buffer: the rest of the flight, and then the
        sealed record. */
    method SealIntoBuffer(kind: RecordType, data: seq<Byte>, heap: nat) returns (ok: bool)
      requires Sound() && buffer.size == 0 && !wpendPending
      modifies this`pendingFlight, this`flightOffset, buffer, buffer.buf, sealer
      ensures Sound() && (buffer.buf == old(buffer.buf) || fresh(buffer.buf))
      ensures old(Conserves() && RoomFor(|data|, heap)) ==> Conserves()
      ensures Unsent() == old(Unsent()) || Unsent() == []
      ensures forall k :: Carried(sealer.log, k) ==
                          old(Carried(sealer.log, k)) + if ok && k == kind then data else []
      ensures ok ==> pendingFlight.None?
      ensures old(WillSeal(|data|)) ==>
                && ok && pendingFlight.None? && sealer.script == old(sealer.script)[1..]
                && buffer.size == |old(Unsent())| + |old(sealer.script)[0].value|
      ensures old(|data| + overhead + |Unsent()|) > UINT16_MAX ==> !ok && unchanged(this, buffer, sealer)
      ensures old(|data| + overhead + |Unsent()|) <= UINT16_MAX && old(sealer.script) == [] ==>
                !ok && sealer.script == [] && buffer.size == old(|Unsent()|) && Unsent() == []
    {
      hide Balanced, Wire, Carried;
      var flightLen := |Unsent()|;
      ok := buffer.EnsureCap(flightLen + alignPrefix, |data| + overhead + flightLen, heap);
      if !ok {
        return;
      }
      ghost var straight := old(Conserves() && RoomFor(|data|, heap));
      assert straight ==> Conserves();
      MoveFlight();
      assert Unsent() == [];
      ok := SealBehind(kind, data);
    }

    /** The record is sealed behind what the buffer holds. */
    method SealBehind(kind: RecordType, data: seq<Byte>) returns (ok: bool)
      requires Sound() && Unsent() == []
      modifies buffer`size, buffer.buf, sealer
      ensures Sound() && (old(Conserves()) ==> Conserves())
      ensures forall k :: Carried(sealer.log, k) ==
                          old(Carried(sealer.log, k)) + if ok && k == kind then data else []
      ensures ok <==> old(sealer.script) != [] && old(sealer.script)[0].Some?
                      && |old(sealer.script)[0].value| <= old(buffer.cap - buffer.size)
      ensures sealer.script == if ok then old(sealer.script)[1..] else old(sealer.script)
      ensures buffer.size == old(buffer.size) + if ok then |old(sealer.script)[0].value| else 0
    {
      hide Balanced, Wire, Carried;
      ghost var queue, log := buffer.Contents(), sealer.log;
      var bytes;
      ok, bytes := sealer.Seal(kind, data, buffer.cap - buffer.size);
      if !ok {
        return;
      }
      LogAppend(log, Sealed(kind, data, bytes));
      if old(Conserves()) {
        AddSealed(transport.output, queue, [], Wire(log), bytes);
      }
      buffer.Append(bytes);
    }

    /** do_ssl3_write: with a record pending, a retry of that record; otherwise a new record. Either
        way success means the record is on the wire and `r` of its bytes count as written. */
    method DoWrite(kind: RecordType, address: int, data: seq<Byte>, heap: nat) returns (r: int)
      requires Sound()
      modifies this`pendingFlight, this`flightOffset, this`wpendTot, this`wpendBuf, this`wpendType,
               this`wpendRet, this`wpendPending, buffer, buffer.buf, transport, sealer
      ensures Sound() && (buffer.buf == old(buffer.buf) || buffer.buf == null || fresh(buffer.buf))
      ensures old(Conserves() && RoomFor(|data|, heap)) ==> Conserves()
      ensures Unsent() == old(Unsent()) || Unsent() == []
      ensures r > 0 ==> !wpendPending && buffer.size == 0 && r <= |data|
      // A retry seals nothing.
      ensures old(wpendPending) ==>
                && (forall k :: Carried(sealer.log, k) == old(Carried(sealer.log, k)))
                && wpendTot == old(wpendTot) && wpendType == old(wpendType) && wpendBuf == old(wpendBuf)
                && (wpendPending <==> r <= 0)
                && (r > 0 ==> r == wpendTot && kind == wpendType)
      // Otherwise the data is sealed, as one record, exactly when that record is written or pending.
      ensures !old(wpendPending) ==>
                && (forall k :: Carried(sealer.log, k) ==
                                old(Carried(sealer.log, k)) + if (wpendPending || r > 0) && k == kind then data else [])
                && (wpendPending ==> wpendTot == |data| && wpendType == kind && wpendBuf == address)
                && (r > 0 ==> r == |data|)
      // With it goes the flight.
      ensures !old(wpendPending) && wpendPending ==> pendingFlight.None?
      // The answers tell what happens.
      ensures old(Clear(kind)) && |data| <= MAX_PLAIN_LENGTH ==>
                Clear(kind) && (Current(), r) == TurnOf(old(Current()), |data|, overhead)
    {
      hide Balanced, Wire, Carried, Conserves, RoomFor, FlushOf, Flushed, WillSeal;
      if wpendPending {
        r := WritePending(kind, address, |data|);
        return;
      }
      if |data| > MAX_PLAIN_LENGTH || buffer.size > 0 {
        return -1;
      }
      if data == [] {
        return 0;
      }
      SealsWhenClear(kind, |data|);
      var ok := SealNew(kind, address, data, heap);
      if !ok {
        return -1;
      }
      r := WritePending(kind, address, |data|);
    }

    /** A new record is sealed and noted as pending. */
    method SealNew(kind: RecordType, address: int, data: seq<Byte>, heap: nat) returns (ok: bool)
      requires Sound() && buffer.size == 0 && !wpendPending && data != []
      modifies this`pendingFlight, this`flightOffset, this`wpendTot, this`wpendBuf, this`wpendType,
               this`wpendRet, this`wpendPending, buffer, buffer.buf, sealer
      ensures Sound() && (buffer.buf == old(buffer.buf) || fresh(buffer.buf))
      ensures old(Conserves() && RoomFor(|data|, heap)) ==> Conserves()
      ensures Unsent() == old(Unsent()) || Unsent() == []
      ensures forall k :: Carried(sealer.log, k) ==
                          old(Carried(sealer.log, k)) + if ok && k == kind then data else []
      ensures if ok then wpendPending && wpendTot == |data| && wpendType == kind && wpendBuf == address
              else !wpendPending
      ensures ok ==> pendingFlight.None?
      ensures old(WillSeal(|data|)) ==>
                && ok && pendingFlight.None? && sealer.script == old(sealer.script)[1..]
                && buffer.size == |old(Unsent())| + |old(sealer.script)[0].value|
      ensures old(|data| + overhead + |Unsent()|) > UINT16_MAX ==> !ok && unchanged(this, buffer, sealer)
      ensures old(|data| + overhead + |Unsent()|) <= UINT16_MAX && old(sealer.script) == [] ==>
                !ok && sealer.script == [] && buffer.size == old(|Unsent()|) && Unsent() == []
    {
      hide Balanced, Wire, Carried, Conserves, RoomFor, WillSeal;
      ok := SealIntoBuffer(kind, data, heap);
      if !ok {
        return;
      }
      ConservesMeans();
      wpendTot, wpendBuf, wpendType, wpendRet, wpendPending := |data|, address, kind, |data|, true;
      ConservesMeans();
    }

    lemma ConservesMeans()
      ensures Conserves() <==> Sound() && buffer.Straight()
                               && Balanced(transport.output, buffer.Contents(), Unsent(), Wire(sealer.log))
    {
    }

    /** With `tot` bytes of `data` written by earlier turns, the data sealed and not reported is a
        beginning of `data`. */
    ghost predicate Progress(data: seq<Byte>, tot: nat)
      reads this`accepted, this`outstanding, this`wpendPending, this`wpendType, this`wpendTot, sealer
    {
      Advanced(AppData(), accepted, outstanding, PendingApp(), data, tot)
    }

    /** The application data sealed so far. */
    ghost function AppData(): seq<Byte>
      reads sealer
    {
      Carried(sealer.log, ApplicationData)
    }

    /** One turn of ssl3_write_app_data's loop. */
    method WriteChunk(address: int, data: seq<Byte>, tot: nat, heap: nat) returns (r: int)
      requires Sound() && tot <= |data|
      modifies this`pendingFlight, this`flightOffset, this`wpendTot, this`wpendBuf, this`wpendType,
               this`wpendRet, this`wpendPending, this`outstanding, buffer, buffer.buf, transport, sealer
      ensures Sound() && (buffer.buf == old(buffer.buf) || buffer.buf == null || fresh(buffer.buf))
      ensures old(Conserves() && AnyRoom(heap)) ==> Conserves() && AnyRoom(heap)
      ensures r > 0 ==> r <= |data| - tot && buffer.size == 0 && !wpendPending
      ensures old(Progress(data, tot)) ==>
                old(outstanding) <= outstanding && Progress(data, if r > 0 then tot + r else tot)
      ensures Grew(old(AppData()), AppData(), data, tot + old(PendingApp()), tot + if r > 0 then r else PendingApp())
      ensures old(Clear(ApplicationData)) ==>
                && Clear(ApplicationData)
                && (Current(), r) == TurnOf(old(Current()), Chunk(|data| - tot, maxSendFragment), overhead)
    {
      hide Carried, Conserves, RoomFor, AnyRoom, Sound, Unsent, Grew, Advanced;
      var nw := Chunk(|data| - tot, maxSendFragment);
      var chunk := data[tot..tot + nw];
      RoomForThis(nw, heap);
      ShortFragments();
      ghost var before := outstanding;
      ghost var turn := Turn(PendingApp(), 0, nw, 0, wpendPending, false);
      r := DoWrite(ApplicationData, address + tot, chunk, heap);
      turn := turn.(after := PendingApp(), r := r, sealed := !turn.pending && (wpendPending || r > 0));
      if turn.sealed {
        outstanding := outstanding + chunk;
      }
      TurnAdvances(old(AppData()), AppData(), accepted, before, outstanding, data, tot, turn);
      StillRoom(heap);
    }

    lemma ShortFragments()
      requires Sound()
      ensures maxSendFragment <= MAX_PLAIN_LENGTH
    {
    }

    lemma RoomForThis(len: nat, heap: nat)
      ensures AnyRoom(heap) && len <= maxSendFragment ==> RoomFor(len, heap)
    {
    }

    twostate lemma StillRoom(heap: nat)
      requires old(Sound()) && (Unsent() == old(Unsent()) || Unsent() == [])
      ensures old(AnyRoom(heap)) ==> AnyRoom(heap)
    {
      hide AlignedOffset;
      if old(AnyRoom(heap)) {
        forall len: nat | len <= maxSendFragment
          ensures RoomFor(len, heap)
        {
          assert old(RoomFor(len, heap));
          if Unsent() == [] {
            AlwaysRoom(len, heap);
          }
        }
      }
    }

    lemma AlwaysRoom(len: nat, heap: nat)
      requires maxSendFragment + overhead + ALIGN - 1 <= UINT16_MAX && len <= maxSendFragment && Unsent() == []
      ensures RoomFor(len, heap)
    {
      hide AlignedOffset;
    }

    /** ssl3_write_app_data. Every byte reported as written has been sealed once, in order; a failed
        call that is repeated with the same data goes on where it stopped. Without partial writes
        success means that all of the data is on the wire. A retry with too little data forgets how far
        the write had come. */
    method WriteAppData(address: int, data: seq<Byte>, heap: nat) returns (r: int)
      requires Sound()
      modifies this, buffer, buffer.buf, transport, sealer
      ensures Sound() && (buffer.buf == old(buffer.buf) || buffer.buf == null || fresh(buffer.buf))
      ensures old(Conserves() && AnyRoom(heap)) ==> Conserves()
      ensures r > 0 ==> r <= |data| && buffer.size == 0 && (partialWrites || r == |data|)
      ensures accepted == old(accepted) + if r > 0 then data[..r] else []
      ensures old(Accounts() && Retries(data)) ==>
                && Accounts() && old(outstanding) <= outstanding + (if r > 0 then data[..r] else []) <= data
                && (r > 0 ==> outstanding == [])
      ensures shutDown == old(shutDown)
      ensures old(shutDown) ==> r == -1 && unchanged(this, buffer, sealer)
      ensures !old(shutDown) && |data| < old(wnum) ==>
                && r == -1 && wnum == 0 && PendingApp() == old(PendingApp()) && AppData() == old(AppData())
                && outstanding == old(outstanding) && (old(Accounts()) ==> !Accounts())
      ensures !old(shutDown) && old(wnum) <= |data| ==>
                Grew(old(AppData()), AppData(), data, old(wnum + PendingApp()),
                     if r > 0 then r else wnum + PendingApp())
      ensures !old(shutDown) && old(Clear(ApplicationData)) ==>
                && Clear(ApplicationData)
                && (Current(), r, wnum) ==
                   if |data| < old(wnum) then (old(Current()), -1, 0)
                   else LoopOf(old(Current()), old(wnum), |data|, How())
    {
      hide Carried, Conserves, AnyRoom, Unsent, RoomFor, Sound, Grew, Advanced;
      if shutDown {
        return -1;
      }
      var tot := wnum;
      Forgets();
      Begins(AppData(), accepted, outstanding, PendingApp(), data, tot);
      wnum := 0;
      if |data| < tot {
        return -1;
      }
      r := WriteRest(address, data, tot, heap);
    }

    /** What its loop comes to, from the first `start` bytes of the data on. */
    method WriteRest(address: int, data: seq<Byte>, start: nat, heap: nat) returns (r: int)
      requires Sound() && start <= |data| && wnum == 0
      modifies this`wnum, this`accepted, this`pendingFlight, this`flightOffset, this`wpendTot, this`wpendBuf,
               this`wpendType, this`wpendRet, this`wpendPending, this`outstanding, buffer, buffer.buf, transport, sealer
      ensures Sound() && (buffer.buf == old(buffer.buf) || buffer.buf == null || fresh(buffer.buf))
      ensures old(Conserves() && AnyRoom(heap)) ==> Conserves()
      ensures r > 0 ==> r <= |data| && buffer.size == 0 && (partialWrites || r == |data|)
      ensures accepted == old(accepted) + if r > 0 then data[..r] else []
      ensures old(Progress(data, start)) ==>
                && Accounts() && old(outstanding) <= outstanding + (if r > 0 then data[..r] else []) <= data
                && (r > 0 ==> outstanding == [])
      ensures Grew(old(AppData()), AppData(), data, start + old(PendingApp()), if r > 0 then r else wnum + PendingApp())
      ensures old(Clear(ApplicationData)) ==>
                && Clear(ApplicationData)
                && (Current(), r, wnum) == LoopOf(old(Current()), start, |data|, How())
    {
      hide Carried, Conserves, AnyRoom, Unsent, RoomFor, Sound, Grew, Advanced, Clear, LoopOf, Chunk, Current;
      var tot;
      r, tot := WriteTurns(address, data, start, heap);
      if r <= 0 {
        Unfinished(AppData(), accepted, outstanding, PendingApp(), data, tot);
        wnum := tot;
      } else {
        Reports(AppData(), accepted, outstanding, data, tot);
        accepted := accepted + data[..tot];
        outstanding := [];
      }
    }

    /** The turns themselves: `tot` bytes are written when the last of them is over. */
    method WriteTurns(address: int, data: seq<Byte>, start: nat, heap: nat) returns (r: int, tot: nat)
      requires Sound() && start <= |data|
      modifies this`pendingFlight, this`flightOffset, this`wpendTot, this`wpendBuf, this`wpendType,
               this`wpendRet, this`wpendPending, this`outstanding, buffer, buffer.buf, transport, sealer
      ensures Sound() && (buffer.buf == old(buffer.buf) || buffer.buf == null || fresh(buffer.buf))
      ensures old(Conserves() && AnyRoom(heap)) ==> Conserves()
      ensures start <= tot <= |data|
      ensures r > 0 ==> r == tot && buffer.size == 0 && !wpendPending && (partialWrites || tot == |data|)
      ensures old(Progress(data, start)) ==> Progress(data, tot) && old(outstanding) <= outstanding
      ensures Grew(old(AppData()), AppData(), data, start + old(PendingApp()), tot + PendingApp())
      ensures old(Clear(ApplicationData)) ==>
                && Clear(ApplicationData)
                && (Current(), r, if r > 0 then 0 else tot) == LoopOf(old(Current()), start, |data|, How())
    {
      hide Carried, Conserves, AnyRoom, Unsent, RoomFor, Sound, Grew, Advanced, Clear, LoopOf, TurnOf, Chunk, Current;
      ghost var clear, goal := Clear(ApplicationData), LoopOf(Current(), start, |data|, How());
      Begins(AppData(), accepted, outstanding, PendingApp(), data, start);
      var n := |data| - start;
      tot := start;
      while true
        invariant Sound() && (old(Conserves() && AnyRoom(heap)) ==> Conserves() && AnyRoom(heap))
        invariant buffer.buf == old(buffer.buf) || buffer.buf == null || fresh(buffer.buf)
        invariant start <= tot && tot + n == |data| && 0 <= n
        invariant old(Progress(data, start)) ==> Progress(data, tot) && old(outstanding) <= outstanding
        invariant Grew(old(AppData()), AppData(), data, start + old(PendingApp()), tot + PendingApp())
        invariant clear ==> Clear(ApplicationData) && goal == LoopOf(Current(), tot, |data|, How())
        decreases n
      {
        ghost var was, from := AppData(), tot + PendingApp();
        LoopStep(Current(), tot, |data|, How());
        r := WriteChunk(address, data, tot, heap);
        GrewOn(old(AppData()), was, AppData(), data, start + old(PendingApp()), from,
               tot + if r > 0 then r else PendingApp());
        if r <= 0 {
          return;
        }
        tot := tot + r;
        if r == n || partialWrites {
          r := tot;
          return;
        }
        n := n - r;
      }
    }

    /** How far a write has come matters to the accounts. */
    lemma Forgets()
      ensures Accounts() && wnum > 0 ==> |outstanding| != PendingApp()
    {
    }

    /** ssl3_dispatch_alert: the alert is sealed at most once, and success means that it is on the wire. */
    method DispatchAlert(heap: nat) returns (r: int)
      requires Sound() && alertDispatch
      modifies this`pendingFlight, this`flightOffset, this`wpendTot, this`wpendBuf, this`wpendType,
               this`wpendRet, this`wpendPending, this`alertDispatch, buffer, buffer.buf, transport, sealer
      ensures Sound() && (buffer.buf == old(buffer.buf) || buffer.buf == null || fresh(buffer.buf))
      ensures old(Conserves() && RoomFor(2, heap)) ==> Conserves()
      ensures old(Accounts()) ==> Accounts()
      ensures if r > 0 then r == 1 && !alertDispatch && buffer.size == 0 && !wpendPending else alertDispatch
      ensures AppData() == old(AppData())
      ensures Carried(sealer.log, Alert) == old(Carried(sealer.log, Alert)) +
                if !old(wpendPending) && (wpendPending || r > 0) then sendAlert else []
      ensures old(Clear(Alert)) ==>
                var (c, s) := TurnOf(old(Current()), 2, overhead);
                && Clear(Alert) && r == (if s > 0 then 1 else s)
                && Current() == if s > 0 && sendAlert[0] == FATAL && c.answers != []
                                then c.(answers := c.answers[1..]) else c
    {
      hide Balanced, Wire, Carried, Conserves, Unsent, RoomFor, TurnOf;
      r := DoWrite(Alert, ALERT_ADDRESS, sendAlert, heap);
      if r <= 0 {
        return;
      }
      ConservesMeans();
      alertDispatch := false;
      var flushed;
      if sendAlert[0] == FATAL {
        flushed := transport.Flush();
      }
      ConservesMeans();
      return 1;
    }

    /** ssl_send_alert: the alert is dispatched at once only if nothing is queued; either way no
        application data can be written after it. */
    method SendAlert(level: Byte, description: Byte, heap: nat) returns (r: int)
      requires Sound()
      modifies this, buffer, buffer.buf, transport, sealer
      ensures Sound() && (buffer.buf == old(buffer.buf) || buffer.buf == null || fresh(buffer.buf))
      ensures old(Conserves() && RoomFor(2, heap)) ==> Conserves()
      ensures old(Accounts()) ==> Accounts()
      ensures accepted == old(accepted) && outstanding == old(outstanding) && shutDown && AppData() == old(AppData())
      ensures old(shutDown) ==> r == -1 && unchanged(this, buffer, sealer, transport)
      ensures !old(shutDown) ==>
                && sendAlert == [level, description]
                && (if r > 0 then r == 1 && !alertDispatch && buffer.size == 0 else alertDispatch)
                && (old(buffer.size) != 0 ==> r == -1 && unchanged(buffer, sealer, transport))
                && (old(buffer.size) == 0 && old(Clear(Alert)) ==>
                      r == var s := TurnOf(old(Current()), 2, overhead).1; if s > 0 then 1 else s)
    {
      hide Balanced, Wire, Carried, Unsent, RoomFor, TurnOf;
      if shutDown {
        return -1;
      }
      shutDown := true;
      alertDispatch := true;
      sendAlert := [level, description];
      if buffer.size == 0 {
        r := DispatchAlert(heap);
      } else {
        return -1;
      }
    }
  }

  /** With `tot` bytes of `data` written and `pending` more under way, what is sealed and not reported is
      the beginning of `data`. */
  predicate Advanced(sealed: seq<Byte>, accepted: seq<Byte>, outstanding: seq<Byte>, pending: nat,
                     data: seq<Byte>, tot: nat)
  {
    sealed == accepted + outstanding && |outstanding| == tot + pending && outstanding <= data
  }

  /** One turn of writing: application data under way before and after, the chunk's length, the result,
      whether a record was pending, and whether the chunk was sealed. */
  datatype Turn = Turn(before: nat, after: nat, nw: nat, r: int, pending: bool, sealed: bool)

  /** A retry seals nothing and ends with the record or leaves it pending; a new record is sealed
      exactly if it is then written or pending. */
  predicate ProperTurn(t: Turn) {
    && t.r <= t.nw && (t.r > 0 ==> t.after == 0)
    && (if t.pending then !t.sealed && (if t.r > 0 then t.before == t.r else t.after == t.before)
        else t.before == 0 && (if t.sealed then (if t.r > 0 then t.r == t.nw else t.after == t.nw)
                               else t.r <= 0 && t.after == 0))
  }

  lemma TurnAdvances(was: seq<Byte>, now: seq<Byte>, accepted: seq<Byte>, before: seq<Byte>, after: seq<Byte>,
                     data: seq<Byte>, tot: nat, t: Turn)
    requires ProperTurn(t) && tot + t.nw <= |data|
    requires now == was + (if t.sealed then data[tot..tot + t.nw] else [])
    requires after == before + (if t.sealed then data[tot..tot + t.nw] else [])
    ensures Grew(was, now, data, tot + t.before, tot + if t.r > 0 then t.r else t.after)
    ensures Advanced(was, accepted, before, t.before, data, tot) ==>
              before <= after && Advanced(now, accepted, after, t.after, data, if t.r > 0 then tot + t.r else tot)
  {
    if t.sealed && Advanced(was, accepted, before, t.before, data, tot) {
      assert before == data[..tot];
      assert after == data[..tot + t.nw];
      assert now == accepted + before + data[tot..tot + t.nw] == accepted + after;
    }
  }

  lemma Begins(sealed: seq<Byte>, accepted: seq<Byte>, outstanding: seq<Byte>, pending: nat, data: seq<Byte>, tot: nat)
    ensures Grew(sealed, sealed, data, tot + pending, tot + pending)
    ensures sealed == accepted + outstanding && |outstanding| == tot + pending && outstanding <= data ==>
              Advanced(sealed, accepted, outstanding, pending, data, tot)
  {
  }

  lemma Unfinished(sealed: seq<Byte>, accepted: seq<Byte>, outstanding: seq<Byte>, pending: nat,
                   data: seq<Byte>, tot: nat)
    ensures Advanced(sealed, accepted, outstanding, pending, data, tot) ==>
              sealed == accepted + outstanding && |outstanding| == tot + pending && outstanding <= data
  {
  }

  lemma Reports(sealed: seq<Byte>, accepted: seq<Byte>, outstanding: seq<Byte>, data: seq<Byte>, total: nat)
    requires total <= |data|
    ensures Advanced(sealed, accepted, outstanding, 0, data, total) ==>
              outstanding == data[..total] && sealed == accepted + data[..total] + []
  {
  }

  /** `data[start..end]` is what has come to the sealed data. */
  predicate Grew(was: seq<Byte>, now: seq<Byte>, data: seq<Byte>, start: nat, end: nat) {
    && start <= end && (start == end ==> now == was)
    && (start < end ==> end <= |data| && now == was + data[start..end])
  }

  lemma GrewOn(a: seq<Byte>, b: seq<Byte>, c: seq<Byte>, data: seq<Byte>, i: nat, j: nat, k: nat)
    requires Grew(a, b, data, i, j) && Grew(b, c, data, j, k)
    ensures Grew(a, c, data, i, k)
  {
    if i < j < k {
      assert data[i..j] + data[j..k] == data[i..k];
      assert a + data[i..j] + data[j..k] == a + (data[i..j] + data[j..k]);
    }
  }

  lemma OutUnlessQueued(out: seq<Byte>, queue: seq<Byte>, wire: seq<Byte>)
    requires Balanced(out, queue, [], wire)
    ensures out == wire <==> queue == []
  {
  }

  /** Where the writer keeps the alert it sends. */
  const ALERT_ADDRESS: int := -1
  const FATAL: Byte := 2

  /** A flight of one record and then a write against a transport that would block: the write takes the
      flight along into the buffer, and flushing the flight reports success with nothing on the wire. */
  method FlushOverlooksBuffer() returns (w: Writer, r: int)
    ensures w.Conserves() && w.pendingFlight.None? && w.buffer.size > 0
    ensures r == 1 && w.transport.output != Wire(w.sealer.log)
    ensures Carried(w.sealer.log, Handshake) == [20] && Carried(w.sealer.log, ApplicationData) == [2]
  {
    hide Carried, Wire, Balanced, Writer.Conserves;
    w := BlockedWrite();
    r := w.FlushFlight();
  }

  /** A record of one byte with no answer to come. */
  lemma WouldBlock()
    ensures TurnOf(Cursor(0, 0, 1, [], [Some([9])]), 1, 10) == (Cursor(1, 2, 0, [], []), -1)
  {
    var seals: seq<Option<seq<Byte>>> := [Some([9])];
    assert seals[1..] == [];
    FlushStep(2, []);
  }

  method BlockedWrite() returns (w: Writer)
    ensures fresh(w) && fresh(w.buffer) && fresh(w.transport)
    ensures w.Sound() && w.Conserves() && w.pendingFlight.None? && w.buffer.size > 0
    ensures Carried(w.sealer.log, Handshake) == [20] && Carried(w.sealer.log, ApplicationData) == [2]
  {
    hide Carried, Wire, Balanced, Writer.Conserves, Writer.Sound, TurnOf, Flushed, FlushOf;
    var transport := new Transport([]);
    var sealer := new Sealer([Some([8]), Some([9])]);
    w := new Writer(transport, sealer, 100, 10, 0, false, true);
    NothingCarried();
    w.ConservesMeans();
    assert w.Unsent() == [];
    var ok := w.AddRecordToFlight(Handshake, [20]);
    assert w.Unsent() == [8] && sealer.script == [Some([9])];
    WouldBlock();
    assert w.Current() == Cursor(0, 0, 1, [], [Some([9])]);
    var r := w.DoWrite(ApplicationData, 0, [2], 0);
  }

  lemma NothingCarried()
    ensures forall k :: Carried([], k) == []
  {
  }

  /** A write that stopped after `w.wnum` bytes is retried with less data, and then with all of it again:
      the write starts over, and the bytes of its finished records are sealed a second time. */
  method ShortRetrySealsTwice(w: Writer, address: int, short: seq<Byte>, data: seq<Byte>, heap: nat) returns (r: int)
    requires w.Sound() && w.Accounts() && w.Retries(data) && !w.shutDown && |short| < w.wnum
    modifies w, w.buffer, w.buffer.buf, w.transport, w.sealer
    ensures r == |data| ==>
              w.AppData() == old(w.accepted) + data[..old(w.wnum + w.PendingApp())] + data[old(w.PendingApp())..]
    ensures r <= |data| && w.accepted == old(w.accepted) + if r > 0 then data[..r] else []
    ensures old(w.Clear(ApplicationData)) ==> r == LoopOf(old(w.Current()), 0, |data|, w.How()).1
  {
    hide Carried, Wire, Balanced, Writer.Sound, Writer.Conserves, Writer.AnyRoom, LoopOf,
         Writer.Clear;
    r := w.WriteAppData(address, short, heap);
    assert w.outstanding == data[..old(w.wnum + w.PendingApp())];
    r := w.WriteAppData(address, data, heap);
    if r == |data| {
      assert data[old(w.PendingApp())..r] == data[old(w.PendingApp())..];
    }
  }

  const TWO: seq<Byte> := [1, 2]

  /** The two writes, by the answers they meet. */
  lemma StopsAndGoes()
    ensures var how := Writing(1, 0, false);
            && LoopOf(Cursor(0, 0, 0, [1, -1, 1, 1], [Some([8]), Some([9]), Some([5])]), 0, 2, how)
               == (Cursor(1, 1, 0, [1, 1], [Some([5])]), -1, 1)
            && LoopOf(Cursor(1, 1, 0, [1, 1], [Some([5])]), 0, 2, how) == (Cursor(0, 0, 0, [], []), 2, 0)
  {
    var a: seq<int> := [1, -1, 1, 1];
    var s: seq<Option<seq<Byte>>> := [Some([8]), Some([9]), Some([5])];
    assert a[1..] == [-1, 1, 1] && a[1..][1..] == [1, 1] && [1, 1][1..] == [1] && [1][1..] == [];
    assert s[1..] == [Some([9]), Some([5])] && s[1..][1..] == [Some([5])] && [Some([5 as Byte])][1..] == [];
  }

  lemma StartsClear(w: Writer)
    requires w.pendingFlight.None? && w.movingBuffer && !w.wpendPending && w.buffer.size == 0
    requires forall i: nat | i < |w.sealer.script| :: w.sealer.script[i].Some? && |w.sealer.script[i].value| <= 1
    ensures w.Clear(ApplicationData) && w.Unsent() == []
  {
  }

  /** Two bytes are written, one to a record, against a transport that takes the first record and then would
      block; the write is retried with no data, which fails, and then with the two bytes again, which
      succeeds. The second byte has been sealed, and is on the wire, twice. */
  method SecondByteTwice() returns (w: Writer, r: int)
    ensures r == 2 && w.accepted == TWO && w.AppData() == [1, 2, 2]
  {
    hide Carried, Wire, Balanced, Writer.Sound, Writer.Conserves, Writer.AnyRoom, Writer.AppData, LoopOf, Writer.Unsent;
    var transport := new Transport([1, -1, 1, 1]);
    var sealer := new Sealer([Some([8]), Some([9]), Some([5])]);
    w := new Writer(transport, sealer, 1, 0, 0, false, true);
    StartsClear(w);
    StopsAndGoes();
    r := w.WriteAppData(0, TWO, 0);
    assert r == -1 && w.wnum == 1;
    r := ShortRetrySealsTwice(w, 0, [], TWO, 0);
    assert [] + TWO[..2] + TWO[1..] == [1, 2, 2];
  }

  datatype Operation =
    | Write(address: int, data: seq<Byte>, heap: nat)
    | Message(msg: seq<Byte>)
    | Flush
    | CloseWith(level: Byte, description: Byte, heap: nat)
    | Dispatch(heap: nat)

  /** Any mix of operations, with any answers of the transport and the sealer and any addresses of blocks.
      `roomy`: no record came near the point where the buffer's offset wraps. Then the bytes on the wire
      and still to come are the sealed records in order. `honest`: the caller repeated the data of each
      unfinished write. Then the application data sealed is what was reported as written and the beginning
      of an unfinished write. */
  method AnyRun(w: Writer, operations: seq<Operation>) returns (ghost honest: bool, ghost roomy: bool)
    requires w.Conserves() && w.Accounts()
    modifies w, w.buffer, w.buffer.buf, w.transport, w.sealer
    ensures w.Sound()
    ensures roomy ==> w.transport.output + w.buffer.Contents() + w.Unsent() == Wire(w.sealer.log)
    ensures honest ==> Carried(w.sealer.log, ApplicationData) == w.accepted + w.outstanding
  {
    honest, roomy := true, true;
    for i := 0 to |operations|
      invariant w.Sound() && (roomy ==> w.Conserves()) && (honest ==> w.Accounts())
      invariant w.buffer.buf == old(w.buffer.buf) || w.buffer.buf == null || fresh(w.buffer.buf)
    {
      hide Balanced, Wire, Carried, Writer.Conserves, Writer.Accounts, Writer.AnyRoom, Writer.RoomFor, Writer.Retries,
           Writer.Sound;
      var r, ok;
      match operations[i] {
        case Write(address, data, heap) =>
          honest := honest && w.Retries(data);
          roomy := roomy && w.AnyRoom(heap);
          r := w.WriteAppData(address, data, heap);
        case Message(msg) =>
          if w.flightOffset == 0 {
            ok := w.AddMessage(msg);
          }
        case Flush =>
          r := w.FlushFlight();
        case CloseWith(level, description, heap) =>
          roomy := roomy && w.RoomFor(2, heap);
          r := w.SendAlert(level, description, heap);
        case Dispatch(heap) =>
          if w.alertDispatch {
            roomy := roomy && w.RoomFor(2, heap);
            r := w.DispatchAlert(heap);
          }
      }
    }
  }
}
