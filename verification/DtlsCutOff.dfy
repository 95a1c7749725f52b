/** Exactly when a packet is cut off after some of its records were sealed, as lengths, keys and counters
    tell beforehand, and what is lost then. */
module DtlsCutOff {
  import opened Common
  import opened DtlsFragment
  import opened DtlsReceive
  import opened DtlsRecords
  import opened DtlsFlight
  import opened DtlsCoverage
  import opened DtlsReady

  /** The packets sending tries, in order: one for each datagram taken, and one more if it goes on. */
  function Attempts(s: Sender, mtu: nat, answers: seq<int>): seq<Packet>
    requires s.written <= |s.flight|
    decreases |answers|
  {
    if s.written == |s.flight| then []
    else
      var p := SealFrom(s, mtu);
      [p] + if PacketOk(p) && answers != [] && answers[0] > 0 then Attempts(p.next, mtu, answers[1..]) else []
  }

  /** The sender with its record numbers starting from zero: what it packs shows the flight's layout. */
  function Renumbered(s: Sender): Sender {
    s.(keys := s.keys.(sequence := 0, lastSequence := 0))
  }

  /** Of the layout's record, counted from `keys`, the number is the last one of its epoch. */
  predicate TakesLast(keys: WriteState, r: Record) {
    r.number + UsedSequence(keys, r.epoch != keys.epoch) == MAX_SEQUENCE
  }

  function FirstLast(keys: WriteState, records: seq<Record>): (i: nat)
    ensures i <= |records|
  {
    if records == [] || TakesLast(keys, records[0]) then 0 else 1 + FirstLast(keys, records[1..])
  }

  /** In the layout, the first record to take the last number of its epoch, or the first message that
      does not fit a record, is not the first of its packet. */
  predicate CutsOff(keys: WriteState, packets: seq<Packet>) {
    packets != [] &&
    var i := FirstLast(keys, packets[0].records);
    if i < |packets[0].records| then i > 0
    else (packets[0].stop == Failed && packets[0].records != []) || CutsOff(keys, packets[1..])
  }

  // What does not fit a record.

  /** The record of the message at hand, which there is room for, outgrows its 16-bit length. */
  predicate Outgrows(s: Sender, msg: Outgoing, room: nat)
    requires !msg.isCcs ==> StoredMessage(msg.data).Some?
  {
    var previous := UsesPrevious(s.keys, msg);
    var aead := UsedAead(s.keys, previous);
    if msg.isCcs then room >= 1 + RT_HEADER_LENGTH + aead.maxOverhead && SealedLen(aead, 1) >= U16
    else
      var whole := StoredMessage(msg.data).value;
      && room >= HM_HEADER_LENGTH + 1 + RT_HEADER_LENGTH + aead.maxOverhead
      && s.offset <= |whole.body|
      && SealedLen(aead, HM_HEADER_LENGTH + Todo(s, previous, whole, room)) >= U16
  }

  /** The message at hand has no keys, is not stored whole, or outgrows its record. */
  predicate Unfit(s: Sender, room: nat) {
    s.written < |s.flight| &&
    var msg := s.flight[s.written];
    || (msg.epoch != s.keys.epoch && !UsesPrevious(s.keys, msg))
    || (!msg.isCcs && StoredMessage(msg.data).None?)
    || Outgrows(s, msg, room)
  }

  lemma CcsFails(s: Sender, previous: bool, maxOut: nat)
    requires (previous ==> s.keys.epoch >= 1) && Numbered(s.keys, 1) && ValidAead(UsedAead(s.keys, previous))
    ensures SealCcs(s, previous, maxOut).status == SealError <==>
              maxOut >= 1 + RT_HEADER_LENGTH + UsedAead(s.keys, previous).maxOverhead
              && SealedLen(UsedAead(s.keys, previous), 1) >= U16
  {
    hide ValidAead, SealedLen;
    SealedWithin(UsedAead(s.keys, previous), 1);
  }

  lemma FragmentFails(s: Sender, previous: bool, whole: Fragment, maxOut: nat)
    requires (previous ==> s.keys.epoch >= 1) && Numbered(s.keys, 1) && ValidAead(UsedAead(s.keys, previous))
    requires s.offset <= |whole.body|
    ensures SealFragment(s, previous, whole, maxOut).status == SealError <==>
              maxOut >= HM_HEADER_LENGTH + 1 + RT_HEADER_LENGTH + UsedAead(s.keys, previous).maxOverhead
              && SealedLen(UsedAead(s.keys, previous), HM_HEADER_LENGTH + Todo(s, previous, whole, maxOut)) >= U16
  {
    hide ValidAead, SealedLen, Serialize;
    if maxOut >= HM_HEADER_LENGTH + 1 + RT_HEADER_LENGTH + UsedAead(s.keys, previous).maxOverhead {
      SealedWithin(UsedAead(s.keys, previous), HM_HEADER_LENGTH + Todo(s, previous, whole, maxOut));
      NonceWithin(UsedAead(s.keys, previous));
    }
  }

  /** With a number to spare, sealing fails exactly on a message that is unfit. */
  lemma FailsExactlyWhenUnfit(s: Sender, maxOut: nat)
    requires WellFormedSender(s) && s.written < |s.flight| && ValidPosition(s.flight, PositionOf(s))
    requires Numbered(s.keys, 1)
    ensures SealNextMessage(s, maxOut).status == SealError <==> Unfit(s, maxOut)
  {
    hide StoredMessage, SealCcs, SealFragment, ValidAead, SealedLen, Todo;
    var msg := s.flight[s.written];
    var previous := UsesPrevious(s.keys, msg);
    if msg.isCcs {
      if previous || msg.epoch == s.keys.epoch {
        CcsFails(s, previous, maxOut);
      }
    } else if StoredMessage(msg.data).Some? && (previous || msg.epoch == s.keys.epoch) {
      FragmentFails(s, previous, StoredMessage(msg.data).value, maxOut);
    }
  }

  /** A fragment that is not the last of its message leaves no room for another. */
  lemma PartialLeavesNoRoom(s: Sender, maxOut: nat)
    requires WellFormedSender(s) && s.written < |s.flight|
    ensures var m := SealNextMessage(s, maxOut);
            m.status == SealPartial ==> !Unfit(m.next, maxOut - m.records[0].wireLen)
  {
    hide StoredMessage, ValidAead, Serialize;
  }

  lemma StepNumbers(s: Sender, maxOut: nat, records: nat)
    requires s.written < |s.flight| && Numbered(s.keys, records + 1)
    ensures Numbered(SealNextMessage(s, maxOut).next.keys, records)
  {
    hide StoredMessage, SealedLen, Serialize, SealRecord;
    var msg := s.flight[s.written];
    var previous := UsesPrevious(s.keys, msg);
    forall typ: ContentType, payload: seq<Byte> | previous || msg.epoch == s.keys.epoch
      ensures Numbered(SealRecord(s.keys, previous, typ, payload, maxOut).0, records)
    {
      RecordSpends(s.keys, previous, typ, payload, maxOut, records);
    }
  }

  lemma RecordSpends(w: WriteState, previous: bool, typ: ContentType, payload: seq<Byte>, maxOut: nat, records: nat)
    requires (previous ==> w.epoch >= 1) && Numbered(w, records + 1)
    ensures Numbered(SealRecord(w, previous, typ, payload, maxOut).0, records)
  {
    hide SealedLen;
  }

  /** Numbers for all that is left, so that only lengths and keys decide. */
  predicate Plenty(s: Sender) {
    && WellFormedSender(s) && ValidPosition(s.flight, PositionOf(s)) && Numbered(s.keys, StillLeft(s))
  }

  lemma PlentyKept(s: Sender, maxOut: nat)
    requires Plenty(s) && s.written < |s.flight|
    ensures var m := SealNextMessage(s, maxOut);
            Progress(m) ==> Plenty(Moved(s, m))
  {
    hide SealNextMessage, ValidAead, ValidPosition, StillLeft, Numbered;
    NotDone(s);
    StepNumbers(s, maxOut, StillLeft(s) - 1);
    MovedCloser(s, maxOut);
    var m := SealNextMessage(s, maxOut);
    if Progress(m) {
      NumberedFewer(m.next.keys, StillLeft(s) - 1, StillLeft(Moved(s, m)));
    }
  }

  /** A packet of the layout fails exactly when the message it comes to is unfit for the room left. */
  lemma {:induction false} PacketFailsExactly(s: Sender, maxOut: nat)
    requires Plenty(s)
    ensures var p := SealFrom(s, maxOut);
            WireLength(p.records) <= maxOut && (p.stop == Failed <==> Unfit(p.next, maxOut - WireLength(p.records)))
    decreases |s.flight| - s.written
  {
    hide SealNextMessage, SealFrom, ValidAead, ValidPosition, StillLeft, Numbered, Unfit;
    PacketFits(s, maxOut);
    NoneLeft(s, maxOut);
    if s.written < |s.flight| {
      OneMore(s, maxOut);
      NotDone(s);
      NumberedFewer(s.keys, StillLeft(s), 1);
      FailsExactlyWhenUnfit(s, maxOut);
      PlentyKept(s, maxOut);
      var m := SealNextMessage(s, maxOut);
      if m.status == SealSuccess {
        PacketFailsExactly(Moved(s, m), maxOut - m.records[0].wireLen);
        var rest := SealFrom(Moved(s, m), maxOut - m.records[0].wireLen).records;
        assert (m.records + rest)[1..] == rest;
      } else if m.status == SealPartial {
        PartialLeavesNoRoom(s, maxOut);
        assert m.records[1..] == [];
      } else {
        SealFollows(s, maxOut);
        StepCounters(s, m, maxOut);
      }
    } else {
      NothingUnfit(s, maxOut);
    }
  }

  lemma NothingUnfit(s: Sender, room: nat)
    requires s.written >= |s.flight|
    ensures !Unfit(s, room)
  {
  }

  /** What is unfit does not depend on the counters. */
  lemma StepCounters(s: Sender, m: SealStep, maxOut: nat)
    requires m.next == s.(keys := m.next.keys) && KeepsKeys(s, m.next)
    ensures Unfit(m.next, maxOut) == Unfit(s, maxOut)
  {
    hide StoredMessage, SealedLen;
  }

  // The layout and the packets really sealed.

  /** `s` and `z` stand at the same place, and the counters of `s` are ahead by those of `keys`. */
  predicate Aligned(s: Sender, z: Sender, keys: WriteState) {
    s == z.(keys := s.keys) && AlignedKeys(s.keys, z.keys, keys)
  }

  predicate AlignedKeys(w: WriteState, z: WriteState, keys: WriteState) {
    && w.epoch == z.epoch == keys.epoch && w.aead == z.aead && w.lastAead == z.lastAead
    && w.sequence == z.sequence + keys.sequence && w.lastSequence == z.lastSequence + keys.lastSequence
  }

  lemma RecordAligned(w: WriteState, z: WriteState, keys: WriteState, previous: bool, typ: ContentType,
                      payload: seq<Byte>, maxOut: nat)
    requires AlignedKeys(w, z, keys) && (previous ==> w.epoch >= 1) && Numbered(z, 1)
    ensures var (n, r) := SealRecord(w, previous, typ, payload, maxOut);
            var (nz, rz) := SealRecord(z, previous, typ, payload, maxOut);
            && (rz.None? ==> r.None?)
            && (rz.Some? && TakesLast(keys, rz.value) ==> r.None?)
            && (rz.Some? && !TakesLast(keys, rz.value) ==>
                  r.Some? && r.value.wireLen == rz.value.wireLen && AlignedKeys(n, nz, keys))
  {
    hide Bump, SealedLen;
    UsedAligned(w, z, keys, previous);
  }

  lemma UsedAligned(w: WriteState, z: WriteState, keys: WriteState, previous: bool)
    requires AlignedKeys(w, z, keys) && Numbered(z, 1)
    ensures UsedSequence(w, previous) == UsedSequence(z, previous) + UsedSequence(keys, previous)
    ensures UsedSequence(w, previous) < MAX_SEQUENCE ==> AlignedKeys(Bump(w, previous), Bump(z, previous), keys)
  {
  }

  /** One step of sealing in both. */
  predicate StepAligned(m: SealStep, mz: SealStep, keys: WriteState)
    requires Progress(mz) ==> |mz.records| == 1
    requires Progress(m) ==> |m.records| == 1
  {
    if Progress(mz) && TakesLast(keys, mz.records[0]) then m.status == SealError && m.records == []
    else
      && m.status == mz.status && |m.records| == |mz.records|
      && (mz.status != SealError ==> Aligned(m.next, mz.next, keys))
      && (Progress(mz) ==> m.records[0].wireLen == mz.records[0].wireLen)
  }

  lemma CcsAligned(s: Sender, z: Sender, keys: WriteState, previous: bool, maxOut: nat)
    requires Aligned(s, z, keys) && (previous ==> s.keys.epoch >= 1) && Numbered(z.keys, 1)
    ensures StepAligned(SealCcs(s, previous, maxOut), SealCcs(z, previous, maxOut), keys)
  {
    hide SealRecord, TakesLast;
    RecordAligned(s.keys, z.keys, keys, previous, ChangeCipherSpec, CCS_PAYLOAD, maxOut);
  }

  lemma FragmentAligned(s: Sender, z: Sender, keys: WriteState, previous: bool, whole: Fragment, maxOut: nat)
    requires Aligned(s, z, keys) && (previous ==> s.keys.epoch >= 1) && Numbered(z.keys, 1)
    ensures StepAligned(SealFragment(s, previous, whole, maxOut), SealFragment(z, previous, whole, maxOut), keys)
  {
    hide SealRecord, TakesLast, Serialize, NextFragment;
    var aead := UsedAead(s.keys, previous);
    if s.offset <= |whole.body| && maxOut >= HM_HEADER_LENGTH + 1 + RT_HEADER_LENGTH + aead.maxOverhead {
      var payload := Serialize(NextFragment(whole, s.offset, Todo(s, previous, whole, maxOut)));
      RecordAligned(s.keys, z.keys, keys, previous, HandshakeData, payload, maxOut);
    }
  }

  lemma SealAligned(s: Sender, z: Sender, keys: WriteState, maxOut: nat)
    requires Aligned(s, z, keys) && z.written < |z.flight| && Numbered(z.keys, 1)
    ensures StepAligned(SealNextMessage(s, maxOut), SealNextMessage(z, maxOut), keys)
  {
    hide SealCcs, SealFragment, StepAligned, StoredMessage;
    var msg := z.flight[z.written];
    var previous := UsesPrevious(z.keys, msg);
    if previous || msg.epoch == z.keys.epoch {
      if msg.isCcs {
        CcsAligned(s, z, keys, previous, maxOut);
      } else if StoredMessage(msg.data).Some? {
        FragmentAligned(s, z, keys, previous, StoredMessage(msg.data).value, maxOut);
      } else {
        BothFail(s, z, keys);
      }
    } else {
      BothFail(s, z, keys);
    }
  }

  lemma BothFail(s: Sender, z: Sender, keys: WriteState)
    ensures StepAligned(SealStep(SealError, s, []), SealStep(SealError, z, []), keys)
  {
  }

  lemma {:induction false} PacketAligned(s: Sender, z: Sender, keys: WriteState, maxOut: nat)
    requires Aligned(s, z, keys) && Plenty(z)
    ensures var p := SealFrom(s, maxOut);
            var pz := SealFrom(z, maxOut);
            var i := FirstLast(keys, pz.records);
            && (i == |pz.records| ==> p.stop == pz.stop && |p.records| == |pz.records|)
            && (i == |pz.records| && pz.stop != Failed ==> Aligned(p.next, pz.next, keys) && Plenty(pz.next))
            && (i < |pz.records| ==> p.stop == Failed && |p.records| == i)
    decreases |z.flight| - z.written
  {
    hide SealNextMessage, SealFrom, TakesLast, Plenty;
    PlentyMeans(z);
    NoneLeft(s, maxOut);
    NoneLeft(z, maxOut);
    if z.written < |z.flight| {
      OneMore(s, maxOut);
      OneMore(z, maxOut);
      SealAligned(s, z, keys, maxOut);
      PlentyKept(z, maxOut);
      var m, mz := SealNextMessage(s, maxOut), SealNextMessage(z, maxOut);
      if mz.status == SealSuccess && !TakesLast(keys, mz.records[0]) {
        PacketAligned(Moved(s, m), Moved(z, mz), keys, maxOut - mz.records[0].wireLen);
        var rest := SealFrom(Moved(z, mz), maxOut - mz.records[0].wireLen).records;
        assert (mz.records + rest)[1..] == rest;
      } else if Progress(mz) {
        assert mz.records == [mz.records[0]];
        var rest := if mz.status == SealSuccess
                    then SealFrom(Moved(z, mz), maxOut - mz.records[0].wireLen).records
                    else [];
        assert SealFrom(z, maxOut).records == mz.records + rest;
      } else if mz.status == SealNoProgress {
        Unmoved(z, maxOut);
      }
    }
  }

  lemma PlentyMeans(s: Sender)
    requires Plenty(s)
    ensures s.written <= |s.flight| && (s.written < |s.flight| ==> Numbered(s.keys, 1))
  {
    hide ValidAead, StillLeft;
    if s.written < |s.flight| {
      NotDone(s);
    }
  }

  lemma Unmoved(s: Sender, maxOut: nat)
    requires s.written < |s.flight|
    ensures SealNextMessage(s, maxOut).status == SealNoProgress ==> SealNextMessage(s, maxOut).next == s
  {
  }

  lemma {:induction false} DropsAligned(s: Sender, z: Sender, keys: WriteState, mtu: nat, answers: seq<int>)
    requires Aligned(s, z, keys) && Plenty(z)
    ensures DropsRecords(s, mtu, answers) <==> CutsOff(keys, Attempts(z, mtu, answers))
    decreases |answers|
  {
    hide SealFrom, Plenty, FirstLast;
    PlentyMeans(z);
    if z.written < |z.flight| {
      PacketAligned(s, z, keys, mtu);
      var p, pz := SealFrom(s, mtu), SealFrom(z, mtu);
      var goesOn := PacketOk(pz) && answers != [] && answers[0] > 0;
      var rest := if goesOn then Attempts(pz.next, mtu, answers[1..]) else [];
      assert Attempts(z, mtu, answers) == [pz] + rest;
      assert ([pz] + rest)[1..] == rest;
      if FirstLast(keys, pz.records) == |pz.records| && goesOn {
        DropsAligned(p.next, pz.next, keys, mtu, answers[1..]);
      }
    }
  }

  lemma {:induction false} LeftBound(flight: seq<Outgoing>, index: nat)
    requires index <= |flight|
    ensures Left(flight, index) <= (|flight| - index) * (U24 + 1)
    decreases |flight| - index
  {
    if index < |flight| {
      LeftBound(flight, index + 1);
      if IsMessage(flight, index) {
        StoredFits(flight[index].data);
      }
    }
  }

  /** The layout has numbers for everything. */
  lemma RenumberedPlenty(s: Sender)
    requires WellFormedSender(s) && ValidPosition(s.flight, PositionOf(s))
    ensures Plenty(Renumbered(s))
  {
    LeftBound(s.flight, s.written);
    SamePlace(s, Renumbered(s).keys);
  }

  /** Whatever the transport answers: records are dropped exactly when, in the flight's layout, the last
      number of an epoch or a message that does not fit a record comes behind the first record of a packet,
      as lengths, keys and counters tell beforehand. */
  lemma DropsExactlyWhenCutOff(s: Sender, mtu: nat, answers: seq<int>)
    requires WellFormedSender(s) && ValidPosition(s.flight, PositionOf(s))
    ensures DropsRecords(s, mtu, answers) <==> CutsOff(s.keys, Attempts(Renumbered(s), mtu, answers))
  {
    hide DropsRecords, CutsOff, Attempts, Plenty;
    RenumberedPlenty(s);
    DropsAligned(s, Renumbered(s), s.keys, mtu, answers);
  }

  // What is lost.

  const HELLO: Message := Message(1, [7])

  /** Two messages of one byte each, and two numbers left, the last of which is never given out. */
  function Exhausted(): Sender {
    Sender([Outgoing(Serialize(WholeMessage(HELLO, 0)), 0, false),
            Outgoing(Serialize(WholeMessage(HELLO, 1)), 0, false)],
           0, 0, true, 2, WriteState(0, MAX_SEQUENCE - 1, 0, PLAIN, PLAIN))
  }

  function Carrier(k: Uint16, n: Sequence): Record {
    Record(HandshakeData, 0, n, Serialize(WholeMessage(HELLO, k)), RT_HEADER_LENGTH + HM_HEADER_LENGTH + 1)
  }

  lemma SealsHello(s: Sender, k: Uint16, maxOut: nat)
    requires s.written < |s.flight| && s.flight[s.written] == Outgoing(Serialize(WholeMessage(HELLO, k)), 0, false)
    requires s.offset == 0 && s.keys.epoch == 0 && s.keys.aead == PLAIN && maxOut >= 100
    ensures var next := s.(keys := Bump(s.keys, false));
            SealNextMessage(s, maxOut) ==
            if s.keys.sequence == MAX_SEQUENCE then SealStep(SealError, next, [])
            else SealStep(SealSuccess, next, [Carrier(k, s.keys.sequence)])
  {
    hide OneFragment, Serialize;
    var whole := WholeMessage(HELLO, k);
    OneFragmentOf(whole);
    assert StoredMessage(s.flight[s.written].data) == Some(whole);
    assert NextFragment(whole, 0, 1) == whole;
  }

  /** Where the first call leaves sending. */
  function PastFirst(): Sender {
    Exhausted().(written := 1, keys := Exhausted().keys.(sequence := 0))
  }

  lemma FirstCall()
    ensures SealFrom(Exhausted(), 1000) == Packet(PastFirst(), [Carrier(0, MAX_SEQUENCE - 1)], Failed)
  {
    hide Serialize, SealNextMessage, Carrier, SealFrom;
    var s := Exhausted();
    SealsHello(s, 0, 1000);
    CarrierLength(0, MAX_SEQUENCE - 1);
    OneMore(s, 1000);
    var t := s.(written := 1, keys := s.keys.(sequence := MAX_SEQUENCE));
    SealsHello(t, 1, 974);
    OneMore(t, 974);
    assert [Carrier(0, MAX_SEQUENCE - 1)] + [] == [Carrier(0, MAX_SEQUENCE - 1)];
  }

  lemma SecondCall()
    ensures var v := PastFirst().(written := 2, keys := PastFirst().keys.(sequence := 1));
            SealFrom(PastFirst(), 1000) == Packet(v, [Carrier(1, 0)], Done)
  {
    hide Serialize, SealNextMessage, Carrier, SealFrom;
    var u := PastFirst();
    SealsHello(u, 1, 1000);
    CarrierLength(1, 0);
    OneMore(u, 1000);
    NoneLeft(u.(written := 2, keys := u.keys.(sequence := 1)), 974);
    assert [Carrier(1, 0)] + [] == [Carrier(1, 0)];
  }

  /** The packet of both messages is cut off after the first, which sending has moved past: the next call
      succeeds with the second message alone. */
  lemma FirstMessageLost()
    ensures var s := Exhausted();
            var o1 := SendLoop(s, 1000, [1]);
            var o2 := SendLoop(o1.next, 1000, [1]);
            && AllSealable(s, 1000) && DropsRecords(s, 1000, [1])
            && o1.result == -1 && o1.sent == [] && PositionOf(o1.next) == Position(1, 0)
            && o2.result == 1 && o2.sent == [[Carrier(1, 0)]]
  {
    hide Serialize, SealFrom, Carrier;
    HelloSealable(0);
    HelloSealable(1);
    FirstCall();
    SecondCall();
    var v := PastFirst().(written := 2, keys := PastFirst().keys.(sequence := 1));
    assert [1][1..] == [] && SendLoop(v, 1000, []) == SendOutcome(v, [], 1, 0);
    assert [[Carrier(1, 0)]] + [] == [[Carrier(1, 0)]];
  }

  lemma HelloSealable(k: Uint16)
    ensures StoredMessage(Serialize(WholeMessage(HELLO, k))) == Some(WholeMessage(HELLO, k))
  {
    hide OneFragment, Serialize;
    OneFragmentOf(WholeMessage(HELLO, k));
  }

  lemma CarrierLength(k: Uint16, n: Sequence)
    ensures Carrier(k, n).wireLen == 26
  {
  }

  /** A message too long for one record. */
  function LongMessage(): Message {
    Message(2, seq(70000, i => 7))
  }

  function ShortAndLong(): Sender {
    Sender([Outgoing(Serialize(WholeMessage(HELLO, 0)), 0, false),
            Outgoing(Serialize(WholeMessage(LongMessage(), 1)), 0, false)],
           0, 0, true, 2, WriteState(0, 0, 0, PLAIN, PLAIN))
  }

  function Accepts(n: nat): (answers: seq<int>)
    ensures |answers| == n && forall k: nat | k < n :: answers[k] == 1
  {
    seq(n, i => 1)
  }

  /** What the two messages are stored as. */
  lemma ShortAndLongStored()
    ensures var s := ShortAndLong();
            && WellFormedSender(s) && NumberedApart(s.flight)
            && StoredMessage(s.flight[0].data) == Some(WholeMessage(HELLO, 0))
            && StoredMessage(s.flight[1].data) == Some(WholeMessage(LongMessage(), 1))
  {
    hide OneFragment, Serialize;
    HelloSealable(0);
    OneFragmentOf(WholeMessage(LongMessage(), 1));
  }

  /** At an MTU of 100000 the long message outgrows its record, behind the short one. */
  lemma LongFails()
    ensures var p := SealFrom(ShortAndLong(), 100000);
            && p.stop == Failed && p.records == [Carrier(0, 0)] && PositionOf(p.next) == Position(1, 0)
            && KeepsKeys(ShortAndLong(), p.next) && Numbered(p.next.keys, 100000)
  {
    hide Serialize, SealNextMessage, Carrier, SealFrom, StoredMessage;
    var s := ShortAndLong();
    ShortAndLongStored();
    SealsHello(s, 0, 100000);
    CarrierLength(0, 0);
    OneMore(s, 100000);
    var t := s.(written := 1, keys := s.keys.(sequence := 1));
    assert Outgrows(t, t.flight[1], 99974);
    FailsExactlyWhenUnfit(t, 99974);
    SealFollows(t, 99974);
    StepNumbers(t, 99974, 100000);
    OneMore(t, 99974);
    assert [Carrier(0, 0)] + [] == [Carrier(0, 0)];
  }

  /** With fresh counters: the first call drops the packet of the short message because of the long one
      behind it; the second, with a smaller MTU, succeeds, and the short message has never been sent. */
  lemma LongMessageLosesShort()
    ensures var s := ShortAndLong();
            var o1 := SendLoop(s, 100000, [1]);
            var o2 := SendLoop(o1.next, 1400, Accepts(70001));
            && DropsRecords(s, 100000, [1])
            && o1.result == -1 && o1.sent == [] && PositionOf(o1.next) == Position(1, 0)
            && o2.result == 1 && TimesCarried(Flatten(o2.sent), 0, 0) == 0
  {
    hide Serialize, SealFrom, Carrier, StoredMessage, SealNextMessage, LongMessage;
    var s := ShortAndLong();
    ShortAndLongStored();
    LongFails();
    var t := SendLoop(s, 100000, [1]).next;
    assert |LongMessage().body| == 70000 by { LongLength(); }
    assert Left(t.flight, 2) == 0;
    assert IsMessage(t.flight, 1) && MessageAt(t.flight, 1) == WholeMessage(LongMessage(), 1);
    assert StillLeft(t) == 70001;
    FlightCompletes(t, 1400, Accepts(70001));
    SendLoopFollows(t, 1400, Accepts(70001));
    RestCarriedOnce(t.flight, Position(1, 0), Flatten(SendLoop(t, 1400, Accepts(70001)).sent), 0, 0);
  }

  lemma LongLength()
    ensures |LongMessage().body| == 70000
  {
  }
}
