/** The handshake transport end to end: a sender, a network that may lose, repeat and reorder
    records at will, and a receiver. What is handed out is what was sent, in order. */
module DtlsDelivery {
  import opened Common
  import opened DtlsFragment
  import opened DtlsReceive
  import opened DtlsRing
  import opened DtlsRecords
  import opened DtlsFlight
  import opened DtlsRecordLayer

  /** `wire` holds every record ever put on the network; a record may arrive at any later time,
      any number of times. `sent`, `delivered` and `processed` are histories. */
  datatype System = System(sent: seq<Message>, sender: Sender, wire: set<Record>,
                           window: Window, receiver: Receiver, reading: Reading,
                           processed: seq<Record>, delivered: seq<Message>)

  datatype Event =
    | AddHandshake(m: Message)
    | AddChangeCipherSpec
    | FinishFlight
    | SendPacket(mtu: nat, accepted: bool)
    | Retransmit
    | NewWriteKeys(aead: Aead)
    | Arrive(record: Record, maxLen: nat)
    | TakeChangeCipherSpec
    | GetMessageOut
    | ReleaseMessage
    | NewReadKeys

  function Start(aead: Aead): System {
    System([], Sender([], 0, 0, false, 0, WriteState(0, 0, 0, aead, aead)), {}, FRESH_WINDOW, INITIAL,
           FRESH_READING, [], [])
  }

  /** The big-endian 64-bit number the replay window sees: epoch and sequence number. */
  function FullNumber(r: Record): nat {
    r.epoch * (MAX_SEQUENCE + 1) + r.number
  }

  /** When an event can happen. `limit` bounds the handshake messages of the connection. */
  predicate Possible(sys: System, e: Event, limit: nat) {
    match e
    case AddHandshake(m) => |sys.sent| < limit && |m.body| < U24
    case NewWriteKeys(aead) => ValidAead(aead)
    case Arrive(record, _) => record in sys.wire
    case ReleaseMessage => sys.receiver.hasMessage
    case _ => true
  }

  predicate Typed(sys: System) {
    WellFormedSender(sys.sender)
  }

  /** Reading goes on, and the record gets past the epoch filter, the replay window and the length check. */
  predicate Admitted(sys: System, record: Record) {
    && sys.reading.shutdown == Going
    && record.epoch == sys.receiver.epoch && !Discards(sys.window, FullNumber(record))
    && |record.payload| <= MAX_PLAIN_LENGTH
  }

  /** A record arrives; the ideal cipher opens it to what was sealed. */
  function Arrival(sys: System, record: Record, maxLen: nat): System
    requires Typed(sys)
  {
    var got := Receive(sys.window, sys.receiver, sys.reading, maxLen, record.epoch, FullNumber(record), record.typ,
                       Some(record.payload));
    sys.(window := got.window, receiver := got.receiver, reading := got.reading,
         processed := if Admitted(sys, record) then sys.processed + [record] else sys.processed)
  }

  function SendOne(sys: System, mtu: nat, accepted: bool): System
    requires Typed(sys)
  {
    var p := SealFrom(sys.sender, mtu);
    if !PacketOk(p) then sys.(sender := p.next)
    else if accepted then sys.(sender := p.next, wire := sys.wire + set r | r in p.records)
    else sys.(sender := p.next.(written := sys.sender.written, offset := sys.sender.offset))
  }

  function Step(sys: System, e: Event): System
    requires Typed(sys) && (e.ReleaseMessage? ==> CurrentComplete(sys.receiver))
  {
    match e
    case AddHandshake(m) =>
      (match AddMessage(sys.sender, m)
       case None => sys
       case Some(s) => sys.(sender := s, sent := sys.sent + [m]))
    case AddChangeCipherSpec =>
      (match AddOutgoing(sys.sender, true, [])
       case None => sys
       case Some(s) => sys.(sender := s))
    case FinishFlight => sys.(sender := sys.sender.(flightComplete := true))
    case SendPacket(mtu, accepted) => SendOne(sys, mtu, accepted)
    case Retransmit => sys.(sender := sys.sender.(written := 0, offset := 0))
    case NewWriteKeys(aead) => sys.(sender := sys.sender.(keys := SetWriteState(sys.sender.keys, aead)))
    case Arrive(record, maxLen) => Arrival(sys, record, maxLen)
    case TakeChangeCipherSpec => sys.(receiver := sys.receiver.(hasCcs := false))
    case GetMessageOut => sys.(receiver := GetMessage(sys.receiver))
    case ReleaseMessage =>
      sys.(receiver := NextMessage(sys.receiver), delivered := sys.delivered + [CurrentMessage(sys.receiver)])
    case NewReadKeys =>
      (match SetReadState(sys.receiver)
       case None => sys
       case Some(r) => sys.(receiver := r, window := FRESH_WINDOW))
  }

  // The invariant.

  /** The fragment is a stretch of the message it names. */
  predicate Genuine(sent: seq<Message>, f: Fragment) {
    && f.seqNo < |sent|
    && f.typ == sent[f.seqNo].typ && f.msgLen == |sent[f.seqNo].body|
    && f.fragOff + |f.body| <= f.msgLen
    && f.body == sent[f.seqNo].body[f.fragOff..f.fragOff + |f.body|]
  }

  predicate GenuineRecord(sent: seq<Message>, r: Record) {
    r.typ == HandshakeData ==> OneFragment(r.payload).Some? && Genuine(sent, OneFragment(r.payload).value)
  }

  /** What is stored for sending is a message of the history, under its own number. */
  predicate FromHistory(sent: seq<Message>, o: Outgoing) {
    o.isCcs || (&& StoredMessage(o.data).Some?
                && var f := StoredMessage(o.data).value;
                   f.seqNo < |sent| && f == WholeMessage(sent[f.seqNo], f.seqNo))
  }

  ghost predicate SenderInv(sys: System) {
    && WellFormedSender(sys.sender) && ValidPosition(sys.sender.flight, PositionOf(sys.sender))
    && |sys.sent| < U16 && sys.sender.writeSeq == |sys.sent|
    && (forall i: nat | i < |sys.sent| :: |sys.sent[i].body| < U24)
    && (forall i: nat | i < |sys.sender.flight| :: FromHistory(sys.sent, sys.sender.flight[i]))
    && (forall r | r in sys.wire :: GenuineRecord(sys.sent, r))
  }

  /** The bytes collected so far are the peer's. */
  predicate FromPeer(sent: seq<Message>, m: Incoming) {
    && m.seqNo < |sent|
    && m.typ == sent[m.seqNo].typ && m.msgLen == |sent[m.seqNo].body|
    && forall p: nat | p in m.got :: p < m.msgLen && m.got[p] == sent[m.seqNo].body[p]
  }

  predicate AllFromPeer(sent: seq<Message>, r: Receiver)
  {
    forall i: nat | i < MAX_FLIGHT && r.slots[i].Some? :: FromPeer(sent, r.slots[i].value)
  }

  predicate ReceiverInv(sys: System) {
    && RingInv(sys.receiver)
    && AllFromPeer(sys.sent, sys.receiver)
    && sys.receiver.readSeq == |sys.delivered| <= |sys.sent|
    && sys.delivered == sys.sent[..|sys.delivered|]
  }

  ghost predicate Inv(sys: System) {
    SenderInv(sys) && ReceiverInv(sys)
  }

  lemma StartInv(aead: Aead)
    requires ValidAead(aead)
    ensures Inv(Start(aead))
  {
  }

  /** A piece of a flight taken from the history is genuine. */
  lemma FollowedIsGenuine(sent: seq<Message>, flight: seq<Outgoing>, pos: Position, r: Record)
    requires forall i: nat | i < |flight| :: FromHistory(sent, flight[i])
    requires Follow(flight, pos, r).Some?
    ensures GenuineRecord(sent, r)
  {
    hide OneFragment, StoredMessage;
    assert FromHistory(sent, flight[pos.index]);
  }

  lemma {:induction false} FollowedAreGenuine(sent: seq<Message>, flight: seq<Outgoing>, pos: Position, rs: seq<Record>)
    requires forall i: nat | i < |flight| :: FromHistory(sent, flight[i])
    requires FollowAll(flight, pos, rs).Some?
    ensures forall r | r in rs :: GenuineRecord(sent, r)
    decreases |rs|
  {
    hide Follow, FromHistory, GenuineRecord;
    if rs != [] {
      FollowedIsGenuine(sent, flight, pos, rs[0]);
      FollowedAreGenuine(sent, flight, Follow(flight, pos, rs[0]).value, rs[1..]);
    }
  }

  /** Sending anything keeps the sender's half of the invariant. */
  lemma SendKeepsInv(sys: System, mtu: nat, accepted: bool)
    requires SenderInv(sys) && Typed(sys)
    ensures SenderInv(SendOne(sys, mtu, accepted))
  {
    hide FromHistory, GenuineRecord, Follow, SealFrom, ValidAead;
    PacketFollows(sys.sender, mtu);
    FollowedAreGenuine(sys.sent, sys.sender.flight, PositionOf(sys.sender), SealFrom(sys.sender, mtu).records);
  }

  /** More messages in the history leave what was genuine genuine. */
  lemma HistoryGrows(sent: seq<Message>, m: Message)
    ensures forall r :: GenuineRecord(sent, r) ==> GenuineRecord(sent + [m], r)
    ensures forall o :: FromHistory(sent, o) ==> FromHistory(sent + [m], o)
    ensures forall i :: FromPeer(sent, i) ==> FromPeer(sent + [m], i)
  {
    hide OneFragment, StoredMessage;
    forall r | GenuineRecord(sent, r)
      ensures GenuineRecord(sent + [m], r)
    {
    }
    forall o | FromHistory(sent, o)
      ensures FromHistory(sent + [m], o)
    {
    }
    forall i | FromPeer(sent, i)
      ensures FromPeer(sent + [m], i)
    {
    }
  }

  lemma NewMessageFromHistory(sent: seq<Message>, m: Message, epoch: nat)
    requires |m.body| < U24 && |sent| < U16
    ensures FromHistory(sent + [m], Outgoing(Serialize(WholeMessage(m, |sent|)), epoch, false))
  {
    hide OneFragment, Serialize;
    OneFragmentOf(WholeMessage(m, |sent|));
  }

  lemma AddKeepsSenderInv(sys: System, m: Message)
    requires SenderInv(sys) && Typed(sys) && |sys.sent| + 1 < U16 && |m.body| < U24
    ensures SenderInv(Step(sys, AddHandshake(m)))
  {
    hide FromHistory, GenuineRecord, FromPeer, Serialize, StoredMessage, ValidAead;
    HistoryGrows(sys.sent, m);
    NewMessageFromHistory(sys.sent, m, sys.sender.keys.epoch);
    var next := Step(sys, AddHandshake(m));
    if next != sys {
      forall i: nat | i < |next.sender.flight|
        ensures FromHistory(next.sent, next.sender.flight[i])
      {
        if i + 1 < |next.sender.flight| {
          assert next.sender.flight[i] == sys.sender.flight[i];
        }
      }
      KeepsPosition(sys.sender, next.sender);
    }
  }

  /** Appending to a flight, or starting a new one, keeps the position valid. */
  lemma KeepsPosition(s: Sender, next: Sender)
    requires ValidPosition(s.flight, PositionOf(s))
    requires || (next.flight != [] && next.written == 0 && next.offset == 0)
             || (s.flight <= next.flight && next.written == s.written && next.offset == s.offset)
    ensures ValidPosition(next.flight, PositionOf(next))
  {
  }

  lemma AddCcsKeepsSenderInv(sys: System)
    requires SenderInv(sys) && Typed(sys)
    ensures SenderInv(Step(sys, AddChangeCipherSpec))
  {
    hide GenuineRecord, FromPeer, StoredMessage, ValidAead;
    var next := Step(sys, AddChangeCipherSpec);
    if next != sys {
      forall i: nat | i < |next.sender.flight|
        ensures FromHistory(next.sent, next.sender.flight[i])
      {
        if i + 1 < |next.sender.flight| {
          assert next.sender.flight[i] == sys.sender.flight[i];
          assert FromHistory(sys.sent, sys.sender.flight[i]);
        }
      }
      KeepsPosition(sys.sender, next.sender);
    }
  }

  lemma MergeFromPeer(sent: seq<Message>, m: Incoming, f: Fragment, epoch: nat)
    requires FromPeer(sent, m) && Genuine(sent, f) && m.seqNo == f.seqNo
    ensures FromPeer(sent, Merge(m, f, epoch))
  {
    if !Complete(m) {
      var got := m.got + Pieces(f);
      forall p: nat | p in got
        ensures p < m.msgLen && got[p] == sent[m.seqNo].body[p]
      {
        if p in Pieces(f) {
          assert Pieces(f)[p] == f.body[p - f.fragOff];
        }
      }
    }
  }

  lemma AddFragmentFromPeer(sent: seq<Message>, r: Receiver, maxLen: nat, f: Fragment)
    requires RingInv(r) && AllFromPeer(sent, r) && Genuine(sent, f) && f.seqNo < U16
    ensures AllFromPeer(sent, AddFragment(r, maxLen, f).0)
  {
    var next := AddFragment(r, maxLen, f).0;
    if next != r {
      hide RingInv, FromPeer;
      var i := Slot(f.seqNo);
      if r.slots[i].Some? {
        SlotMatches(r, f.seqNo);
        MergeFromPeer(sent, r.slots[i].value, f, r.epoch);
      } else {
        FreshFromPeer(sent, f);
        MergeFromPeer(sent, Incoming(f.typ, f.seqNo, f.msgLen, map[], {}), f, r.epoch);
      }
    }
  }

  lemma FreshFromPeer(sent: seq<Message>, f: Fragment)
    requires Genuine(sent, f) && f.seqNo < U16
    ensures FromPeer(sent, Incoming(f.typ, f.seqNo, f.msgLen, map[], {}))
  {
  }

  /** A record of one genuine fragment keeps every collected byte the peer's. */
  lemma OpenGenuine(sent: seq<Message>, r: Receiver, maxLen: nat, record: Record)
    requires RingInv(r) && AllFromPeer(sent, r) && GenuineRecord(sent, record) && record.typ == HandshakeData
    ensures var n := OpenRecord(r, maxLen, record.payload).0; RingInv(n) && AllFromPeer(sent, n)
  {
    OpenRecordKeepsRing(r, maxLen, record.payload);
    hide RingInv, AllFromPeer;
    var p := ParseFragment(record.payload).value;
    ParsedFits(record.payload);
    AddFragmentFromPeer(sent, r, maxLen, p.0);
    assert OpenRecord(AddFragment(r, maxLen, p.0).0, maxLen, []).0 == AddFragment(r, maxLen, p.0).0;
  }

  /** The message handed out is the next one the peer sent. */
  lemma ReleasedIsNext(sent: seq<Message>, r: Receiver)
    requires RingInv(r) && AllFromPeer(sent, r) && CurrentComplete(r)
    ensures r.readSeq < |sent| && CurrentMessage(r) == sent[r.readSeq]
  {
    var m := r.slots[Slot(r.readSeq)].value;
    SlotMatches(r, r.readSeq);
    assert FromPeer(sent, m);
    assert BodyOf(m) == sent[r.readSeq].body;
  }

  lemma ArrivalKeepsInv(sys: System, record: Record, maxLen: nat)
    requires Inv(sys) && Typed(sys) && record in sys.wire
    ensures Inv(Arrival(sys, record, maxLen))
  {
    hide RingInv, GenuineRecord, FromHistory, ValidAead, ValidPosition, AllFromPeer;
    assert GenuineRecord(sys.sent, record);
    if record.typ == HandshakeData {
      OpenGenuine(sys.sent, sys.receiver, maxLen, record);
    } else {
      RingIgnoresCcs(sys.sent, sys.receiver, true);
    }
  }

  lemma RingIgnoresCcs(sent: seq<Message>, r: Receiver, ccs: bool)
    requires RingInv(r) && AllFromPeer(sent, r)
    ensures RingInv(r.(hasCcs := ccs)) && AllFromPeer(sent, r.(hasCcs := ccs))
  {
    StepKeepsRing(r, if ccs then OpenCcs else TakeCcs);
  }

  lemma GrowKeepsPeer(sent: seq<Message>, m: Message, r: Receiver)
    requires AllFromPeer(sent, r)
    ensures AllFromPeer(sent + [m], r)
  {
    hide FromPeer;
    HistoryGrows(sent, m);
  }

  /** Every step keeps the invariant while the connection has fewer than 2^16 messages. */
  lemma StepKeepsInv(sys: System, e: Event)
    requires Inv(sys) && Possible(sys, e, U16 - 1)
    requires Typed(sys) && (e.ReleaseMessage? ==> CurrentComplete(sys.receiver))
    ensures Inv(Step(sys, e))
  {
    hide RingInv, AllFromPeer, GenuineRecord, FromHistory, ValidAead, OpenRecord, SealFrom;
    match e
    case AddHandshake(m) =>
      AddKeepsSenderInv(sys, m);
      GrowKeepsPeer(sys.sent, m, sys.receiver);
    case AddChangeCipherSpec => AddCcsKeepsSenderInv(sys);
    case FinishFlight =>
    case SendPacket(mtu, accepted) => SendKeepsInv(sys, mtu, accepted);
    case Retransmit =>
    case NewWriteKeys(aead) =>
    case Arrive(record, maxLen) => ArrivalKeepsInv(sys, record, maxLen);
    case TakeChangeCipherSpec => RingIgnoresCcs(sys.sent, sys.receiver, false);
    case GetMessageOut => GetKeepsInv(sys);
    case ReleaseMessage => ReleaseKeepsInv(sys);
    case NewReadKeys => NewKeysKeepInv(sys);
  }

  lemma GetKeepsInv(sys: System)
    requires ReceiverInv(sys)
    ensures ReceiverInv(sys.(receiver := GetMessage(sys.receiver)))
  {
    StepKeepsRing(sys.receiver, Get);
  }

  lemma NewKeysKeepInv(sys: System)
    requires ReceiverInv(sys)
    ensures SetReadState(sys.receiver).Some? ==>
              ReceiverInv(sys.(receiver := SetReadState(sys.receiver).value, window := FRESH_WINDOW))
  {
    SetReadStateKeepsRing(sys.receiver);
  }

  lemma ReleaseKeepsInv(sys: System)
    requires ReceiverInv(sys) && sys.receiver.hasMessage && |sys.sent| < U16
    ensures ReceiverInv(sys.(receiver := NextMessage(sys.receiver),
                             delivered := sys.delivered + [CurrentMessage(sys.receiver)]))
  {
    NextMessageKeepsRing(sys.receiver);
    ReleasedIsNext(sys.sent, sys.receiver);
  }

  /** A run: every event is possible when it happens. */
  ghost predicate IsRun(sys: System, events: seq<Event>, limit: nat)
    decreases |events|
  {
    events != [] ==>
      && Typed(sys) && Possible(sys, events[0], limit)
      && (events[0].ReleaseMessage? ==> CurrentComplete(sys.receiver))
      && IsRun(Step(sys, events[0]), events[1..], limit)
  }

  function Final(sys: System, events: seq<Event>, ghost limit: nat): System
    requires IsRun(sys, events, limit)
    decreases |events|
  {
    if events == [] then sys else Final(Step(sys, events[0]), events[1..], limit)
  }

  lemma {:induction false} RunKeepsInv(sys: System, events: seq<Event>)
    requires Inv(sys) && IsRun(sys, events, U16 - 1)
    ensures Inv(Final(sys, events, U16 - 1))
    decreases |events|
  {
    hide Inv, Step;
    if events != [] {
      StepKeepsInv(sys, events[0]);
      RunKeepsInv(Step(sys, events[0]), events[1..]);
    }
  }

  /** Delivery safety: after any run, with any MTUs, losses, repetitions, reorderings, refused
      writes and retransmissions, the messages handed out are a prefix of the messages sent, in
      order and byte for byte. */
  lemma DeliverySafety(aead: Aead, events: seq<Event>)
    requires ValidAead(aead) && IsRun(Start(aead), events, U16 - 1)
    ensures var sys := Final(Start(aead), events, U16 - 1); sys.delivered <= sys.sent
  {
    StartInv(aead);
    RunKeepsInv(Start(aead), events);
  }
}
