/** Sending a flight of handshake messages in datagrams of at most one MTU, on values: how
    messages are cut into fragments, where sending stands after each packet, and what the
    datagrams handed to the transport carry. `DtlsSender` implements these functions. */
module DtlsFlight {
  import opened Common
  import opened DtlsFragment
  import opened DtlsReceive
  import opened DtlsRecords

  /** DTLS_OUTGOING_MESSAGE: the serialized message, the epoch it was added in, or a
      ChangeCipherSpec. */
  datatype Outgoing = Outgoing(data: seq<Byte>, epoch: nat, isCcs: bool)

  /** The sending half: the flight, how much of it has been written, and the write keys. */
  datatype Sender = Sender(flight: seq<Outgoing>, written: nat, offset: nat, flightComplete: bool,
                           writeSeq: nat, keys: WriteState)

  predicate WellFormedSender(s: Sender) {
    && ValidAead(s.keys.aead) && ValidAead(s.keys.lastAead)
    && |s.flight| <= MAX_FLIGHT
    && s.written <= |s.flight|
    && s.writeSeq < U16
  }

  /** A handshake message as dtls1_init_message and dtls1_finish_message lay it out: a single
      fragment covering the whole body. */
  function WholeMessage(m: Message, seqNo: nat): (f: Fragment) {
    Fragment(m.typ, |m.body|, seqNo, 0, m.body)
  }

  /** add_outgoing. */
  function AddOutgoing(s: Sender, isCcs: bool, data: seq<Byte>): (res: Option<Sender>)
    requires s.writeSeq < U16
    ensures res.Some? && isCcs ==> res.value.writeSeq == s.writeSeq
  {
    var cleared := if s.flightComplete then s.(flight := [], written := 0, offset := 0, flightComplete := false)
                   else s;
    if |cleared.flight| >= MAX_FLIGHT then None
    else
      Some(cleared.(flight := cleared.flight + [Outgoing(data, s.keys.epoch, isCcs)],
                    writeSeq := if isCcs then s.writeSeq else (s.writeSeq + 1) % U16))
  }

  /** dtls1_add_message of a message built by dtls1_init_message and dtls1_finish_message. */
  function AddMessage(s: Sender, m: Message): Option<Sender>
    requires s.writeSeq < U16
  {
    AddOutgoing(s, false, Serialize(WholeMessage(m, s.writeSeq)))
  }

  datatype SealStatus = SealError | SealNoProgress | SealPartial | SealSuccess

  /** What sealing one message did: `records` holds the one record made, if progress was made. */
  datatype SealStep = SealStep(status: SealStatus, next: Sender, records: seq<Record>)

  predicate Progress(m: SealStep) {
    m.status == SealPartial || m.status == SealSuccess
  }

  /** Seals one payload and keeps the sender's position. */
  function SealPayload(s: Sender, previous: bool, typ: ContentType, payload: seq<Byte>, maxOut: nat)
    : (Sender, Option<Record>)
    requires (previous ==> s.keys.epoch >= 1)
  {
    var (keys, record) := SealRecord(s.keys, previous, typ, payload, maxOut);
    (s.(keys := keys), record)
  }

  /** The fragment `s` consists of, if it is exactly one. */
  function OneFragment(s: seq<Byte>): Option<Fragment> {
    match ParseFragment(s)
    case None => None
    case Some(p) => if p.1 != [] then None else Some(p.0)
  }

  lemma OneFragmentOf(f: Fragment)
    requires FitsHeader(f)
    ensures OneFragment(Serialize(f)) == Some(f)
  {
    ParseSerialize(f, []);
    assert Serialize(f) + [] == Serialize(f);
  }

  /** The message a stored serialization describes, if it is one whole message. */
  function StoredMessage(data: seq<Byte>): Option<Fragment> {
    match OneFragment(data)
    case None => None
    case Some(f) => if f.fragOff != 0 || f.msgLen != |f.body| then None else Some(f)
  }

  lemma StoredFits(data: seq<Byte>)
    requires StoredMessage(data).Some?
    ensures FitsHeader(StoredMessage(data).value)
  {
    ParsedFits(data);
  }

  function Min(a: nat, b: nat): nat {
    if a <= b then a else b
  }

  /** The next fragment of a stored message, `todo` bytes long. */
  function NextFragment(whole: Fragment, offset: nat, todo: nat): (f: Fragment)
    requires offset + todo <= |whole.body|
  {
    Fragment(whole.typ, whole.msgLen, whole.seqNo, offset, whole.body[offset..offset + todo])
  }

  /** seal_next_message on a ChangeCipherSpec. */
  function SealCcs(s: Sender, previous: bool, maxOut: nat): (m: SealStep)
    requires (previous ==> s.keys.epoch >= 1)
    ensures m.next == s.(keys := m.next.keys) && KeepsKeys(s, m.next)
    ensures |m.records| == (if Progress(m) then 1 else 0)
    ensures Progress(m) ==> m.records[0].wireLen <= maxOut
  {
    if maxOut < 1 + RT_HEADER_LENGTH + UsedAead(s.keys, previous).maxOverhead then SealStep(SealNoProgress, s, [])
    else
      var (next, record) := SealPayload(s, previous, ChangeCipherSpec, CCS_PAYLOAD, maxOut);
      if record.None? then SealStep(SealError, next, []) else SealStep(SealSuccess, next, [record.value])
  }

  /** How many bytes of the message go into the next fragment. */
  function Todo(s: Sender, previous: bool, whole: Fragment, maxOut: nat): nat
    requires s.offset <= |whole.body|
    requires HM_HEADER_LENGTH + RT_HEADER_LENGTH + UsedAead(s.keys, previous).maxOverhead <= maxOut
  {
    Min(|whole.body| - s.offset,
        maxOut - HM_HEADER_LENGTH - (RT_HEADER_LENGTH + UsedAead(s.keys, previous).maxOverhead))
  }

  /** seal_next_message on a handshake message. */
  function SealFragment(s: Sender, previous: bool, whole: Fragment, maxOut: nat): (m: SealStep)
    requires (previous ==> s.keys.epoch >= 1)
    ensures m.next == s.(keys := m.next.keys, offset := m.next.offset) && KeepsKeys(s, m.next)
    ensures |m.records| == (if Progress(m) then 1 else 0)
    ensures Progress(m) ==> m.records[0].wireLen <= maxOut
  {
    var aead := UsedAead(s.keys, previous);
    var overhead := RT_HEADER_LENGTH + aead.maxOverhead;
    var prefix := RT_HEADER_LENGTH + aead.nonceLen;
    if s.offset > |whole.body| then SealStep(SealError, s, [])
    else if maxOut < HM_HEADER_LENGTH + 1 + overhead || maxOut < prefix then SealStep(SealNoProgress, s, [])
    else
      var todo := Todo(s, previous, whole, maxOut);
      if HM_HEADER_LENGTH + todo > maxOut - prefix then SealStep(SealError, s, [])
      else
        var payload := Serialize(NextFragment(whole, s.offset, todo));
        var (next, record) := SealPayload(s, previous, HandshakeData, payload, maxOut);
        if record.None? then SealStep(SealError, next, [])
        else if todo == |whole.body| - s.offset then SealStep(SealSuccess, next.(offset := 0), [record.value])
        else SealStep(SealPartial, next.(offset := s.offset + todo), [record.value])
  }

  /** The keys move on only in their counters. */
  predicate KeepsKeys(s: Sender, next: Sender) {
    next.keys == s.keys.(sequence := next.keys.sequence, lastSequence := next.keys.lastSequence)
  }

  /** seal_next_message. */
  function SealNextMessage(s: Sender, maxOut: nat): (m: SealStep)
    requires s.written < |s.flight|
    ensures m.next == s.(keys := m.next.keys, offset := m.next.offset) && KeepsKeys(s, m.next)
    ensures |m.records| == (if Progress(m) then 1 else 0)
    ensures Progress(m) ==> m.records[0].wireLen <= maxOut
  {
    var msg := s.flight[s.written];
    var previous := s.keys.epoch >= 1 && msg.epoch == s.keys.epoch - 1;
    if !previous && msg.epoch != s.keys.epoch then SealStep(SealError, s, [])
    else if msg.isCcs then SealCcs(s, previous, maxOut)
    else
      match StoredMessage(msg.data)
      case None => SealStep(SealError, s, [])
      case Some(whole) => SealFragment(s, previous, whole, maxOut)
  }

  datatype Stop = Full | Done | Failed

  /** The records of one packet, and where sending stands afterwards. */
  datatype Packet = Packet(next: Sender, records: seq<Record>, stop: Stop)

  /** seal_next_packet's loop: messages are sealed until one does not fit whole. */
  function SealFrom(s: Sender, maxOut: nat): (p: Packet)
    requires s.written <= |s.flight|
    ensures p.next == s.(keys := p.next.keys, written := p.next.written, offset := p.next.offset)
    ensures s.written <= p.next.written <= |s.flight|
    decreases |s.flight| - s.written
  {
    if s.written == |s.flight| then Packet(s, [], Done)
    else
      var m := SealNextMessage(s, maxOut);
      match m.status
      case SealError => Packet(m.next, [], Failed)
      case SealNoProgress => Packet(m.next, [], Full)
      case SealPartial => Packet(m.next, m.records, Full)
      case SealSuccess =>
        var rest := SealFrom(m.next.(written := s.written + 1), maxOut - m.records[0].wireLen);
        rest.(records := m.records + rest.records)
  }

  /** One turn of the packing loop. */
  lemma OneMore(s: Sender, maxOut: nat)
    requires s.written < |s.flight|
    ensures var m := SealNextMessage(s, maxOut);
            match m.status
            case SealError => SealFrom(s, maxOut) == Packet(m.next, [], Failed)
            case SealNoProgress => SealFrom(s, maxOut) == Packet(m.next, [], Full)
            case SealPartial => SealFrom(s, maxOut) == Packet(m.next, m.records, Full)
            case SealSuccess =>
              var rest := SealFrom(m.next.(written := s.written + 1), maxOut - m.records[0].wireLen);
              SealFrom(s, maxOut) == rest.(records := m.records + rest.records)
  {
    hide SealNextMessage;
  }

  lemma NoneLeft(s: Sender, maxOut: nat)
    requires s.written <= |s.flight|
    ensures s.written == |s.flight| ==> SealFrom(s, maxOut) == Packet(s, [], Done)
  {
  }

  function WireLength(records: seq<Record>): nat {
    if records == [] then 0 else records[0].wireLen + WireLength(records[1..])
  }

  /** A packet never exceeds the space it was given. */
  lemma {:induction false} PacketFits(s: Sender, maxOut: nat)
    requires s.written <= |s.flight|
    ensures WireLength(SealFrom(s, maxOut).records) <= maxOut
    decreases |s.flight| - s.written
  {
    hide SealNextMessage;
    if s.written < |s.flight| {
      var m := SealNextMessage(s, maxOut);
      if m.status == SealSuccess {
        var following := m.next.(written := s.written + 1);
        PacketFits(following, maxOut - m.records[0].wireLen);
        var rest := SealFrom(following, maxOut - m.records[0].wireLen).records;
        assert (m.records + rest)[1..] == rest;
      }
    }
  }

  // What a flight is, told without the sender.

  /** A place in a flight: `offset` bytes into message `index`. */
  datatype Position = Position(index: nat, offset: nat)

  /** Where a flight stands after `record`, if `record` is exactly the flight's next piece: the
      ChangeCipherSpec, or a non-empty stretch of the message from `pos.offset` on (the whole of
      an empty message), with the message's own type, length and sequence number. */
  function Follow(flight: seq<Outgoing>, pos: Position, record: Record): Option<Position> {
    if pos.index >= |flight| then None
    else if flight[pos.index].isCcs then
      if record.typ == ChangeCipherSpec && record.payload == CCS_PAYLOAD
         && record.epoch == flight[pos.index].epoch && pos.offset == 0
      then Some(Position(pos.index + 1, 0)) else None
    else
      match (StoredMessage(flight[pos.index].data), OneFragment(record.payload))
      case (Some(whole), Some(f)) =>
        if && record.typ == HandshakeData && record.epoch == flight[pos.index].epoch
           && pos.offset + |f.body| <= |whole.body|
           && f == NextFragment(whole, pos.offset, |f.body|)
           && (|f.body| > 0 || |whole.body| == 0)
        then
          if pos.offset + |f.body| == |whole.body| then Some(Position(pos.index + 1, 0))
          else Some(Position(pos.index, pos.offset + |f.body|))
        else None
      case _ => None
  }

  function FollowAll(flight: seq<Outgoing>, pos: Position, records: seq<Record>): Option<Position>
    decreases |records|
  {
    if records == [] then Some(pos)
    else match Follow(flight, pos, records[0])
      case None => None
      case Some(next) => FollowAll(flight, next, records[1..])
  }

  lemma {:induction false} FollowAllAppend(flight: seq<Outgoing>, pos: Position, a: seq<Record>, b: seq<Record>)
    requires FollowAll(flight, pos, a).Some?
    ensures FollowAll(flight, pos, a + b) == FollowAll(flight, FollowAll(flight, pos, a).value, b)
    decreases |a|
  {
    if a == [] {
      assert a + b == b;
    } else {
      assert (a + b)[1..] == a[1..] + b;
      FollowAllAppend(flight, Follow(flight, pos, a[0]).value, a[1..], b);
    }
  }

  function PositionOf(s: Sender): Position {
    Position(s.written, s.offset)
  }

  /** The position is inside the message it points at, and an unfinished message is not at its
      end unless it is empty. */
  predicate ValidPosition(flight: seq<Outgoing>, pos: Position) {
    && pos.index <= |flight|
    && (pos.offset > 0 ==>
          && pos.index < |flight| && !flight[pos.index].isCcs
          && StoredMessage(flight[pos.index].data).Some?
          && pos.offset < |StoredMessage(flight[pos.index].data).value.body|)
  }

  /** A record around the next fragment of the message sending stands in is the flight's next piece. */
  lemma FragmentFollows(flight: seq<Outgoing>, pos: Position, todo: nat, record: Record)
    requires pos.index < |flight| && !flight[pos.index].isCcs && StoredMessage(flight[pos.index].data).Some?
    requires var whole := StoredMessage(flight[pos.index].data).value;
             && pos.offset + todo <= |whole.body| && (todo > 0 || |whole.body| == 0)
             && record.payload == Serialize(NextFragment(whole, pos.offset, todo))
    requires record.typ == HandshakeData && record.epoch == flight[pos.index].epoch
    ensures Follow(flight, pos, record) ==
            Some(if pos.offset + todo == |StoredMessage(flight[pos.index].data).value.body|
                 then Position(pos.index + 1, 0) else Position(pos.index, pos.offset + todo))
  {
    hide OneFragment, Serialize;
    StoredFits(flight[pos.index].data);
    OneFragmentOf(NextFragment(StoredMessage(flight[pos.index].data).value, pos.offset, todo));
  }

  lemma SealFragmentFollows(s: Sender, previous: bool, maxOut: nat)
    requires WellFormedSender(s) && s.written < |s.flight| && !s.flight[s.written].isCcs
    requires StoredMessage(s.flight[s.written].data).Some?
    requires previous ==> s.keys.epoch >= 1
    requires UsedEpoch(s.keys, previous) == s.flight[s.written].epoch
    requires ValidPosition(s.flight, PositionOf(s))
    ensures Advances(s, SealFragment(s, previous, StoredMessage(s.flight[s.written].data).value, maxOut))
  {
    hide Follow, StoredMessage, Serialize;
    var whole := StoredMessage(s.flight[s.written].data).value;
    var m := SealFragment(s, previous, whole, maxOut);
    if Progress(m) {
      FragmentFollows(s.flight, PositionOf(s), Todo(s, previous, whole, maxOut), m.records[0]);
    }
  }

  lemma SealCcsFollows(s: Sender, previous: bool, maxOut: nat)
    requires WellFormedSender(s) && s.written < |s.flight| && s.flight[s.written].isCcs
    requires previous ==> s.keys.epoch >= 1
    requires UsedEpoch(s.keys, previous) == s.flight[s.written].epoch
    requires ValidPosition(s.flight, PositionOf(s))
    ensures Advances(s, SealCcs(s, previous, maxOut))
  {
  }

  /** Sealing makes exactly the flight's next piece and moves past it. */
  predicate Advances(s: Sender, m: SealStep)
    requires Progress(m) ==> |m.records| == 1
  {
    match m.status
    case SealError => m.next.offset == s.offset && m.records == []
    case SealNoProgress => m.next == s && m.records == []
    case SealPartial =>
      && Follow(s.flight, PositionOf(s), m.records[0]) == Some(PositionOf(m.next))
      && ValidPosition(s.flight, PositionOf(m.next)) && m.next.offset > s.offset
    case SealSuccess =>
      Follow(s.flight, PositionOf(s), m.records[0]) == Some(Position(s.written + 1, 0)) && m.next.offset == 0
  }

  lemma SealFollows(s: Sender, maxOut: nat)
    requires WellFormedSender(s) && s.written < |s.flight| && ValidPosition(s.flight, PositionOf(s))
    ensures Advances(s, SealNextMessage(s, maxOut))
  {
    hide Follow, SealFragment, SealCcs, ValidPosition, ValidAead, StoredMessage;
    var msg := s.flight[s.written];
    var previous := s.keys.epoch >= 1 && msg.epoch == s.keys.epoch - 1;
    if previous || msg.epoch == s.keys.epoch {
      if msg.isCcs {
        SealCcsFollows(s, previous, maxOut);
      } else if StoredMessage(msg.data).Some? {
        SealFragmentFollows(s, previous, maxOut);
      }
    }
  }

  /** `p` carries the flight on from where `s` stands to where it stands after `p`. */
  predicate CarriesOn(s: Sender, p: Packet) {
    && FollowAll(s.flight, PositionOf(s), p.records) == Some(PositionOf(p.next))
    && ValidPosition(s.flight, PositionOf(p.next))
    && WellFormedSender(p.next)
    && (p.records != [] ==> Closer(p.next, s))
  }

  /** Sending stands further along in `a` than in `b`: fewer messages are left, or fewer bytes of
      the same message. */
  predicate Closer(a: Sender, b: Sender) {
    a.written > b.written || (a.written == b.written && a.offset > b.offset)
  }

  lemma FollowOne(s: Sender, next: Sender, record: Record)
    requires Follow(s.flight, PositionOf(s), record) == Some(PositionOf(next))
    ensures FollowAll(s.flight, PositionOf(s), [record]) == Some(PositionOf(next))
  {
    hide Follow;
    assert [record][1..] == [];
  }

  /** A packet's records, failed or not, are exactly the pieces between the position before it and
      the position after it. */
  lemma {:induction false} PacketFollows(s: Sender, maxOut: nat)
    requires WellFormedSender(s) && ValidPosition(s.flight, PositionOf(s))
    ensures CarriesOn(s, SealFrom(s, maxOut))
    decreases |s.flight| - s.written
  {
    hide Follow, SealNextMessage, ValidAead;
    if s.written < |s.flight| {
      SealFollows(s, maxOut);
      var m := SealNextMessage(s, maxOut);
      assert Progress(m) ==> m.records == [m.records[0]];
      if m.status == SealPartial {
        FollowOne(s, m.next, m.records[0]);
      } else if m.status == SealSuccess {
        var following := m.next.(written := s.written + 1);
        var rest := SealFrom(following, maxOut - m.records[0].wireLen);
        PacketFollows(following, maxOut - m.records[0].wireLen);
        FollowOne(s, following, m.records[0]);
        FollowAllAppend(s.flight, PositionOf(s), m.records, rest.records);
      }
    }
  }

  /** seal_next_packet: sealing nothing is an error, MTU_TOO_SMALL. */
  predicate PacketOk(p: Packet) {
    p.stop != Failed && p.records != []
  }

  /** How the transport answers: positive, would-block or error for each datagram in turn. */
  datatype SendOutcome = SendOutcome(next: Sender, sent: seq<seq<Record>>, result: int, writesUsed: nat)

  /** send_flight's loop against a transport that answers the k-th write with `answers[k]`, and
      with would-block once the answers are used up. A datagram not taken is not sent, and sending
      stands where it stood before the datagram was made; only record numbers stay used. */
  function SendLoop(s: Sender, mtu: nat, answers: seq<int>): (o: SendOutcome)
    requires s.written <= |s.flight|
    ensures o.next == s.(keys := o.next.keys, written := o.next.written, offset := o.next.offset)
    ensures s.written <= o.next.written <= |s.flight|
    decreases |answers|
  {
    if s.written == |s.flight| then SendOutcome(s, [], 1, 0)
    else
      var p := SealFrom(s, mtu);
      if !PacketOk(p) then SendOutcome(p.next, [], -1, 0)
      else
        var kept := p.next.(written := s.written, offset := s.offset);
        if answers == [] then SendOutcome(kept, [], -1, 0)
        else if answers[0] <= 0 then SendOutcome(kept, [], answers[0], 1)
        else
          var o := SendLoop(p.next, mtu, answers[1..]);
          SendOutcome(o.next, [p.records] + o.sent, o.result, o.writesUsed + 1)
  }

  function Flatten(packets: seq<seq<Record>>): seq<Record> {
    if packets == [] then [] else packets[0] + Flatten(packets[1..])
  }

  /** Some packet along the way fails to seal after sealing something: what it sealed is dropped,
      although sending has moved past it. */
  predicate DropsRecords(s: Sender, mtu: nat, answers: seq<int>)
    requires s.written <= |s.flight|
    decreases |answers|
  {
    s.written < |s.flight| &&
    var p := SealFrom(s, mtu);
    || (p.stop == Failed && p.records != [])
    || (PacketOk(p) && answers != [] && answers[0] > 0 && DropsRecords(p.next, mtu, answers[1..]))
  }

  /** The datagrams the transport took carry the flight on from where it stood to where it now
      stands. */
  predicate Carried(s: Sender, o: SendOutcome) {
    FollowAll(s.flight, PositionOf(s), Flatten(o.sent)) == Some(PositionOf(o.next))
  }

  /** Whatever the transport answers, the datagrams it took carry the flight on from where it
      stood to where it now stands, unless, and only unless, a packet failed half-sealed; each is
      within the MTU, and success means the flight is over. */
  lemma {:induction false} SendLoopFollows(s: Sender, mtu: nat, answers: seq<int>)
    requires WellFormedSender(s) && ValidPosition(s.flight, PositionOf(s))
    ensures var o := SendLoop(s, mtu, answers);
            && (Carried(s, o) <==> !DropsRecords(s, mtu, answers))
            && ValidPosition(s.flight, PositionOf(o.next))
            && WellFormedSender(o.next)
            && (o.result > 0 ==> PositionOf(o.next) == Position(|s.flight|, 0))
            && (forall k: nat | k < |o.sent| :: o.sent[k] != [] && WireLength(o.sent[k]) <= mtu)
    decreases |answers|
  {
    hide Follow, SealFrom, ValidAead;
    if s.written < |s.flight| {
      var p := SealFrom(s, mtu);
      PacketFollows(s, mtu);
      PacketFits(s, mtu);
      if PacketOk(p) && answers != [] && answers[0] > 0 {
        SendLoopFollows(p.next, mtu, answers[1..]);
        var o := SendLoop(p.next, mtu, answers[1..]);
        FollowAllAppend(s.flight, PositionOf(s), p.records, Flatten(o.sent));
        assert ([p.records] + o.sent)[1..] == o.sent;
      }
    }
  }

  // How much a record takes.

  /** A fragment takes all that is left of its message, or all that the space allows, whatever the cipher may
      add: none is cut short for nothing. */
  lemma FragmentsFill(s: Sender, previous: bool, whole: Fragment, maxOut: nat)
    requires (previous ==> s.keys.epoch >= 1) && s.offset <= |whole.body|
    ensures var m := SealFragment(s, previous, whole, maxOut);
            var overhead := RT_HEADER_LENGTH + UsedAead(s.keys, previous).maxOverhead;
            && (m.status == SealSuccess ==> |m.records[0].payload| == HM_HEADER_LENGTH + (|whole.body| - s.offset))
            && (m.status == SealPartial ==> |m.records[0].payload| + overhead == maxOut)
            && (m.status == SealNoProgress <==> maxOut < HM_HEADER_LENGTH + 1 + overhead
                                                || maxOut < RT_HEADER_LENGTH + UsedAead(s.keys, previous).nonceLen)
            && (HM_HEADER_LENGTH + (|whole.body| - s.offset) + overhead <= maxOut ==> m.status != SealPartial)
  {
    hide Serialize;
  }

  lemma NoOffset(flight: seq<Outgoing>, index: nat)
    ensures index <= |flight| ==> ValidPosition(flight, Position(index, 0))
  {
  }

  /** A packet goes on for as long as messages fit whole: it ends with the flight, or full with a message cut,
      or one for which there is no room. */
  lemma {:induction false} PacketGoesOn(s: Sender, maxOut: nat)
    requires WellFormedSender(s) && ValidPosition(s.flight, PositionOf(s))
    ensures var p := SealFrom(s, maxOut);
            && WireLength(p.records) <= maxOut
            && (p.stop == Done <==> p.next.written == |s.flight|)
            && (p.stop == Full ==>
                  p.next.offset > 0
                  || SealNextMessage(p.next, maxOut - WireLength(p.records)).status == SealNoProgress)
    decreases |s.flight| - s.written
  {
    hide SealNextMessage, Follow, ValidPosition, ValidAead;
    PacketFits(s, maxOut);
    if s.written < |s.flight| {
      SealFollows(s, maxOut);
      NoOffset(s.flight, s.written + 1);
      var m := SealNextMessage(s, maxOut);
      if m.status == SealSuccess {
        PacketGoesOn(m.next.(written := s.written + 1), maxOut - m.records[0].wireLen);
        var rest := SealFrom(m.next.(written := s.written + 1), maxOut - m.records[0].wireLen).records;
        assert (m.records + rest)[1..] == rest;
      }
    }
  }
}
