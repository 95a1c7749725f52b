/** Delivery in order for any number of messages: as long as the sender keeps within 2^16 messages of the
    receiver and neither epoch wraps, the replay window tells every record of an old message apart, although
    the message numbers have wrapped. */
module DtlsPace {
  import opened Common
  import opened DtlsFragment
  import opened DtlsReceive
  import opened DtlsRing
  import opened DtlsRecords
  import opened DtlsFlight
  import opened DtlsReady
  import opened DtlsRecordLayer
  import opened DtlsAssembly
  import opened DtlsAnyOrder
  import D = DtlsDelivery

  /** How many messages there may be, and how many of them may be sent and not handed out yet. */
  datatype Pace = Pace(messages: nat, lead: nat)

  /** The run adds a message only when the pace allows it. */
  ghost predicate KeepsPace(sys: D.System, events: seq<D.Event>, p: Pace)
    requires D.IsRun(sys, events, p.messages)
    decreases |events|
  {
    events != [] ==>
      && (events[0].AddHandshake? ==> |sys.sent| < |sys.delivered| + p.lead)
      && KeepsPace(D.Step(sys, events[0]), events[1..], p)
  }

  ghost predicate PacedRun(sys: D.System, events: seq<D.Event>, p: Pace) {
    D.IsRun(sys, events, p.messages) && KeepsPace(sys, events, p)
  }

  /** Changes of the write and of the read keys, and packets made. */
  datatype Counts = Counts(writing: nat, reading: nat, packets: nat)

  const ZERO: Counts := Counts(0, 0, 0)

  function Plus(a: Counts, b: Counts): Counts {
    Counts(a.writing + b.writing, a.reading + b.reading, a.packets + b.packets)
  }

  function CountOne(e: D.Event): Counts {
    Counts(if e.NewWriteKeys? then 1 else 0, if e.NewReadKeys? then 1 else 0, if e.SendPacket? then 1 else 0)
  }

  function CountsOf(events: seq<D.Event>): Counts {
    if events == [] then ZERO else Plus(CountOne(events[0]), CountsOf(events[1..]))
  }

  /** The epochs do not wrap, and there are record numbers for all packets. */
  predicate Bounded(c: Counts) {
    c.writing < U16 && c.reading < U16 && MAX_FLIGHT * c.packets <= MAX_SEQUENCE
  }

  // What is true of every message, told by its place in the history and not by its number.

  /** In which epoch each message was added, and from which message each record was cut. */
  datatype Ledger = Ledger(epochs: seq<nat>, origin: map<Record, nat>)

  /** The fragment is a stretch of message `i` of the history. */
  predicate StretchOf(sent: seq<Message>, i: nat, f: Fragment) {
    && i < |sent| && f.seqNo == i % U16 && f.typ == sent[i].typ && f.msgLen == |sent[i].body|
    && f.fragOff + |f.body| <= f.msgLen
    && f.body == sent[i].body[f.fragOff..f.fragOff + |f.body|]
  }

  predicate TrueRecord(sent: seq<Message>, l: Ledger, x: Record) {
    && x in l.origin && l.origin[x] < |l.epochs| && x.epoch == l.epochs[l.origin[x]]
    && OneFragment(x.payload).Some? && StretchOf(sent, l.origin[x], OneFragment(x.payload).value)
  }

  /** Entry `k` of the flight is message `i`, one of the last the flight has room for. */
  predicate Entry(sent: seq<Message>, epochs: seq<nat>, flight: seq<Outgoing>, k: nat, i: nat) {
    && k < |flight| && i < |sent| == |epochs| && |sent| <= i + (|flight| - k)
    && flight[k] == Outgoing(Serialize(WholeMessage(sent[i], i % U16)), epochs[i], false)
  }

  ghost predicate FlightRecent(sent: seq<Message>, epochs: seq<nat>, flight: seq<Outgoing>) {
    forall k: nat | k < |flight| && !flight[k].isCcs :: exists i: nat :: Entry(sent, epochs, flight, k, i)
  }

  predicate EpochsRise(epochs: seq<nat>, epoch: nat) {
    && (forall i: nat, j: nat | i <= j < |epochs| :: epochs[i] <= epochs[j])
    && (forall i: nat | i < |epochs| :: epochs[i] <= epoch)
  }

  /** Numbers given out are below the counters. */
  predicate Below(w: WriteState, x: Record) {
    && x.epoch <= w.epoch
    && (x.epoch == w.epoch ==> x.number < w.sequence)
    && (x.epoch + 1 == w.epoch ==> x.number < w.lastSequence)
  }

  /** Of two records of one epoch, that of a message a flight or more later has the larger number. */
  predicate InOrder(l: Ledger, x: Record, y: Record) {
    x in l.origin && y in l.origin && x.epoch == y.epoch && l.origin[x] + MAX_FLIGHT <= l.origin[y] ==>
      x.number < y.number
  }

  ghost predicate WireTrue(sent: seq<Message>, l: Ledger, w: WriteState, wire: set<Record>) {
    && (forall x | x in wire && x.typ == HandshakeData :: TrueRecord(sent, l, x) && Below(w, x))
    && (forall x, y | x in wire && y in wire && x.typ == y.typ == HandshakeData :: InOrder(l, x, y))
  }

  ghost predicate Sending(sys: D.System, l: Ledger, packets: nat) {
    && WellFormedSender(sys.sender) && ValidPosition(sys.sender.flight, PositionOf(sys.sender))
    && |l.epochs| == |sys.sent| && sys.sender.writeSeq == |sys.sent| % U16
    && (forall i: nat | i < |sys.sent| :: |sys.sent[i].body| < U24)
    && sys.sender.keys.sequence <= MAX_FLIGHT * packets && sys.sender.keys.lastSequence <= MAX_FLIGHT * packets
    && EpochsRise(l.epochs, sys.sender.keys.epoch)
    && FlightRecent(sys.sent, l.epochs, sys.sender.flight)
    && WireTrue(sys.sent, l, sys.sender.keys, sys.wire)
  }

  /** A record of message `j` has been processed in the current epoch, unless its epoch is over. */
  ghost predicate Met(wire: set<Record>, l: Ledger, w: Window, epoch: nat, j: nat) {
    && j < |l.epochs| && l.epochs[j] <= epoch
    && (l.epochs[j] == epoch ==>
          exists x :: x in wire && x.typ == HandshakeData && x in l.origin && l.origin[x] == j
                      && D.FullNumber(x) in w.recorded)
  }

  /** The message numbered zero last before message `d`. */
  function Base(d: nat): (b: nat)
    ensures b <= d < b + U16 && b % U16 == 0 && d == b + d % U16
  {
    d - d % U16
  }

  ghost predicate AllMet(sys: D.System, l: Ledger) {
    && (forall j: nat | j < |sys.delivered| :: Met(sys.wire, l, sys.window, sys.receiver.epoch, j))
    && (forall i: nat | i < MAX_FLIGHT && sys.receiver.slots[i].Some? ::
          Met(sys.wire, l, sys.window, sys.receiver.epoch, Base(|sys.delivered|) + sys.receiver.slots[i].value.seqNo))
  }

  ghost predicate Taking(sys: D.System, l: Ledger) {
    var d := |sys.delivered|;
    && RingInv(sys.receiver) && SoundWindow(sys.window)
    && d <= |sys.sent| <= d + U16 && sys.delivered == sys.sent[..d] && sys.receiver.readSeq == d % U16
    && D.AllFromPeer(sys.sent[Base(d)..], sys.receiver)
    && AllMet(sys, l)
  }

  ghost predicate Inv(sys: D.System, l: Ledger, c: Counts) {
    && Sending(sys, l, c.packets) && Taking(sys, l)
    && sys.sender.keys.epoch <= c.writing && sys.receiver.epoch <= c.reading
  }

  lemma StartInv(aead: Aead)
    requires ValidAead(aead)
    ensures Inv(D.Start(aead), Ledger([], map[]), ZERO)
  {
    InitialRing();
  }

  // Old records.

  /** Messages seven apart, from that of `x` on, have met records with larger and larger numbers. */
  lemma {:induction false} LaterNumbers(sys: D.System, l: Ledger, packets: nat, x: Record, m: nat)
    requires Sending(sys, l, packets) && Taking(sys, l)
    requires x in sys.wire && x.typ == HandshakeData && x.epoch == sys.receiver.epoch
    requires x in l.origin && l.origin[x] + MAX_FLIGHT * m < |sys.delivered|
    ensures exists y :: y in sys.wire && y.typ == HandshakeData && y.epoch == x.epoch
                        && y in l.origin && l.origin[y] == l.origin[x] + MAX_FLIGHT * m && y.number >= x.number + m
                        && (m > 0 ==> D.FullNumber(y) in sys.window.recorded)
  {
    hide D.AllFromPeer, RingInv, SoundWindow, FlightRecent, ValidAead, StretchOf, D.FullNumber;
    if m > 0 {
      LaterNumbers(sys, l, packets, x, m - 1);
      var y :| y in sys.wire && y.typ == HandshakeData && y.epoch == x.epoch
               && y in l.origin && l.origin[y] == l.origin[x] + MAX_FLIGHT * (m - 1) && y.number >= x.number + (m - 1);
      var j := l.origin[x] + MAX_FLIGHT * m;
      assert Met(sys.wire, l, sys.window, sys.receiver.epoch, j);
      assert TrueRecord(sys.sent, l, x) && l.epochs[l.origin[x]] <= l.epochs[j];
      var z :| z in sys.wire && z.typ == HandshakeData && z in l.origin && l.origin[z] == j
               && D.FullNumber(z) in sys.window.recorded;
      assert TrueRecord(sys.sent, l, z) && InOrder(l, y, z);
    }
  }

  /** A record of a message 2^16 or more behind what can be taken is too old for the window. */
  lemma TooOld(sys: D.System, l: Ledger, packets: nat, x: Record)
    requires Sending(sys, l, packets) && Taking(sys, l)
    requires x in sys.wire && x.typ == HandshakeData && x.epoch == sys.receiver.epoch
    requires x in l.origin && l.origin[x] + U16 < |sys.delivered| + MAX_FLIGHT
    ensures Discards(sys.window, D.FullNumber(x))
  {
    hide Sending, AllMet, D.AllFromPeer, RingInv;
    LaterNumbers(sys, l, packets, x, WINDOW_SIZE);
    var y :| y in sys.wire && y.epoch == x.epoch && y.number >= x.number + WINDOW_SIZE
             && D.FullNumber(y) in sys.window.recorded;
    NumbersApart(y, x);
  }

  lemma SameResidue(a: nat, b: nat)
    requires a % U16 == b % U16 && a < b + U16 && b < a + U16
    ensures a == b
  {
  }

  lemma BaseResidue(d: nat, s: nat)
    requires s < U16
    ensures (Base(d) + s) % U16 == s
  {
  }

  /** A record that is admitted and whose number is one the receiver takes is of the message it takes. */
  lemma TakesTheRight(sys: D.System, l: Ledger, packets: nat, x: Record, f: Fragment)
    requires Sending(sys, l, packets) && Taking(sys, l)
    requires x in sys.wire && x.typ == HandshakeData && OneFragment(x.payload) == Some(f)
    requires x.epoch == sys.receiver.epoch && !Discards(sys.window, D.FullNumber(x))
    requires sys.receiver.readSeq <= f.seqNo < sys.receiver.readSeq + MAX_FLIGHT && f.seqNo < U16
    ensures x in l.origin && l.origin[x] == Base(|sys.delivered|) + f.seqNo
    ensures D.Genuine(sys.sent[Base(|sys.delivered|)..], f)
  {
    hide D.AllFromPeer, RingInv, AllMet, FlightRecent, ValidAead, Discards, SoundWindow, EpochsRise, D.FullNumber;
    var d := |sys.delivered|;
    var i := l.origin[x];
    assert TrueRecord(sys.sent, l, x);
    BaseResidue(d, f.seqNo);
    if i + U16 < d + MAX_FLIGHT {
      TooOld(sys, l, packets, x);
    }
    SameResidue(i, Base(d) + f.seqNo);
  }

  // Adding to the flight.

  lemma LedgerGrows(sent: seq<Message>, l: Ledger, m: Message, epoch: nat, w: WriteState, wire: set<Record>)
    requires WireTrue(sent, l, w, wire) && |l.epochs| == |sent|
    ensures WireTrue(sent + [m], l.(epochs := l.epochs + [epoch]), w, wire)
  {
    hide OneFragment;
    var k := l.(epochs := l.epochs + [epoch]);
    forall x | x in wire && x.typ == HandshakeData
      ensures TrueRecord(sent + [m], k, x) && Below(w, x)
    {
      assert TrueRecord(sent, l, x);
    }
    forall x, y | x in wire && y in wire && x.typ == y.typ == HandshakeData
      ensures InOrder(k, x, y)
    {
      assert InOrder(l, x, y);
    }
  }

  lemma MetGrows(wire: set<Record>, l: Ledger, w: Window, epoch: nat, j: nat, later: nat)
    requires Met(wire, l, w, epoch, j)
    ensures Met(wire, l.(epochs := l.epochs + [later]), w, epoch, j)
  {
  }

  lemma EntryGrows(sent: seq<Message>, epochs: seq<nat>, flight: seq<Outgoing>, m: Message, epoch: nat, o: Outgoing)
    requires FlightRecent(sent, epochs, flight) && |sent| == |epochs|
    requires o == Outgoing(Serialize(WholeMessage(m, |sent| % U16)), epoch, false)
    ensures FlightRecent(sent + [m], epochs + [epoch], flight + [o])
  {
    hide Serialize;
    forall k: nat | k < |flight + [o]| && !(flight + [o])[k].isCcs
      ensures exists i: nat :: Entry(sent + [m], epochs + [epoch], flight + [o], k, i)
    {
      if k < |flight| {
        assert !flight[k].isCcs;
        var i: nat :| Entry(sent, epochs, flight, k, i);
        assert Entry(sent + [m], epochs + [epoch], flight + [o], k, i);
      } else {
        assert Entry(sent + [m], epochs + [epoch], flight + [o], k, |sent|);
      }
    }
  }

  lemma NothingInFlight(sent: seq<Message>, epochs: seq<nat>)
    ensures FlightRecent(sent, epochs, [])
  {
  }

  /** The flight a new entry is appended to. */
  function Opened(s: Sender): seq<Outgoing> {
    if s.flightComplete then [] else s.flight
  }

  lemma AddKeepsSending(sys: D.System, l: Ledger, packets: nat, m: Message)
    requires Sending(sys, l, packets) && |m.body| < U24 && AddMessage(sys.sender, m).Some?
    ensures Sending(D.Step(sys, D.AddHandshake(m)), l.(epochs := l.epochs + [sys.sender.keys.epoch]), packets)
  {
    hide ValidAead, Serialize, StoredMessage, FlightRecent, WireTrue;
    var epoch := sys.sender.keys.epoch;
    var next := D.Step(sys, D.AddHandshake(m));
    var o := Outgoing(Serialize(WholeMessage(m, |sys.sent| % U16)), epoch, false);
    LedgerGrows(sys.sent, l, m, epoch, sys.sender.keys, sys.wire);
    NothingInFlight(sys.sent, l.epochs);
    EntryGrows(sys.sent, l.epochs, Opened(sys.sender), m, epoch, o);
    assert next.sender.flight == Opened(sys.sender) + [o];
    D.KeepsPosition(sys.sender, next.sender);
    NextNumber(|sys.sent|);
  }

  lemma NextNumber(n: nat)
    ensures (n % U16 + 1) % U16 == (n + 1) % U16
  {
  }

  lemma AddKeepsTaking(sys: D.System, l: Ledger, m: Message)
    requires Taking(sys, l) && |l.epochs| == |sys.sent| < |sys.delivered| + U16 && D.Typed(sys)
    ensures AddMessage(sys.sender, m).Some? ==>
              Taking(D.Step(sys, D.AddHandshake(m)), l.(epochs := l.epochs + [sys.sender.keys.epoch]))
  {
    hide D.AllFromPeer, RingInv, SoundWindow, AddOutgoing, Met;
    if AddMessage(sys.sender, m).Some? {
      var d := |sys.delivered|;
      var next := D.Step(sys, D.AddHandshake(m));
      D.GrowKeepsPeer(sys.sent[Base(d)..], m, sys.receiver);
      assert next.sent[Base(d)..] == sys.sent[Base(d)..] + [m];
      assert next.sent[..d] == sys.sent[..d];
      forall j: nat | Met(sys.wire, l, sys.window, sys.receiver.epoch, j)
        ensures Met(sys.wire, l.(epochs := l.epochs + [sys.sender.keys.epoch]), sys.window, sys.receiver.epoch, j)
      {
        MetGrows(sys.wire, l, sys.window, sys.receiver.epoch, j, sys.sender.keys.epoch);
      }
    }
  }

  lemma CcsEntry(sent: seq<Message>, epochs: seq<nat>, flight: seq<Outgoing>, o: Outgoing)
    requires FlightRecent(sent, epochs, flight) && o.isCcs
    ensures FlightRecent(sent, epochs, flight + [o])
  {
    hide Serialize;
    forall k: nat | k < |flight + [o]| && !(flight + [o])[k].isCcs
      ensures exists i: nat :: Entry(sent, epochs, flight + [o], k, i)
    {
      assert !flight[k].isCcs;
      var i: nat :| Entry(sent, epochs, flight, k, i);
      assert Entry(sent, epochs, flight + [o], k, i);
    }
  }

  lemma CcsKeepsSending(sys: D.System, l: Ledger, packets: nat)
    requires Sending(sys, l, packets) && AddOutgoing(sys.sender, true, []).Some?
    ensures Sending(D.Step(sys, D.AddChangeCipherSpec), l, packets)
  {
    hide ValidAead, StoredMessage, FlightRecent, WireTrue;
    var next := D.Step(sys, D.AddChangeCipherSpec);
    var o := Outgoing([], sys.sender.keys.epoch, true);
    NothingInFlight(sys.sent, l.epochs);
    CcsEntry(sys.sent, l.epochs, Opened(sys.sender), o);
    assert next.sender.flight == Opened(sys.sender) + [o];
    D.KeepsPosition(sys.sender, next.sender);
  }

  // Sealing.

  /** The record is a stretch of the stored message. */
  predicate CutFrom(o: Outgoing, x: Record) {
    && !o.isCcs && StoredMessage(o.data).Some? && OneFragment(x.payload).Some? && x.epoch == o.epoch
    && var whole := StoredMessage(o.data).value;
       var f := OneFragment(x.payload).value;
       && f.typ == whole.typ && f.msgLen == whole.msgLen && f.seqNo == whole.seqNo
       && f.fragOff + |f.body| <= |whole.body| && f.body == whole.body[f.fragOff..f.fragOff + |f.body|]
  }

  lemma {:induction false} AllCut(flight: seq<Outgoing>, pos: Position, records: seq<Record>)
    requires FollowAll(flight, pos, records).Some?
    ensures forall x | x in records && x.typ == HandshakeData :: exists k: nat :: k < |flight| && CutFrom(flight[k], x)
    decreases |records|
  {
    hide Follow, CutFrom;
    if records != [] {
      OneCut(flight, pos, records[0]);
      AllCut(flight, Follow(flight, pos, records[0]).value, records[1..]);
    }
  }

  lemma OneCut(flight: seq<Outgoing>, pos: Position, x: Record)
    requires Follow(flight, pos, x).Some?
    ensures pos.index < |flight| && (x.typ == HandshakeData ==> CutFrom(flight[pos.index], x))
  {
    hide OneFragment, StoredMessage;
  }

  lemma StretchCut(sent: seq<Message>, epochs: seq<nat>, flight: seq<Outgoing>, k: nat, i: nat, x: Record)
    requires Entry(sent, epochs, flight, k, i) && CutFrom(flight[k], x) && |sent[i].body| < U24
    ensures StretchOf(sent, i, OneFragment(x.payload).value) && x.epoch == epochs[i]
  {
    hide OneFragment, Serialize;
    OneFragmentOf(WholeMessage(sent[i], i % U16));
  }

  /** The last message of the history with this number. */
  function Recent(n: nat, s: nat): nat {
    var back := (n - 1 - s) % U16;
    if back < n then n - 1 - back else 0
  }

  lemma RecentIs(n: nat, i: nat)
    requires i < n <= i + MAX_FLIGHT
    ensures Recent(n, i % U16) == i
  {
    assert n - 1 - i % U16 == (n - 1 - i) + U16 * (i / U16);
    assert (n - 1 - i % U16) % U16 == n - 1 - i;
  }

  /** The records of a packet, entered. */
  function Entered(l: Ledger, n: nat, records: seq<Record>): Ledger {
    l.(origin := l.origin + map x | x in records && OneFragment(x.payload).Some? ::
                                Recent(n, OneFragment(x.payload).value.seqNo))
  }

  /** A record of the packet is of one of the last messages. */
  lemma FreshRecord(sys: D.System, l: Ledger, packets: nat, records: seq<Record>, x: Record)
    requires Sending(sys, l, packets) && FollowAll(sys.sender.flight, PositionOf(sys.sender), records).Some?
    requires x in records && x.typ == HandshakeData
    ensures var k := Entered(l, |sys.sent|, records);
            TrueRecord(sys.sent, k, x) && k.origin[x] + MAX_FLIGHT >= |sys.sent|
  {
    hide WireTrue, ValidAead, ValidPosition, OneFragment, Entry, CutFrom, Recent;
    AllCut(sys.sender.flight, PositionOf(sys.sender), records);
    var k: nat :| k < |sys.sender.flight| && CutFrom(sys.sender.flight[k], x);
    CutIsMessage(sys.sender.flight[k], x);
    var i: nat :| Entry(sys.sent, l.epochs, sys.sender.flight, k, i);
    EntryIs(sys.sent, l.epochs, sys.sender.flight, k, i);
    StretchCut(sys.sent, l.epochs, sys.sender.flight, k, i, x);
    RecentIs(|sys.sent|, i);
  }

  lemma CutIsMessage(o: Outgoing, x: Record)
    requires CutFrom(o, x)
    ensures !o.isCcs && OneFragment(x.payload).Some?
  {
  }

  lemma EntryIs(sent: seq<Message>, epochs: seq<nat>, flight: seq<Outgoing>, k: nat, i: nat)
    requires Entry(sent, epochs, flight, k, i)
    ensures k < |flight| && i < |sent| == |epochs| && |sent| <= i + |flight|
  {
  }

  /** What a packet puts on the wire is true of the ledger that enters it. */
  lemma PacketTrue(sys: D.System, l: Ledger, packets: nat, next: WriteState, records: seq<Record>)
    requires Sending(sys, l, packets) && FollowAll(sys.sender.flight, PositionOf(sys.sender), records).Some?
    requires NumberedBetween(sys.sender.keys, next, records)
    ensures WireTrue(sys.sent, Entered(l, |sys.sent|, records), next, sys.wire + set x | x in records)
  {
    hide ValidAead, ValidPosition, OneFragment, FollowAll, FlightRecent, StretchOf, EpochsRise;
    var k := Entered(l, |sys.sent|, records);
    var w := sys.sender.keys;
    var wire := sys.wire + set x | x in records;
    forall x | x in wire && x.typ == HandshakeData
      ensures TrueRecord(sys.sent, k, x) && Below(next, x)
      ensures x in records ==> k.origin[x] + MAX_FLIGHT >= |sys.sent|
      ensures x !in records ==> x in sys.wire && x in l.origin && k.origin[x] == l.origin[x] && Below(w, x)
    {
      if x in records {
        FreshRecord(sys, l, packets, records, x);
      } else {
        assert TrueRecord(sys.sent, l, x);
      }
    }
    forall x, y | x in wire && y in wire && x.typ == y.typ == HandshakeData
      ensures InOrder(k, x, y)
    {
      assert TrueRecord(sys.sent, k, x) && TrueRecord(sys.sent, k, y);
      if x !in records && y !in records {
        assert InOrder(l, x, y);
      }
    }
  }

  lemma StepCounts(s: Sender, maxOut: nat)
    requires s.written < |s.flight| && s.keys.sequence < MAX_SEQUENCE && s.keys.lastSequence < MAX_SEQUENCE
    ensures OneUp(s.keys, SealNextMessage(s, maxOut).next.keys)
  {
    hide StoredMessage, Serialize, SealRecord;
    var msg := s.flight[s.written];
    var previous := UsesPrevious(s.keys, msg);
    forall typ: ContentType, payload: seq<Byte> | previous || msg.epoch == s.keys.epoch
      ensures OneUp(s.keys, SealRecord(s.keys, previous, typ, payload, maxOut).0)
    {
      RecordCounts(s.keys, previous, typ, payload, maxOut);
    }
  }

  predicate OneUp(w: WriteState, n: WriteState) {
    && w.sequence <= n.sequence <= w.sequence + 1
    && w.lastSequence <= n.lastSequence <= w.lastSequence + 1
  }

  lemma RecordCounts(w: WriteState, previous: bool, typ: ContentType, payload: seq<Byte>, maxOut: nat)
    requires (previous ==> w.epoch >= 1) && w.sequence < MAX_SEQUENCE && w.lastSequence < MAX_SEQUENCE
    ensures OneUp(w, SealRecord(w, previous, typ, payload, maxOut).0)
  {
    hide SealedLen;
  }

  /** However a packet ends, its counters go up by at most one for each entry of the flight. */
  lemma {:induction false} PacketCounts(s: Sender, maxOut: nat)
    requires s.written <= |s.flight|
    requires s.keys.sequence + (|s.flight| - s.written) <= MAX_SEQUENCE
    requires s.keys.lastSequence + (|s.flight| - s.written) <= MAX_SEQUENCE
    ensures var n := SealFrom(s, maxOut).next.keys;
            && s.keys.sequence <= n.sequence <= s.keys.sequence + (|s.flight| - s.written)
            && s.keys.lastSequence <= n.lastSequence <= s.keys.lastSequence + (|s.flight| - s.written)
    decreases |s.flight| - s.written
  {
    hide SealNextMessage;
    if s.written < |s.flight| {
      StepCounts(s, maxOut);
      var m := SealNextMessage(s, maxOut);
      if m.status == SealSuccess {
        PacketCounts(m.next.(written := s.written + 1), maxOut - m.records[0].wireLen);
      }
    }
  }

  lemma CountersRise(sent: seq<Message>, l: Ledger, w: WriteState, next: WriteState, wire: set<Record>)
    requires WireTrue(sent, l, w, wire) && next.epoch == w.epoch
    requires w.sequence <= next.sequence && w.lastSequence <= next.lastSequence
    ensures WireTrue(sent, l, next, wire)
  {
    hide TrueRecord, InOrder;
  }

  function SentLedger(sys: D.System, l: Ledger, mtu: nat, accepted: bool): Ledger
    requires D.Typed(sys)
  {
    var p := SealFrom(sys.sender, mtu);
    if PacketOk(p) && accepted then Entered(l, |sys.sent|, p.records) else l
  }

  lemma PacketKeepsSending(sys: D.System, l: Ledger, packets: nat, mtu: nat, accepted: bool)
    requires Sending(sys, l, packets) && D.Typed(sys) && MAX_FLIGHT * (packets + 1) <= MAX_SEQUENCE
    ensures Sending(D.SendOne(sys, mtu, accepted), SentLedger(sys, l, mtu, accepted), packets + 1)
  {
    hide ValidAead, ValidPosition, SealFrom, FollowAll, FlightRecent, WireTrue, NumberedBetween, EpochsRise;
    var s := sys.sender;
    var p := SealFrom(s, mtu);
    PacketCounts(s, mtu);
    KeysKept(s, mtu);
    PacketFollows(s, mtu);
    PacketNumbered(s, mtu);
    CountersRise(sys.sent, l, s.keys, p.next.keys, sys.wire);
    if PacketOk(p) && accepted {
      PacketTrue(sys, l, packets, p.next.keys, p.records);
    }
  }

  lemma PacketKeepsTaking(sys: D.System, l: Ledger, packets: nat, mtu: nat, accepted: bool)
    requires Sending(sys, l, packets) && Taking(sys, l) && D.Typed(sys)
    ensures Taking(D.SendOne(sys, mtu, accepted), SentLedger(sys, l, mtu, accepted))
  {
    hide ValidAead, ValidPosition, SealFrom, FlightRecent, D.AllFromPeer, RingInv, SoundWindow, EpochsRise, Entered,
         WireTrue, NumberedBetween, Met;
    var p := SealFrom(sys.sender, mtu);
    if !PacketOk(p) || !accepted {
      SameTaking(sys, D.SendOne(sys, mtu, accepted), l);
    } else {
      PacketNumbered(sys.sender, mtu);
      var next := D.SendOne(sys, mtu, accepted);
      assert next == sys.(sender := p.next, wire := sys.wire + set r | r in p.records);
      forall j: nat | Met(sys.wire, l, sys.window, sys.receiver.epoch, j)
        ensures Met(next.wire, Entered(l, |sys.sent|, p.records), sys.window, sys.receiver.epoch, j)
      {
        MetKept(sys, l, packets, p.next.keys, p.records, j);
      }
    }
  }

  /** A record met before is not among the new ones, whose numbers are fresh. */
  lemma MetKept(sys: D.System, l: Ledger, packets: nat, next: WriteState, records: seq<Record>, j: nat)
    requires Sending(sys, l, packets) && NumberedBetween(sys.sender.keys, next, records)
    requires Met(sys.wire, l, sys.window, sys.receiver.epoch, j)
    ensures Met(sys.wire + (set r | r in records), Entered(l, |sys.sent|, records), sys.window, sys.receiver.epoch, j)
  {
    hide ValidAead, ValidPosition, FlightRecent, EpochsRise, Recent, OneFragment, StretchOf, D.FullNumber;
    var k := Entered(l, |sys.sent|, records);
    if l.epochs[j] == sys.receiver.epoch {
      var x :| x in sys.wire && x.typ == HandshakeData && x in l.origin && l.origin[x] == j
               && D.FullNumber(x) in sys.window.recorded;
      assert Below(sys.sender.keys, x);
      assert x !in records;
      assert k.origin[x] == j;
    }
  }

  lemma NewKeysKeepSending(sys: D.System, l: Ledger, packets: nat, aead: Aead)
    requires Sending(sys, l, packets) && ValidAead(aead) && sys.sender.keys.epoch + 1 < U16
    requires D.Typed(sys)
    ensures Sending(D.Step(sys, D.NewWriteKeys(aead)), l, packets)
  {
    hide ValidAead, ValidPosition, FlightRecent, TrueRecord, InOrder;
  }

  // Taking in.

  /** One fragment of the right message, taken. */
  lemma FragmentKeepsTaking(sys: D.System, l: Ledger, packets: nat, x: Record, maxLen: nat)
    requires Sending(sys, l, packets) && Taking(sys, l)
    requires x in sys.wire && x.typ == HandshakeData
    requires x.epoch == sys.receiver.epoch && !Discards(sys.window, D.FullNumber(x))
    ensures Taking(sys.(window := Note(sys.window, D.FullNumber(x)),
                        receiver := OpenRecord(sys.receiver, maxLen, x.payload).0), l)
  {
    hide ValidAead, ValidPosition, FlightRecent, EpochsRise, Discards, D.FullNumber, RingInv, D.AllFromPeer, StretchOf,
         Merge, InOrder;
    var r, d := sys.receiver, |sys.delivered|;
    assert TrueRecord(sys.sent, l, x);
    var p := ParseFragment(x.payload).value;
    var f := p.0;
    ParsedFits(x.payload);
    var n := AddFragment(r, maxLen, f).0;
    assert OpenRecord(n, maxLen, []).0 == n;
    assert OpenRecord(r, maxLen, x.payload).0 == n;
    OpenRecordKeepsRing(r, maxLen, x.payload);
    NotedMet(sys, l, x);
    if n != r {
      TakesTheRight(sys, l, packets, x, f);
      D.AddFragmentFromPeer(sys.sent[Base(d)..], r, maxLen, f);
      LookedNumber(r, f);
      MergeNumber(Looked(r, f), f, r.epoch);
    }
  }

  lemma LookedNumber(r: Receiver, f: Fragment)
    requires RingInv(r) && r.readSeq <= f.seqNo < r.readSeq + MAX_FLIGHT && f.seqNo < U16
    ensures Looked(r, f).seqNo == f.seqNo
  {
    if r.slots[Slot(f.seqNo)].Some? {
      SlotMatches(r, f.seqNo);
    }
  }

  lemma MergeNumber(m: Incoming, f: Fragment, epoch: nat)
    ensures Merge(m, f, epoch).seqNo == m.seqNo
  {
  }

  /** Noting a record keeps what has been met, and its own message is met. */
  lemma NotedMet(sys: D.System, l: Ledger, x: Record)
    requires SoundWindow(sys.window) && x in sys.wire && x.typ == HandshakeData && x in l.origin
    requires l.origin[x] < |l.epochs| && l.epochs[l.origin[x]] == sys.receiver.epoch
    ensures var w := Note(sys.window, D.FullNumber(x));
            && SoundWindow(w) && Met(sys.wire, l, w, sys.receiver.epoch, l.origin[x])
            && (forall j: nat | Met(sys.wire, l, sys.window, sys.receiver.epoch, j) ::
                  Met(sys.wire, l, w, sys.receiver.epoch, j))
  {
    hide D.FullNumber;
  }

  lemma NotedStill(sys: D.System, l: Ledger, number: nat)
    requires SoundWindow(sys.window)
    ensures var w := Note(sys.window, number);
            && SoundWindow(w)
            && (forall j: nat | Met(sys.wire, l, sys.window, sys.receiver.epoch, j) ::
                  Met(sys.wire, l, w, sys.receiver.epoch, j))
  {
  }

  lemma ArrivalKeepsTaking(sys: D.System, l: Ledger, packets: nat, x: Record, maxLen: nat)
    requires Sending(sys, l, packets) && Taking(sys, l) && D.Typed(sys) && x in sys.wire
    ensures Taking(D.Arrival(sys, x, maxLen), l)
  {
    hide Sending, Discards, D.FullNumber, RingInv, D.AllFromPeer, SoundWindow, Met, OpenRecord;
    if D.Admitted(sys, x) {
      if x.typ == HandshakeData {
        FragmentKeepsTaking(sys, l, packets, x, maxLen);
      } else {
        NotedStill(sys, l, D.FullNumber(x));
        D.RingIgnoresCcs(sys.sent[Base(|sys.delivered|)..], sys.receiver, true);
      }
    }
  }

  lemma ReleaseKeepsTaking(sys: D.System, l: Ledger)
    requires Taking(sys, l) && |l.epochs| == |sys.sent|
    requires sys.receiver.hasMessage && CurrentComplete(sys.receiver) && D.Typed(sys)
    ensures Taking(D.Step(sys, D.ReleaseMessage), l)
  {
    hide D.AllFromPeer, RingInv, SoundWindow, Met;
    var d, r := |sys.delivered|, sys.receiver;
    NextMessageKeepsRing(r);
    D.ReleasedIsNext(sys.sent[Base(d)..], r);
    CurrentNumber(r);
    assert Met(sys.wire, l, sys.window, r.epoch, Base(d) + r.slots[Slot(r.readSeq)].value.seqNo);
    var next := D.Step(sys, D.ReleaseMessage);
    NextNumber(d);
    NextBase(d);
    assert sys.sent[..d] + [sys.sent[d]] == sys.sent[..d + 1];
    if d % U16 == U16 - 1 {
      NothingFromPeer(next.sent[Base(d + 1)..], next.receiver);
    } else {
      FreedFromPeer(sys.sent[Base(d)..], r);
    }
  }

  lemma CurrentNumber(r: Receiver)
    requires RingInv(r) && CurrentComplete(r)
    ensures r.slots[Slot(r.readSeq)].value.seqNo == r.readSeq
  {
    SlotMatches(r, r.readSeq);
  }

  lemma NextBase(d: nat)
    ensures Base(d + 1) == if d % U16 == U16 - 1 then d + 1 else Base(d)
  {
  }

  lemma NothingFromPeer(sent: seq<Message>, r: Receiver)
    requires r.slots == NO_MESSAGES
    ensures D.AllFromPeer(sent, r)
  {
  }

  lemma FreedFromPeer(sent: seq<Message>, r: Receiver)
    requires D.AllFromPeer(sent, r)
    ensures D.AllFromPeer(sent, NextMessage(r))
  {
    hide D.FromPeer;
  }

  lemma NewKeysKeepTaking(sys: D.System, l: Ledger)
    requires Taking(sys, l) && sys.receiver.epoch + 1 < U16 && D.Typed(sys)
    ensures Taking(D.Step(sys, D.NewReadKeys), l)
  {
    hide D.AllFromPeer, RingInv, HasUnprocessed, Met, SoundWindow;
    SetReadStateKeepsRing(sys.receiver);
    if SetReadState(sys.receiver).Some? {
      var n := SetReadState(sys.receiver).value;
      SameSlots(sys.sent[Base(|sys.delivered|)..], sys.receiver, n);
      forall j: nat | Met(sys.wire, l, sys.window, sys.receiver.epoch, j)
        ensures Met(sys.wire, l, FRESH_WINDOW, n.epoch, j)
      {
        EpochOver(sys, l, j);
      }
      assert SoundWindow(FRESH_WINDOW) by { FreshIsSound(); }
    }
  }

  lemma FreshIsSound()
    ensures SoundWindow(FRESH_WINDOW)
  {
  }

  lemma EpochOver(sys: D.System, l: Ledger, j: nat)
    requires Met(sys.wire, l, sys.window, sys.receiver.epoch, j)
    ensures Met(sys.wire, l, FRESH_WINDOW, sys.receiver.epoch + 1, j)
  {
  }

  lemma SameSlots(sent: seq<Message>, r: Receiver, n: Receiver)
    requires D.AllFromPeer(sent, r) && n.slots == r.slots
    ensures D.AllFromPeer(sent, n)
  {
  }

  // Runs.

  function NextLedger(sys: D.System, l: Ledger, e: D.Event): Ledger
    requires D.Typed(sys)
  {
    match e
    case AddHandshake(m) =>
      if AddMessage(sys.sender, m).Some? then l.(epochs := l.epochs + [sys.sender.keys.epoch]) else l
    case SendPacket(mtu, accepted) => SentLedger(sys, l, mtu, accepted)
    case _ => l
  }

  /** Every step of a paced run keeps the invariant. */
  lemma StepKeepsInv(sys: D.System, l: Ledger, e: D.Event, messages: nat, c: Counts)
    requires Inv(sys, l, c) && Bounded(Plus(c, CountOne(e)))
    requires D.Typed(sys) && D.Possible(sys, e, messages) && (e.ReleaseMessage? ==> CurrentComplete(sys.receiver))
    requires e.AddHandshake? ==> |sys.sent| < |sys.delivered| + U16
    ensures Inv(D.Step(sys, e), NextLedger(sys, l, e), Plus(c, CountOne(e)))
  {
    hide RingInv, D.AllFromPeer, SoundWindow, AllMet, ValidAead, FlightRecent, WireTrue, EpochsRise, OpenRecord,
         SealFrom, Entered, ValidPosition;
    match e
    case AddHandshake(m) =>
      if AddMessage(sys.sender, m).Some? {
        AddKeepsSending(sys, l, c.packets, m);
        AddKeepsTaking(sys, l, m);
      }
    case AddChangeCipherSpec =>
      if AddOutgoing(sys.sender, true, []).Some? {
        CcsKeepsSending(sys, l, c.packets);
        SameTaking(sys, D.Step(sys, e), l);
      }
    case FinishFlight => SameTaking(sys, D.Step(sys, e), l);
    case SendPacket(mtu, accepted) =>
      PacketKeepsSending(sys, l, c.packets, mtu, accepted);
      PacketKeepsTaking(sys, l, c.packets, mtu, accepted);
      KeysKept(sys.sender, mtu);
    case Retransmit =>
      SameTaking(sys, D.Step(sys, e), l);
      Rewound(sys.sender);
    case NewWriteKeys(aead) =>
      NewKeysKeepSending(sys, l, c.packets, aead);
      SameTaking(sys, D.Step(sys, e), l);
    case Arrive(record, maxLen) =>
      ArrivalKeepsTaking(sys, l, c.packets, record, maxLen);
      SameSending(sys, D.Step(sys, e), l, c.packets);
    case TakeChangeCipherSpec =>
      D.RingIgnoresCcs(sys.sent[Base(|sys.delivered|)..], sys.receiver, false);
      SameMet(sys, D.Step(sys, e), l);
    case GetMessageOut =>
      StepKeepsRing(sys.receiver, Get);
      SameSlots(sys.sent[Base(|sys.delivered|)..], sys.receiver, GetMessage(sys.receiver));
      SameMet(sys, D.Step(sys, e), l);
    case ReleaseMessage => ReleaseKeepsTaking(sys, l);
    case NewReadKeys => NewKeysKeepTaking(sys, l);
  }

  lemma Rewound(s: Sender)
    ensures ValidPosition(s.flight, Position(0, 0))
  {
  }

  lemma SameMet(sys: D.System, next: D.System, l: Ledger)
    requires AllMet(sys, l)
    requires next == sys.(receiver := sys.receiver.(hasMessage := next.receiver.hasMessage,
                                                    hasCcs := next.receiver.hasCcs))
    ensures AllMet(next, l)
  {
    hide Met;
  }

  lemma SameTaking(sys: D.System, next: D.System, l: Ledger)
    requires Taking(sys, l) && next == sys.(sender := next.sender)
    ensures Taking(next, l)
  {
    hide RingInv, D.AllFromPeer, SoundWindow, Met;
  }

  lemma SameSending(sys: D.System, next: D.System, l: Ledger, packets: nat)
    requires Sending(sys, l, packets) && next.sender == sys.sender && next.sent == sys.sent && next.wire == sys.wire
    ensures Sending(next, l, packets)
  {
    hide FlightRecent, WireTrue, EpochsRise, ValidAead;
  }

  lemma {:induction false} RunKeepsInv(sys: D.System, l: Ledger, events: seq<D.Event>, p: Pace, c: Counts)
    requires Inv(sys, l, c) && PacedRun(sys, events, p) && (p.messages <= U16 || p.lead <= U16)
    requires Bounded(Plus(c, CountsOf(events)))
    ensures var end := D.Final(sys, events, p.messages); end.delivered <= end.sent
    decreases |events|
  {
    hide D.Step, D.Typed, Sending, AllMet, D.AllFromPeer, RingInv, SoundWindow, NextLedger;
    if events != [] {
      var e := events[0];
      PlusMoves(c, CountOne(e), CountsOf(events[1..]));
      StepKeepsInv(sys, l, e, p.messages, c);
      RunKeepsInv(D.Step(sys, e), NextLedger(sys, l, e), events[1..], p, Plus(c, CountOne(e)));
    }
  }

  lemma PlusMoves(a: Counts, b: Counts, c: Counts)
    ensures Plus(a, Plus(b, c)) == Plus(Plus(a, b), c)
    ensures Bounded(Plus(a, Plus(b, c))) ==> Bounded(Plus(a, b))
  {
  }

  /** For any number of messages: what is handed out is a prefix of what was sent, if the sender is never
      more than 2^16 messages ahead, neither epoch wraps, and there are record numbers for all packets. */
  lemma PacedDelivery(aead: Aead, events: seq<D.Event>, p: Pace)
    requires ValidAead(aead) && PacedRun(D.Start(aead), events, p) && (p.messages <= U16 || p.lead <= U16)
    requires Bounded(CountsOf(events))
    ensures var end := D.Final(D.Start(aead), events, p.messages); end.delivered <= end.sent
  {
    hide Inv, KeepsPace, D.Step, D.Start, CountsOf, D.IsRun, D.Final, Bounded;
    StartInv(aead);
    assert Plus(ZERO, CountsOf(events)) == CountsOf(events);
    RunKeepsInv(D.Start(aead), Ledger([], map[]), events, p, ZERO);
  }
}
