/** Which records may arrive in any order: those within 64 of each other. So a flight of at most 64 records
    is assembled whatever their order, and one of 65 is not when it arrives backwards. */
module DtlsAnyOrder {
  import opened Common
  import opened DtlsFragment
  import opened DtlsReceive
  import opened DtlsRing
  import opened DtlsRecords
  import opened DtlsFlight
  import opened DtlsCoverage
  import opened DtlsReady
  import opened DtlsCutOff
  import opened DtlsRecordLayer
  import opened DtlsProgress
  import opened DtlsAssembly
  import D = DtlsDelivery

  /** Of the records of the read epoch, the window lets all through at the start, and none is 64 or more
      ahead of another. */
  predicate WithinWindow(w: Window, epoch: nat, arrived: seq<Record>) {
    && (forall k: nat | k < |arrived| && arrived[k].epoch == epoch :: Admits(w, epoch, arrived[k]))
    && (forall j: nat, k: nat | j < |arrived| && k < |arrived| && arrived[j].epoch == arrived[k].epoch == epoch ::
          D.FullNumber(arrived[j]) < D.FullNumber(arrived[k]) + WINDOW_SIZE)
  }

  /** Records of the epoch are told apart by their numbers. */
  predicate ToldApart(epoch: nat, arrived: seq<Record>) {
    forall j: nat, k: nat | j < |arrived| && k < |arrived| && arrived[j].epoch == arrived[k].epoch == epoch ::
      D.FullNumber(arrived[j]) == D.FullNumber(arrived[k]) ==> arrived[j] == arrived[k]
  }

  function FirstOf(arrived: seq<Record>, x: Record): (k: nat)
    requires x in arrived
    ensures k < |arrived| && arrived[k] == x && forall j: nat | j < k :: arrived[j] != x
  {
    if arrived[0] == x then 0 else 1 + FirstOf(arrived[1..], x)
  }

  /** Within the window, every record is admitted when it first arrives, whatever the order. */
  lemma AnyOrderAdmits(w: Window, epoch: nat, arrived: seq<Record>, x: Record)
    requires WithinWindow(w, epoch, arrived) && ToldApart(epoch, arrived) && x in arrived && x.epoch == epoch
    ensures SomeAdmitted(w, epoch, arrived, Being(x))
  {
    hide D.FullNumber, Admits;
    var k := FirstOf(arrived, x);
    assert Admitted(w, epoch, arrived, k);
  }

  predicate AllAdmitted(w: Window, epoch: nat, arrived: seq<Record>) {
    forall k: nat | k < |arrived| :: Admitted(w, epoch, arrived, k)
  }

  /** All records are admitted in every order exactly if none is 64 or more ahead of another. */
  lemma AnyOrderExactly(w: Window, epoch: nat, records: seq<Record>)
    requires forall k: nat | k < |records| :: Admits(w, epoch, records[k])
    requires forall j: nat, k: nat | j < k < |records| :: D.FullNumber(records[j]) != D.FullNumber(records[k])
    ensures (forall arrived: seq<Record> | multiset(arrived) == multiset(records) :: AllAdmitted(w, epoch, arrived))
            <==> WithinWindow(w, epoch, records)
  {
    hide D.FullNumber, Admits, AllAdmitted;
    if WithinWindow(w, epoch, records) {
      forall arrived: seq<Record> | multiset(arrived) == multiset(records)
        ensures AllAdmitted(w, epoch, arrived)
      {
        AllReordered(w, epoch, records, arrived);
      }
    } else {
      var j: nat, k: nat :| j < |records| && k < |records| && j != k
                            && D.FullNumber(records[j]) >= D.FullNumber(records[k]) + WINDOW_SIZE;
      if j < k {
        FallsOut(w, epoch, records, j, k);
      } else {
        var arrived := records[j := records[k]][k := records[j]];
        assert multiset(arrived) == multiset(records);
        FallsOut(w, epoch, arrived, k, j);
      }
    }
  }

  lemma FallsOut(w: Window, epoch: nat, arrived: seq<Record>, j: nat, k: nat)
    requires j < k < |arrived| && Admits(w, epoch, arrived[j])
    requires D.FullNumber(arrived[j]) >= D.FullNumber(arrived[k]) + WINDOW_SIZE
    ensures !AllAdmitted(w, epoch, arrived)
  {
    hide D.FullNumber;
    assert !Admitted(w, epoch, arrived, k);
  }

  lemma AllReordered(w: Window, epoch: nat, records: seq<Record>, arrived: seq<Record>)
    requires (forall i: nat | i < |records| :: Admits(w, epoch, records[i])) && WithinWindow(w, epoch, records)
    requires forall i: nat, j: nat | i < j < |records| :: D.FullNumber(records[i]) != D.FullNumber(records[j])
    requires multiset(arrived) == multiset(records)
    ensures AllAdmitted(w, epoch, arrived)
  {
    hide D.FullNumber, Admits, Admitted, WithinWindow;
    forall k: nat | k < |arrived|
      ensures Admitted(w, epoch, arrived, k)
    {
      Reordered(w, epoch, records, arrived, k);
    }
  }

  function EpochOf(w: Window, epoch: nat, x: Record): (e: nat)
    requires Admits(w, epoch, x)
    ensures e == x.epoch == epoch
  {
    x.epoch
  }

  /** A reordering of records told apart and within the window. */
  lemma Reordered(w: Window, epoch: nat, records: seq<Record>, arrived: seq<Record>, k: nat)
    requires (forall i: nat | i < |records| :: Admits(w, epoch, records[i])) && WithinWindow(w, epoch, records)
    requires forall i: nat, j: nat | i < j < |records| :: D.FullNumber(records[i]) != D.FullNumber(records[j])
    requires multiset(arrived) == multiset(records) && k < |arrived|
    ensures Admitted(w, epoch, arrived, k)
  {
    hide D.FullNumber, Admits;
    assert arrived[k] in multiset(records);
    var b := FirstOf(records, arrived[k]);
    forall j: nat | j < k
      ensures D.FullNumber(arrived[j]) != D.FullNumber(arrived[k])
      ensures D.FullNumber(arrived[j]) < D.FullNumber(arrived[k]) + WINDOW_SIZE
    {
      assert arrived[j] in multiset(records);
      var a := FirstOf(records, arrived[j]);
      if a == b {
        TwiceIn(arrived, j, k);
        OnceIn(records, arrived[k]);
      }
      assert EpochOf(w, epoch, records[a]) == EpochOf(w, epoch, records[b]) == epoch;
    }
  }

  lemma TwiceIn(arrived: seq<Record>, j: nat, k: nat)
    requires j < k < |arrived| && arrived[j] == arrived[k]
    ensures multiset(arrived)[arrived[k]] >= 2
  {
    assert arrived == arrived[..k] + arrived[k..];
    assert arrived[..k][j] in arrived[..k] && arrived[k..][0] in arrived[k..];
  }

  lemma {:induction false} OnceIn(records: seq<Record>, x: Record)
    requires forall i: nat, j: nat | i < j < |records| :: D.FullNumber(records[i]) != D.FullNumber(records[j])
    ensures multiset(records)[x] <= 1
  {
    hide D.FullNumber;
    if records != [] {
      assert records == [records[0]] + records[1..];
      OnceIn(records[1..], x);
      assert x == records[0] ==> x !in records[1..];
    }
  }

  // The numbers one call gives out.

  function Counter(w: WriteState, epoch: nat): nat {
    if epoch == w.epoch then w.sequence else w.lastSequence
  }

  /** The records are numbered, each differently, from where the counters stood to where they stand. */
  ghost predicate NumberedBetween(w: WriteState, n: WriteState, records: seq<Record>) {
    && n.epoch == w.epoch && w.sequence <= n.sequence && w.lastSequence <= n.lastSequence
    && (forall x | x in records ::
          (x.epoch == w.epoch || x.epoch + 1 == w.epoch) && Counter(w, x.epoch) <= x.number < Counter(n, x.epoch))
    && (forall x, y | x in records && y in records && x.epoch == y.epoch && x.number == y.number :: x == y)
  }

  lemma NumberedJoins(a: WriteState, b: WriteState, c: WriteState, xs: seq<Record>, ys: seq<Record>)
    requires NumberedBetween(a, b, xs) && NumberedBetween(b, c, ys)
    ensures NumberedBetween(a, c, xs + ys)
  {
  }

  lemma RecordNumbered(w: WriteState, previous: bool, typ: ContentType, payload: seq<Byte>, maxOut: nat)
    requires previous ==> w.epoch >= 1
    ensures var (n, r) := SealRecord(w, previous, typ, payload, maxOut);
            r.Some? ==> NumberedBetween(w, n, [r.value])
  {
    hide SealedLen;
  }

  lemma StepNumbered(s: Sender, maxOut: nat)
    requires s.written < |s.flight|
    ensures var m := SealNextMessage(s, maxOut);
            m.status != SealError ==> NumberedBetween(s.keys, m.next.keys, m.records)
  {
    hide StoredMessage, SealRecord, Serialize, NumberedBetween;
    var msg := s.flight[s.written];
    var previous := UsesPrevious(s.keys, msg);
    NothingNumbered(s.keys);
    if msg.isCcs {
      if previous || msg.epoch == s.keys.epoch {
        RecordNumbered(s.keys, previous, ChangeCipherSpec, CCS_PAYLOAD, maxOut);
      }
    } else if StoredMessage(msg.data).Some? && (previous || msg.epoch == s.keys.epoch) {
      var whole := StoredMessage(msg.data).value;
      var overhead := RT_HEADER_LENGTH + UsedAead(s.keys, previous).maxOverhead;
      if s.offset <= |whole.body| && maxOut >= HM_HEADER_LENGTH + 1 + overhead {
        var payload := Serialize(NextFragment(whole, s.offset, Todo(s, previous, whole, maxOut)));
        RecordNumbered(s.keys, previous, HandshakeData, payload, maxOut);
      }
    }
  }

  lemma NothingNumbered(w: WriteState)
    ensures NumberedBetween(w, w, [])
  {
  }

  lemma {:induction false} PacketNumbered(s: Sender, maxOut: nat)
    requires s.written <= |s.flight|
    ensures var p := SealFrom(s, maxOut);
            p.stop != Stop.Failed ==> NumberedBetween(s.keys, p.next.keys, p.records)
    decreases |s.flight| - s.written
  {
    hide SealNextMessage, NumberedBetween;
    if s.written < |s.flight| {
      StepNumbered(s, maxOut);
      var m := SealNextMessage(s, maxOut);
      if m.status == SealSuccess {
        var rest := SealFrom(Moved(s, m), maxOut - m.records[0].wireLen);
        PacketNumbered(Moved(s, m), maxOut - m.records[0].wireLen);
        if rest.stop != Stop.Failed {
          NumberedJoins(s.keys, m.next.keys, rest.next.keys, m.records, rest.records);
        }
      }
    } else {
      NothingNumbered(s.keys);
    }
  }

  lemma {:induction false} CallNumbered(s: Sender, mtu: nat, answers: seq<int>)
    requires s.written <= |s.flight|
    ensures var o := SendLoop(s, mtu, answers);
            o.result > 0 ==> NumberedBetween(s.keys, o.next.keys, Flatten(o.sent))
    decreases |answers|
  {
    hide SealFrom, NumberedBetween;
    if s.written < |s.flight| {
      PacketNumbered(s, mtu);
      var p := SealFrom(s, mtu);
      if PacketOk(p) && answers != [] && answers[0] > 0 {
        CallNumbered(p.next, mtu, answers[1..]);
        var o := SendLoop(p.next, mtu, answers[1..]);
        assert ([p.records] + o.sent)[1..] == o.sent;
        if o.result > 0 {
          NumberedJoins(s.keys, p.next.keys, o.next.keys, p.records, Flatten(o.sent));
        }
      }
    } else {
      NothingNumbered(s.keys);
    }
  }

  /** Records of a flight are of the peer, and each is sealed in the epoch of the message it names. */
  lemma {:induction false} FollowedOfPeer(sent: seq<Message>, flight: seq<Outgoing>, pos: Position,
                                          records: seq<Record>, k: nat)
    requires forall i: nat | i < |flight| :: D.FromHistory(sent, flight[i])
    requires NumberedApart(flight) && IsMessage(flight, k) && FollowAll(flight, pos, records).Some?
    ensures forall x | x in records :: OfPeer(sent, x)
    ensures forall x | x in records && Names(x, MessageAt(flight, k).seqNo) :: x.epoch == flight[k].epoch
    decreases |records|
  {
    hide D.FromHistory, Follow, OfPeer, Names, NumberedApart, IsMessage;
    if records != [] {
      OneOfPeer(sent, flight, pos, records[0], k);
      FollowedOfPeer(sent, flight, Follow(flight, pos, records[0]).value, records[1..], k);
    }
  }

  lemma OneOfPeer(sent: seq<Message>, flight: seq<Outgoing>, pos: Position, x: Record, k: nat)
    requires forall i: nat | i < |flight| :: D.FromHistory(sent, flight[i])
    requires NumberedApart(flight) && IsMessage(flight, k) && Follow(flight, pos, x).Some?
    ensures OfPeer(sent, x)
    ensures Names(x, MessageAt(flight, k).seqNo) ==> x.epoch == flight[k].epoch
  {
    hide OneFragment, StoredMessage, D.FromHistory, D.GenuineRecord;
    D.FollowedIsGenuine(sent, flight, pos, x);
    if !flight[pos.index].isCcs {
      assert IsMessage(flight, pos.index);
    }
  }

  lemma NumbersApart(x: Record, y: Record)
    requires x.epoch == y.epoch
    ensures D.FullNumber(x) - D.FullNumber(y) == x.number - y.number
  {
  }

  /** One call sends a flight, using at most 64 numbers of the epoch being read, and its records arrive in
      any order, repeated or not: every message of that epoch which the receiver wants and all of whose
      records are among them is complete, unless a fatal record among them ends reading. */
  lemma ShortFlightAssembles(sent: seq<Message>, s: Received, maxLen: nat, t: Sender, mtu: nat, answers: seq<int>,
                             arrived: seq<Record>, k: nat)
    requires Receiving(sent, s) && WellFormedSender(t) && PositionOf(t) == Position(0, 0) && NumberedApart(t.flight)
    requires forall j: nat | j < |t.flight| :: D.FromHistory(sent, t.flight[j])
    requires IsMessage(t.flight, k) && Wanted(s.receiver, MessageAt(t.flight, k).seqNo)
    requires t.flight[k].epoch == s.receiver.epoch
    requires var o := SendLoop(t, mtu, answers);
             && Counter(o.next.keys, s.receiver.epoch) <= Counter(t.keys, s.receiver.epoch) + WINDOW_SIZE
             && (forall x | x in arrived :: x in Flatten(o.sent))
             && (forall x | x in Flatten(o.sent) && x.epoch == s.receiver.epoch ::
                   Admits(s.window, s.receiver.epoch, x))
             && (forall x | x in Flatten(o.sent) && Names(x, MessageAt(t.flight, k).seqNo) :: x in arrived)
    ensures var r, n := s.receiver, ReceiveAll(s, maxLen, arrived);
            SendLoop(t, mtu, answers).result > 0 ==>
              && (n.reading.shutdown == Going <==> !SomeAdmitted(s.window, r.epoch, arrived, Ending(r, maxLen)))
              && (n.reading.shutdown == Going ==> Assembled(n.receiver, MessageAt(t.flight, k).seqNo))
  {
    hide SendLoop, D.FullNumber, D.FromHistory, D.AllFromPeer, RingInv, OfPeer, Names, IsMessage, Wanted, ValidAead,
         SomeAdmitted, Assembled, Admits, SoundWindow, Ending;
    var o := SendLoop(t, mtu, answers);
    if o.result > 0 {
      var records, epoch := Flatten(o.sent), s.receiver.epoch;
      SuccessDropsNothing(t, mtu, answers);
      SendLoopFollows(t, mtu, answers);
      FollowedOfPeer(sent, t.flight, Position(0, 0), records, k);
      CallNumbered(t, mtu, answers);
      ShortIsWithin(s.window, epoch, t.keys, o.next.keys, records, arrived);
      forall x | x in records && Names(x, MessageAt(t.flight, k).seqNo)
        ensures SomeAdmitted(s.window, epoch, arrived, Being(x))
      {
        AnyOrderAdmits(s.window, epoch, arrived, x);
      }
      FlightAssembles(sent, s, maxLen, t.flight, records, arrived, k);
    }
  }

  lemma ShortIsWithin(w: Window, epoch: nat, keys: WriteState, next: WriteState, records: seq<Record>,
                      arrived: seq<Record>)
    requires NumberedBetween(keys, next, records) && Counter(next, epoch) <= Counter(keys, epoch) + WINDOW_SIZE
    requires forall x | x in arrived :: x in records
    requires forall x | x in records && x.epoch == epoch :: Admits(w, epoch, x)
    ensures WithinWindow(w, epoch, arrived) && ToldApart(epoch, arrived)
  {
    hide D.FullNumber, Admits;
    forall j: nat, k: nat | j < |arrived| && k < |arrived| && arrived[j].epoch == arrived[k].epoch == epoch
      ensures D.FullNumber(arrived[j]) < D.FullNumber(arrived[k]) + WINDOW_SIZE
      ensures D.FullNumber(arrived[j]) == D.FullNumber(arrived[k]) ==> arrived[j] == arrived[k]
    {
      assert arrived[j] in arrived && arrived[k] in arrived;
      NumbersApart(arrived[j], arrived[k]);
    }
    forall k: nat | k < |arrived| && arrived[k].epoch == epoch
      ensures Admits(w, epoch, arrived[k])
    {
      assert arrived[k] in arrived;
    }
  }

  // One record more.

  const COUNT: nat := WINDOW_SIZE + 1
  const SMALL_MTU: nat := RT_HEADER_LENGTH + HM_HEADER_LENGTH + 1

  /** A message of 65 bytes. */
  function LongestYet(): (m: Message)
    ensures |m.body| == COUNT
  {
    Message(1, seq(COUNT, i => 7))
  }

  /** The message is being sent in fragments of one byte, `i` of which have been sealed. */
  function Sealing(i: nat): (s: Sender)
    ensures s.written <= |s.flight|
  {
    Sender([Outgoing(Serialize(WholeMessage(LongestYet(), 0)), 0, false)], if i < COUNT then 0 else 1,
           if i < COUNT then i else 0, true, 1, WriteState(0, i % (MAX_SEQUENCE + 1), 0, PLAIN, PLAIN))
  }

  function Piece(i: nat): Record
    requires i < COUNT
  {
    Record(HandshakeData, 0, i, Serialize(NextFragment(WholeMessage(LongestYet(), 0), i, 1)), SMALL_MTU)
  }

  lemma PieceIs(i: nat)
    requires i < COUNT
    ensures OneFragment(Piece(i).payload) == Some(NextFragment(WholeMessage(LongestYet(), 0), i, 1))
    ensures |Piece(i).payload| == HM_HEADER_LENGTH + 1
    ensures StoredMessage(Serialize(WholeMessage(LongestYet(), 0))) == Some(WholeMessage(LongestYet(), 0))
  {
    hide OneFragment, LongestYet;
    OneFragmentOf(NextFragment(WholeMessage(LongestYet(), 0), i, 1));
    OneFragmentOf(WholeMessage(LongestYet(), 0));
  }

  lemma SealsPiece(i: nat)
    requires i < COUNT
    ensures SealFrom(Sealing(i), SMALL_MTU) ==
            Packet(Sealing(i + 1), [Piece(i)], if i + 1 < COUNT then Stop.Full else Stop.Done)
  {
    hide OneFragment, LongestYet, Serialize, SealFrom, StoredMessage;
    PieceIs(i);
    LengthOfPiece(i);
    OneMore(Sealing(i), SMALL_MTU);
    if i + 1 == COUNT {
      NoneLeft(Sealing(COUNT), 0);
      assert [Piece(i)] + [] == [Piece(i)];
    }
  }

  lemma LengthOfPiece(i: nat)
    requires i < COUNT
    ensures |Serialize(NextFragment(WholeMessage(LongestYet(), 0), i, 1))| == HM_HEADER_LENGTH + 1
  {
  }

  function Pieces(i: nat): (rs: seq<Record>)
    requires i <= COUNT
    ensures |rs| == COUNT - i && forall j: nat | j < COUNT - i :: rs[j] == Piece(i + j)
  {
    seq(COUNT - i, j requires 0 <= j < COUNT - i => Piece(i + j))
  }

  lemma Splits(i: nat)
    requires i < COUNT
    ensures Pieces(i) == [Piece(i)] + Pieces(i + 1) && Accepts(COUNT - i)[1..] == Accepts(COUNT - (i + 1))
  {
    hide Piece;
  }

  lemma OneDatagram(s: Sender, next: Sender, x: Record, stop: Stop, answers: seq<int>)
    requires s.written < |s.flight| && next.written <= |next.flight| && stop != Stop.Failed
    requires SealFrom(s, SMALL_MTU) == Packet(next, [x], stop) && answers != [] && answers[0] > 0
    ensures var o := SendLoop(next, SMALL_MTU, answers[1..]);
            && SendLoop(s, SMALL_MTU, answers).result == o.result
            && Flatten(SendLoop(s, SMALL_MTU, answers).sent) == [x] + Flatten(o.sent)
  {
    hide SealFrom;
    var o := SendLoop(next, SMALL_MTU, answers[1..]);
    assert ([[x]] + o.sent)[1..] == o.sent;
  }

  /** Sent in full, one record to a datagram. */
  lemma {:induction false} SendsPieces(i: nat)
    requires i <= COUNT
    ensures var o := SendLoop(Sealing(i), SMALL_MTU, Accepts(COUNT - i)); o.result == 1 && Flatten(o.sent) == Pieces(i)
    decreases COUNT - i
  {
    hide SealFrom, Serialize, LongestYet, Piece, SendLoop, Flatten, Pieces, Accepts;
    if i < COUNT {
      SealsPiece(i);
      SendsPieces(i + 1);
      Splits(i);
      OneDatagram(Sealing(i), Sealing(i + 1), Piece(i), if i + 1 < COUNT then Stop.Full else Stop.Done,
                  Accepts(COUNT - i));
    } else {
      NothingSent();
    }
  }

  lemma NothingSent()
    ensures var o := SendLoop(Sealing(COUNT), SMALL_MTU, Accepts(0)); o.result == 1 && Flatten(o.sent) == Pieces(COUNT)
  {
    hide SealFrom, Serialize, LongestYet;
  }

  function Backwards(): (rs: seq<Record>)
    ensures |rs| == COUNT && forall j: nat | j < COUNT :: rs[j] == Piece(COUNT - 1 - j)
  {
    seq(COUNT, j requires 0 <= j < COUNT => Piece(COUNT - 1 - j))
  }

  const START: Received := Received(FRESH_WINDOW, INITIAL, FRESH_READING, Discard)

  /** The 65 records of a flight that has been sent in full arrive, the last one first: reading survives, but
      the first record has fallen out of the window, and the message begun is not complete. */
  lemma OneTooMany()
    ensures var o := SendLoop(Sealing(0), SMALL_MTU, Accepts(COUNT));
            o.result == 1 && forall x :: x in Backwards() <==> x in Flatten(o.sent)
    ensures var n := ReceiveAll(START, 100, Backwards());
            n.reading.shutdown == Going && Begun(n.receiver, 0) && !Assembled(n.receiver, 0)
  {
    hide SendLoop, ReceiveAll, Serialize, LongestYet, Piece, Assembled, SomeAdmitted, Holds, Begun, OfPeer, Sealing,
         Pieces, Accepts, Backwards;
    SendsPieces(0);
    SamePieces();
    PiecesOfPeer();
    NoneFatal();
    FirstNotAdmitted();
    LastAdmitted();
    NothingHeld();
    AssembledExactly([LongestYet()], START, 100, Backwards(), 0);
    HeldExactly([LongestYet()], START, 100, Backwards(), 0, 0);
  }

  lemma NothingHeld()
    ensures Receiving([LongestYet()], START) && Wanted(INITIAL, 0) && !Holds(INITIAL, 0, 0)
  {
  }

  lemma SamePieces()
    ensures forall x :: x in Backwards() <==> x in Pieces(0)
  {
    hide Piece;
    forall x
      ensures x in Backwards() <==> x in Pieces(0)
    {
      if x in Backwards() {
        var j: nat :| j < COUNT && Backwards()[j] == x;
        assert Pieces(0)[COUNT - 1 - j] == x;
      }
      if x in Pieces(0) {
        var j: nat :| j < COUNT && Pieces(0)[j] == x;
        assert Backwards()[COUNT - 1 - j] == x;
      }
    }
  }

  lemma PiecesOfPeer()
    ensures forall x | x in Backwards() :: OfPeer([LongestYet()], x)
  {
    hide OneFragment, LongestYet, Serialize;
    forall j: nat | j < COUNT
      ensures OfPeer([LongestYet()], Piece(j))
    {
      PieceIs(j);
    }
  }

  lemma NoneFatal()
    ensures !SomeAdmitted(FRESH_WINDOW, 0, Backwards(), Ending(INITIAL, 100))
  {
    hide OneFragment, LongestYet, Serialize, Admitted;
    forall j: nat | j < COUNT
      ensures !Fatal(INITIAL, 100, Piece(j))
    {
      PieceIs(j);
    }
  }

  lemma FirstNotAdmitted()
    ensures !SomeAdmitted(FRESH_WINDOW, 0, Backwards(), Carrying(0, 0))
  {
    hide OneFragment, LongestYet, Serialize;
    forall j: nat | j < COUNT
      ensures CarriesByte(Piece(j), 0, 0) ==> j == 0
    {
      PieceIs(j);
    }
    assert Backwards()[0] == Piece(COUNT - 1) && Backwards()[COUNT - 1] == Piece(0);
    assert D.FullNumber(Piece(COUNT - 1)) == D.FullNumber(Piece(0)) + WINDOW_SIZE;
    assert !Admitted(FRESH_WINDOW, 0, Backwards(), COUNT - 1);
  }

  lemma LastAdmitted()
    ensures SomeAdmitted(FRESH_WINDOW, 0, Backwards(), Naming(0))
  {
    hide OneFragment, LongestYet, Serialize;
    PieceIs(COUNT - 1);
    assert Admitted(FRESH_WINDOW, 0, Backwards(), 0) && Naming(0)(Backwards()[0]);
  }
}
