/** What sending a flight carries. One successful call carries every byte once. Over several calls nothing
    is lost, and sending completes, if as many record numbers are left as there are bytes and messages to
    send. */
module DtlsReady {
  import opened Common
  import opened DtlsFragment
  import opened DtlsReceive
  import opened DtlsRecords
  import opened DtlsFlight
  import opened DtlsCoverage

  /** The largest datagram none of whose records outgrows its 16-bit length. */
  const MAX_MTU: nat := U16 - 1 + RT_HEADER_LENGTH

  /** How much plaintext the longest record of a message carries, MTU permitting. */
  function PlainLength(msg: Outgoing): nat {
    if msg.isCcs then 1
    else if StoredMessage(msg.data).Some? then HM_HEADER_LENGTH + |StoredMessage(msg.data).value.body| else 0
  }

  predicate UsesPrevious(keys: WriteState, msg: Outgoing) {
    keys.epoch >= 1 && msg.epoch == keys.epoch - 1
  }

  /** The message can be sealed under the keys at hand, and none of its records outgrows its length. */
  predicate Sealable(keys: WriteState, msg: Outgoing, mtu: nat) {
    && (msg.epoch == keys.epoch || UsesPrevious(keys, msg))
    && (!msg.isCcs ==> StoredMessage(msg.data).Some?)
    && (mtu <= MAX_MTU || PlainLength(msg) + UsedAead(keys, UsesPrevious(keys, msg)).maxOverhead < U16)
  }

  /** Everything left to send can be sealed. */
  predicate AllSealable(s: Sender, mtu: nat) {
    && WellFormedSender(s) && ValidPosition(s.flight, PositionOf(s))
    && forall k: nat | s.written <= k < |s.flight| :: Sealable(s.keys, s.flight[k], mtu)
  }

  /** `records` more records can be numbered, under either epoch. */
  predicate Numbered(keys: WriteState, records: nat) {
    keys.sequence + records <= MAX_SEQUENCE && keys.lastSequence + records <= MAX_SEQUENCE
  }

  lemma NumberedFewer(keys: WriteState, records: nat, fewer: nat)
    requires Numbered(keys, records) && fewer <= records
    ensures Numbered(keys, fewer)
  {
  }

  predicate Ready(s: Sender, mtu: nat, records: nat) {
    AllSealable(s, mtu) && Numbered(s.keys, records)
  }

  // Bytes and messages left.

  function Left(flight: seq<Outgoing>, index: nat): nat
    decreases |flight| - index
  {
    if index >= |flight| then 0
    else
      (if IsMessage(flight, index) then |MessageAt(flight, index).body| else 0) + 1 + Left(flight, index + 1)
  }

  lemma {:induction false} LeftShrinks(flight: seq<Outgoing>, a: nat, b: nat)
    requires a < b
    ensures Left(flight, b) <= Left(flight, a)
    ensures a < |flight| ==> Left(flight, b) <= Left(flight, a + 1)
    decreases b - a
  {
    if a + 1 < b {
      LeftShrinks(flight, a + 1, b);
    }
  }

  /** The bytes and messages still to be sent. */
  function StillLeft(s: Sender): nat {
    var all := Left(s.flight, s.written);
    if s.offset <= all then all - s.offset else 0
  }

  lemma CloserHasLessLeft(a: Sender, b: Sender)
    requires a.flight == b.flight && Closer(a, b)
    requires ValidPosition(a.flight, PositionOf(a)) && ValidPosition(b.flight, PositionOf(b))
    ensures StillLeft(a) < StillLeft(b)
  {
    if a.written > b.written {
      LeftShrinks(a.flight, b.written, a.written);
    }
  }

  // Sealing one message.

  lemma SealedWithin(a: Aead, n: nat)
    requires ValidAead(a)
    ensures SealedLen(a, n) <= n + a.maxOverhead
  {
  }

  lemma NonceWithin(a: Aead)
    requires ValidAead(a)
    ensures a.nonceLen <= a.maxOverhead
  {
  }

  lemma CcsSeals(s: Sender, previous: bool, mtu: nat, records: nat, maxOut: nat)
    requires (previous ==> s.keys.epoch >= 1) && Numbered(s.keys, records + 1)
    requires ValidAead(UsedAead(s.keys, previous)) && maxOut <= mtu
    requires mtu <= MAX_MTU || 1 + UsedAead(s.keys, previous).maxOverhead < U16
    ensures var m := SealCcs(s, previous, maxOut);
            m.status != SealError && Numbered(m.next.keys, records)
  {
    hide ValidAead;
    SealedWithin(UsedAead(s.keys, previous), 1);
  }

  lemma FragmentSeals(s: Sender, previous: bool, whole: Fragment, mtu: nat, records: nat, maxOut: nat)
    requires (previous ==> s.keys.epoch >= 1) && Numbered(s.keys, records + 1)
    requires ValidAead(UsedAead(s.keys, previous)) && s.offset <= |whole.body| && maxOut <= mtu
    requires mtu <= MAX_MTU || HM_HEADER_LENGTH + |whole.body| + UsedAead(s.keys, previous).maxOverhead < U16
    ensures var m := SealFragment(s, previous, whole, maxOut);
            m.status != SealError && Numbered(m.next.keys, records)
  {
    hide ValidAead, Serialize;
    if maxOut >= HM_HEADER_LENGTH + 1 + RT_HEADER_LENGTH + UsedAead(s.keys, previous).maxOverhead {
      SealedWithin(UsedAead(s.keys, previous), HM_HEADER_LENGTH + Todo(s, previous, whole, maxOut));
      NonceWithin(UsedAead(s.keys, previous));
    }
  }

  /** Where sending stands after a message or a piece of one. */
  function Moved(s: Sender, m: SealStep): Sender {
    if m.status == SealSuccess then m.next.(written := s.written + 1) else m.next
  }

  lemma ReadySeals(s: Sender, mtu: nat, records: nat, maxOut: nat)
    requires Ready(s, mtu, records + 1) && s.written < |s.flight| && maxOut <= mtu
    ensures var m := SealNextMessage(s, maxOut);
            m.status != SealError && (Progress(m) ==> Ready(Moved(s, m), mtu, records))
  {
    hide Follow, StoredMessage, SealCcs, SealFragment, ValidAead, Numbered;
    SealFollows(s, maxOut);
    var msg := s.flight[s.written];
    assert Sealable(s.keys, msg, mtu);
    if msg.isCcs {
      CcsSeals(s, UsesPrevious(s.keys, msg), mtu, records, maxOut);
    } else {
      FragmentSeals(s, UsesPrevious(s.keys, msg), StoredMessage(msg.data).value, mtu, records, maxOut);
    }
  }

  lemma MovedCloser(s: Sender, maxOut: nat)
    requires WellFormedSender(s) && s.written < |s.flight| && ValidPosition(s.flight, PositionOf(s))
    ensures var m := SealNextMessage(s, maxOut);
            Progress(m) ==> ValidPosition(s.flight, PositionOf(Moved(s, m))) && StillLeft(Moved(s, m)) < StillLeft(s)
  {
    hide Follow, SealNextMessage, StillLeft;
    SealFollows(s, maxOut);
    var m := SealNextMessage(s, maxOut);
    if Progress(m) {
      CloserHasLessLeft(Moved(s, m), s);
    }
  }

  // Sealing a packet.

  lemma Fewer(s: Sender, mtu: nat, records: nat, fewer: nat)
    requires Ready(s, mtu, records) && fewer <= records
    ensures Ready(s, mtu, fewer)
  {
  }

  /** With everything sealable and as many numbers left as bytes and messages, no packet fails, and what
      numbers there were to spare are still there. */
  lemma {:induction false} ReadyNeverFails(s: Sender, mtu: nat, spare: nat, maxOut: nat)
    requires Ready(s, mtu, StillLeft(s) + spare) && maxOut <= mtu
    ensures var p := SealFrom(s, maxOut);
            p.stop != Failed && Ready(p.next, mtu, StillLeft(p.next) + spare)
    decreases |s.flight| - s.written
  {
    hide SealNextMessage, ValidAead, ValidPosition, StoredMessage, Sealable, Numbered, StillLeft;
    if s.written < |s.flight| {
      NotDone(s);
      ReadySeals(s, mtu, StillLeft(s) - 1 + spare, maxOut);
      MovedCloser(s, maxOut);
      var m := SealNextMessage(s, maxOut);
      if Progress(m) {
        Fewer(Moved(s, m), mtu, StillLeft(s) - 1 + spare, StillLeft(Moved(s, m)) + spare);
      }
      if m.status == SealSuccess {
        ReadyNeverFails(Moved(s, m), mtu, spare, maxOut - m.records[0].wireLen);
      } else if m.status == SealNoProgress {
        SealFollows(s, maxOut);
      }
    }
  }

  lemma NotDone(s: Sender)
    requires ValidPosition(s.flight, PositionOf(s)) && s.written < |s.flight|
    ensures StillLeft(s) >= 1
  {
  }

  lemma {:induction false} KeysKept(s: Sender, maxOut: nat)
    requires s.written <= |s.flight|
    ensures KeepsKeys(s, SealFrom(s, maxOut).next)
    decreases |s.flight| - s.written
  {
    hide SealNextMessage;
    if s.written < |s.flight| {
      var m := SealNextMessage(s, maxOut);
      if m.status == SealSuccess {
        KeysKept(m.next.(written := s.written + 1), maxOut - m.records[0].wireLen);
      }
    }
  }

  // Sending.

  /** The guard: with everything sealable and as many numbers left as there are bytes and messages to
      send, no packet drops records, whatever the transport answers; and one call uses up no more
      numbers than that. */
  lemma {:induction false} ReadyNeverDrops(s: Sender, mtu: nat, spare: nat, answers: seq<int>)
    requires Ready(s, mtu, StillLeft(s) + spare)
    ensures !DropsRecords(s, mtu, answers)
    ensures var t := SendLoop(s, mtu, answers).next;
            Numbered(t.keys, spare) && KeepsKeys(s, t) && StillLeft(t) <= StillLeft(s)
    decreases |answers|
  {
    hide SealFrom, ValidAead, ValidPosition, Sealable, StillLeft, Follow;
    if s.written < |s.flight| {
      ReadyNeverFails(s, mtu, spare, mtu);
      KeysKept(s, mtu);
      PacketFollows(s, mtu);
      var p := SealFrom(s, mtu);
      NumberedFewer(p.next.keys, StillLeft(p.next) + spare, spare);
      SamePlace(s, p.next.keys);
      if p.records != [] {
        CloserHasLessLeft(p.next, s);
      }
      if PacketOk(p) && answers != [] && answers[0] > 0 {
        ReadyNeverDrops(p.next, mtu, spare, answers[1..]);
      } else {
        FailedPacketStays(s, mtu);
      }
    } else {
      NumberedFewer(s.keys, StillLeft(s) + spare, spare);
    }
  }

  lemma SamePlace(s: Sender, keys: WriteState)
    ensures StillLeft(s.(keys := keys)) == StillLeft(s)
  {
  }

  /** A packet without records that has not failed leaves sending where it was. */
  lemma FailedPacketStays(s: Sender, mtu: nat)
    requires s.written < |s.flight|
    ensures var p := SealFrom(s, mtu);
            p.records == [] && p.stop != Failed ==> StillLeft(p.next) == StillLeft(s)
  {
    hide StillLeft;
    var m := SealNextMessage(s, mtu);
    if m.status == SealNoProgress {
      SamePlace(s, m.next.keys);
    }
  }

  /** The MTU leaves room for a one-byte fragment under either key. */
  predicate RoomForOne(keys: WriteState, mtu: nat) {
    && HM_HEADER_LENGTH + 1 + RT_HEADER_LENGTH + keys.aead.maxOverhead <= mtu
    && HM_HEADER_LENGTH + 1 + RT_HEADER_LENGTH + keys.lastAead.maxOverhead <= mtu
  }

  lemma RoomMeansProgress(s: Sender, mtu: nat)
    requires Ready(s, mtu, StillLeft(s)) && s.written < |s.flight| && RoomForOne(s.keys, mtu)
    ensures SealFrom(s, mtu).records != []
  {
    hide StoredMessage, Serialize, Follow, StillLeft;
    NotDone(s);
    ReadySeals(s, mtu, StillLeft(s) - 1, mtu);
  }

  lemma RoomKept(s: Sender, next: Sender, mtu: nat)
    requires RoomForOne(s.keys, mtu) && KeepsKeys(s, next)
    ensures RoomForOne(next.keys, mtu)
  {
  }

  /** Given keys and numbers for the flight, an MTU with room for a fragment, and a transport that
      takes as many datagrams as there are bytes and messages left, sending completes. */
  lemma {:induction false} FlightCompletes(s: Sender, mtu: nat, answers: seq<int>)
    requires Ready(s, mtu, StillLeft(s)) && RoomForOne(s.keys, mtu)
    requires (forall k: nat | k < |answers| :: answers[k] > 0) && |answers| >= StillLeft(s)
    ensures SendLoop(s, mtu, answers).result == 1 && !DropsRecords(s, mtu, answers)
    decreases |answers|
  {
    hide SealFrom, Ready, RoomForOne, StillLeft;
    ReadyBasics(s, mtu, StillLeft(s));
    if s.written < |s.flight| {
      var p := SealFrom(s, mtu);
      NotDone(s);
      RoomMeansProgress(s, mtu);
      ReadyNeverFails(s, mtu, 0, mtu);
      PacketFollows(s, mtu);
      CloserHasLessLeft(p.next, s);
      KeysKept(s, mtu);
      RoomKept(s, p.next, mtu);
      FlightCompletes(p.next, mtu, answers[1..]);
    }
  }

  lemma ReadyBasics(s: Sender, mtu: nat, records: nat)
    requires Ready(s, mtu, records)
    ensures WellFormedSender(s) && ValidPosition(s.flight, PositionOf(s))
  {
  }

  /** A call that succeeds has dropped nothing: a packet that fails ends the call. */
  lemma {:induction false} SuccessDropsNothing(s: Sender, mtu: nat, answers: seq<int>)
    requires s.written <= |s.flight|
    ensures SendLoop(s, mtu, answers).result > 0 ==> !DropsRecords(s, mtu, answers)
    decreases |answers|
  {
    hide SealFrom;
    if s.written < |s.flight| && answers != [] {
      SuccessDropsNothing(SealFrom(s, mtu).next, mtu, answers[1..]);
    }
  }

  /** A flight sent in full by one call, in however many datagrams, carries every byte of every one of its
      messages exactly once. */
  lemma FlightCarriedOnce(s: Sender, mtu: nat, answers: seq<int>, k: nat, i: nat)
    requires WellFormedSender(s) && PositionOf(s) == Position(0, 0) && NumberedApart(s.flight)
    requires IsMessage(s.flight, k) && i < |MessageAt(s.flight, k).body|
    ensures var o := SendLoop(s, mtu, answers);
            o.result > 0 ==> TimesCarried(Flatten(o.sent), MessageAt(s.flight, k).seqNo, i) == 1
  {
    SuccessDropsNothing(s, mtu, answers);
    SendLoopFollows(s, mtu, answers);
    var o := SendLoop(s, mtu, answers);
    if o.result > 0 {
      RestCarriedOnce(s.flight, Position(0, 0), Flatten(o.sent), k, i);
    }
  }
}
