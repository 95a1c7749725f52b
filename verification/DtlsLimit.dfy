/** Where delivery in order and replay protection end: the exact bounds on messages, on how far the sender
    is ahead, and on key changes, with a run beyond each of them. */
module DtlsLimit {
  import opened Common
  import opened DtlsFragment
  import opened DtlsReceive
  import opened DtlsRecords
  import opened DtlsFlight
  import opened DtlsRecordLayer
  import opened DtlsProgress
  import opened DtlsPace
  import D = DtlsDelivery

  predicate AtMost(a: Counts, b: Counts) {
    a.writing <= b.writing && a.reading <= b.reading && a.packets <= b.packets
  }

  /** `b` can be reached from `a` at the pace and within the counts. */
  ghost predicate Reaches(a: D.System, b: D.System, p: Pace, c: Counts) {
    exists events :: PacedRun(a, events, p) && D.Final(a, events, p.messages) == b && AtMost(CountsOf(events), c)
  }

  lemma {:induction false} RunSplits(a: D.System, first: seq<D.Event>, second: seq<D.Event>, p: Pace)
    requires PacedRun(a, first, p) && PacedRun(D.Final(a, first, p.messages), second, p)
    ensures PacedRun(a, first + second, p)
    ensures D.Final(a, first + second, p.messages) == D.Final(D.Final(a, first, p.messages), second, p.messages)
    decreases |first|
  {
    hide D.Step, D.Typed, D.Possible, CountsOf, CountOne;
    if first == [] {
      assert first + second == second;
    } else {
      assert (first + second)[1..] == first[1..] + second;
      RunSplits(D.Step(a, first[0]), first[1..], second, p);
    }
  }

  lemma PlusZero(c: Counts)
    ensures Plus(ZERO, c) == c && Plus(c, ZERO) == c
  {
  }

  lemma CountsSplit(events: seq<D.Event>)
    ensures CountsOf(events) == if events == [] then ZERO else Plus(CountOne(events[0]), CountsOf(events[1..]))
  {
    hide CountOne, Plus;
  }

  lemma {:induction false} CountsAppend(first: seq<D.Event>, second: seq<D.Event>)
    ensures CountsOf(first + second) == Plus(CountsOf(first), CountsOf(second))
  {
    hide CountOne, Plus, CountsOf;
    CountsSplit(first);
    CountsSplit(first + second);
    if first == [] {
      assert first + second == second;
      PlusZero(CountsOf(second));
    } else {
      assert (first + second)[1..] == first[1..] + second;
      CountsAppend(first[1..], second);
      PlusMoves(CountOne(first[0]), CountsOf(first[1..]), CountsOf(second));
    }
  }

  lemma ThenReaches(a: D.System, b: D.System, c: D.System, p: Pace, m: Counts, n: Counts)
    requires Reaches(a, b, p, m) && Reaches(b, c, p, n)
    ensures Reaches(a, c, p, Plus(m, n))
  {
    hide D.IsRun, D.Final, KeepsPace, CountsOf;
    var first :| PacedRun(a, first, p) && D.Final(a, first, p.messages) == b && AtMost(CountsOf(first), m);
    var second :| PacedRun(b, second, p) && D.Final(b, second, p.messages) == c && AtMost(CountsOf(second), n);
    RunSplits(a, first, second, p);
    CountsAppend(first, second);
  }

  lemma ThenFree(a: D.System, b: D.System, c: D.System, p: Pace, m: Counts)
    requires Reaches(a, b, p, m) && Reaches(b, c, p, ZERO)
    ensures Reaches(a, c, p, m)
  {
    hide Reaches, Plus;
    PlusZero(m);
    ThenReaches(a, b, c, p, m, ZERO);
  }

  lemma FreeThen(a: D.System, b: D.System, c: D.System, p: Pace, m: Counts)
    requires Reaches(a, b, p, ZERO) && Reaches(b, c, p, m)
    ensures Reaches(a, c, p, m)
  {
    hide Reaches, Plus;
    PlusZero(m);
    ThenReaches(a, b, c, p, ZERO, m);
  }

  lemma StepReaches(a: D.System, e: D.Event, p: Pace)
    requires D.Typed(a) && D.Possible(a, e, p.messages) && (e.ReleaseMessage? ==> CurrentComplete(a.receiver))
    requires e.AddHandshake? ==> |a.sent| < |a.delivered| + p.lead
    ensures Reaches(a, D.Step(a, e), p, CountOne(e))
  {
    hide D.Step, CountOne, CountsOf, D.Typed, D.Possible, KeepsPace, D.IsRun, D.Final;
    OneStep(a, e, p);
    OneCount(e);
    assert PacedRun(a, [e], p);
  }

  lemma OneStep(a: D.System, e: D.Event, p: Pace)
    requires D.Typed(a) && D.Possible(a, e, p.messages) && (e.ReleaseMessage? ==> CurrentComplete(a.receiver))
    requires e.AddHandshake? ==> |a.sent| < |a.delivered| + p.lead
    ensures PacedRun(a, [e], p) && D.Final(a, [e], p.messages) == D.Step(a, e)
  {
    hide D.Step, D.Typed, D.Possible, CountsOf, CountOne;
    assert [e][1..] == [];
    assert D.IsRun(D.Step(a, e), [], p.messages) && KeepsPace(D.Step(a, e), [], p);
    assert D.IsRun(a, [e], p.messages) && D.Final(a, [e], p.messages) == D.Step(a, e);
  }

  lemma OneCount(e: D.Event)
    ensures CountsOf([e]) == CountOne(e)
  {
    hide CountOne;
    assert [e][1..] == [] && CountsOf([]) == ZERO;
  }

  const PACKET: Counts := Counts(0, 0, 1)

  function Packets(n: nat): Counts {
    Counts(0, 0, n)
  }

  /** The slowest pace: each message is handed out before the next is sent. */
  const ONE: Pace := Pace(1, 1)

  // The connection: empty messages under a cipher that adds nothing.

  const EMPTY_MESSAGE: Message := Message(1, [])
  const MTU: nat := 1000

  function Copies(n: nat): (s: seq<Message>)
    ensures |s| == n
  {
    seq(n, _ => EMPTY_MESSAGE)
  }

  /** Message `k`, serialized. */
  function Whole(k: Uint16): seq<Byte> {
    Serialize(WholeMessage(EMPTY_MESSAGE, k))
  }

  /** Message `k` in record `n` of epoch zero. */
  function Carrier(k: Uint16, n: nat): Record {
    Record(HandshakeData, 0, n, Whole(k), RT_HEADER_LENGTH + HM_HEADER_LENGTH)
  }

  /** A sender whose flight is message `k`, sent or not. */
  function OneMessage(k: Uint16, written: nat, keys: WriteState): Sender {
    Sender([Outgoing(Whole(k), 0, false)], written, 0, true, (k + 1) % U16, keys)
  }

  lemma OnePacket(k: Uint16, n: Sequence, last: Sequence)
    requires n < MAX_SEQUENCE
    ensures SealFrom(OneMessage(k, 0, WriteState(0, n, last, PLAIN, PLAIN)), MTU) ==
            Packet(OneMessage(k, 1, WriteState(0, n + 1, last, PLAIN, PLAIN)), [Carrier(k, n)], Done)
  {
    hide OneFragment, Serialize;
    var s := OneMessage(k, 0, WriteState(0, n, last, PLAIN, PLAIN));
    var whole := WholeMessage(EMPTY_MESSAGE, k);
    OneFragmentOf(whole);
    assert StoredMessage(s.flight[0].data) == Some(whole);
    assert NextFragment(whole, 0, 0) == whole;
    var m := SealNextMessage(s, MTU);
    assert m == SealStep(SealSuccess, s.(keys := s.keys.(sequence := n + 1)), [Carrier(k, n)]);
    assert SealFrom(m.next.(written := 1), MTU - m.records[0].wireLen) == Packet(m.next.(written := 1), [], Done);
    assert [Carrier(k, n)] + [] == [Carrier(k, n)];
  }

  /** The one message of the flight is sent, or sent again. */
  lemma SendsIt(a: D.System, k: Uint16, n: Sequence, last: Sequence, p: Pace)
    requires n < MAX_SEQUENCE && a.sender == OneMessage(k, a.sender.written, WriteState(0, n, last, PLAIN, PLAIN))
    requires a.sender.written <= 1
    ensures Reaches(a, a.(sender := OneMessage(k, 1, WriteState(0, n + 1, last, PLAIN, PLAIN)),
                          wire := a.wire + {Carrier(k, n)}), p, PACKET)
  {
    hide SealFrom, Whole, Carrier, Reaches;
    var b := D.Step(a, D.Retransmit);
    StepReaches(a, D.Retransmit, p);
    assert b == a.(sender := OneMessage(k, 0, WriteState(0, n, last, PLAIN, PLAIN)));
    OnePacket(k, n, last);
    assert (set r | r in [Carrier(k, n)]) == {Carrier(k, n)};
    StepReaches(b, D.SendPacket(MTU, true), p);
    FreeThen(a, b, D.Step(b, D.SendPacket(MTU, true)), p, PACKET);
  }

  /** A receiver that waits for message `k` in epoch zero and holds nothing. */
  function Waiting(k: Uint16): Receiver {
    Receiver(k, 0, NO_MESSAGES, false, false)
  }

  lemma OpensIt(k: Uint16)
    ensures OpenHandshake(Waiting(k), 100, HandshakeData, Whole(k)) ==
            (Waiting(k).(slots := NO_MESSAGES[Slot(k) := Some(Incoming(1, k, 0, map[], {}))]), Success)
  {
    hide Serialize;
    var whole := WholeMessage(EMPTY_MESSAGE, k);
    ParseSerialize(whole, []);
    assert Whole(k) + [] == Whole(k);
    var m := Incoming(1, k, 0, map[], {});
    assert Complete(m);
    var next := AddFragment(Waiting(k), 100, whole).0;
    assert next == Waiting(k).(slots := NO_MESSAGES[Slot(k) := Some(m)]);
    assert OpenRecord(next, 100, []) == (next, None);
  }

  /** A record of message `k` that the window admits arrives, and the message is handed out. */
  lemma DeliversIt(a: D.System, k: Uint16, n: nat, p: Pace)
    requires D.Typed(a) && a.receiver == Waiting(k) && Carrier(k, n) in a.wire && !Discards(a.window, n)
    requires a.reading == FRESH_READING
    ensures Reaches(a, a.(window := Note(a.window, n), receiver := Waiting((k + 1) % U16),
                          processed := a.processed + [Carrier(k, n)],
                          delivered := a.delivered + [EMPTY_MESSAGE]), p, ZERO)
  {
    hide Reaches, OpenHandshake, Whole;
    OpensIt(k);
    WholeLength(k);
    var b := D.Step(a, D.Arrive(Carrier(k, n), 100));
    StepReaches(a, D.Arrive(Carrier(k, n), 100), p);
    var m := Incoming(1, k, 0, map[], {});
    assert b == a.(window := Note(a.window, n), receiver := Waiting(k).(slots := NO_MESSAGES[Slot(k) := Some(m)]),
                   processed := a.processed + [Carrier(k, n)]);
    HandsItOut(b, k, p);
    assert NO_MESSAGES[Slot(k) := Some(m)][Slot(k) := None] == NO_MESSAGES;
    ThenFree(a, b, b.(receiver := Waiting((k + 1) % U16), delivered := b.delivered + [EMPTY_MESSAGE]), p, ZERO);
  }

  lemma WholeLength(k: Uint16)
    ensures |Whole(k)| == HM_HEADER_LENGTH
  {
  }

  lemma HandsItOut(b: D.System, k: Uint16, p: Pace)
    requires D.Typed(b)
    requires b.receiver == Waiting(k).(slots := NO_MESSAGES[Slot(k) := Some(Incoming(1, k, 0, map[], {}))])
    ensures Reaches(b, b.(receiver := Waiting((k + 1) % U16), delivered := b.delivered + [EMPTY_MESSAGE]), p, ZERO)
  {
    hide Reaches;
    var m := Incoming(1, k, 0, map[], {});
    assert Complete(m) && CurrentComplete(b.receiver);
    assert BodyOf(m) == [];
    var c := D.Step(b, D.GetMessageOut);
    StepReaches(b, D.GetMessageOut, p);
    assert c == b.(receiver := b.receiver.(hasMessage := true));
    assert CurrentMessage(c.receiver) == EMPTY_MESSAGE;
    var d := D.Step(c, D.ReleaseMessage);
    StepReaches(c, D.ReleaseMessage, p);
    assert NO_MESSAGES[Slot(k) := Some(m)][Slot(k) := None] == NO_MESSAGES;
    assert d == b.(receiver := Waiting((k + 1) % U16), delivered := b.delivered + [EMPTY_MESSAGE]);
    ThenFree(b, c, d, p, ZERO);
  }

  // The run. The first message is sent 2^16 + 1 times and received once; the last of those records
  // is kept back.

  function Repeats(n: nat): set<Record> {
    if n == 0 then {} else Repeats(n - 1) + {Carrier(0, n - 1)}
  }

  function Repeated(n: nat): D.System
    requires n <= U16 + 1
  {
    D.Start(PLAIN).(sent := Copies(1), wire := Repeats(n),
                    sender := OneMessage(0, if n == 0 then 0 else 1, WriteState(0, n, 0, PLAIN, PLAIN)))
  }

  lemma Begins(p: Pace)
    requires p.messages >= 1 && p.lead >= 1
    ensures Reaches(D.Start(PLAIN), Repeated(0), p, ZERO)
  {
    hide Reaches, Serialize;
    var a := D.Start(PLAIN);
    var b := D.Step(a, D.AddHandshake(EMPTY_MESSAGE));
    StepReaches(a, D.AddHandshake(EMPTY_MESSAGE), p);
    StepReaches(b, D.FinishFlight, p);
    assert [] + [EMPTY_MESSAGE] == Copies(1);
    assert D.Step(b, D.FinishFlight) == Repeated(0);
    ThenFree(a, b, Repeated(0), p, ZERO);
  }

  lemma {:induction false} Repeating(n: nat, p: Pace)
    requires n <= U16 + 1 && p.messages >= 1 && p.lead >= 1
    ensures Reaches(D.Start(PLAIN), Repeated(n), p, Packets(n))
  {
    hide Reaches, Whole, Carrier;
    if n == 0 {
      Begins(p);
    } else {
      Repeating(n - 1, p);
      SendsIt(Repeated(n - 1), 0, n - 1, 0, p);
      ThenReaches(D.Start(PLAIN), Repeated(n - 1), Repeated(n), p, Packets(n - 1), PACKET);
    }
  }

  /** The first message has been sent `n` times and received once. */
  function Heard(n: nat): D.System
    requires 1 <= n <= U16 + 1
  {
    Repeated(n).(window := Note(FRESH_WINDOW, 0), receiver := Waiting(1), processed := [Carrier(0, 0)],
                 delivered := Copies(1))
  }

  lemma {:induction false} InRepeats(i: nat, n: nat)
    requires i < n
    ensures Carrier(0, i) in Repeats(n)
  {
    if i < n - 1 {
      InRepeats(i, n - 1);
    }
  }

  lemma FirstHeard(n: nat, p: Pace)
    requires 1 <= n <= U16 + 1 && p.messages >= 1 && p.lead >= 1
    ensures Reaches(D.Start(PLAIN), Heard(n), p, Packets(n))
  {
    hide Reaches, Repeats, Whole;
    Repeating(n, p);
    InRepeats(0, n);
    DeliversIt(Repeated(n), 0, 0, p);
    assert [] + [EMPTY_MESSAGE] == Copies(1) && [] + [Carrier(0, 0)] == [Carrier(0, 0)];
    ThenFree(D.Start(PLAIN), Repeated(n), Heard(n), p, Packets(n));
  }

  // Then message after message is sent and received, each in the record of its own number, from wherever
  // the first message has been received and the counter stands at one.

  function Carriers(k: nat, wire: set<Record>): set<Record>
    requires 1 <= k <= U16
  {
    if k == 1 then wire else Carriers(k - 1, wire) + {Carrier(k - 1, k - 1)}
  }

  function Taken(k: nat): seq<Record>
    requires k <= U16
  {
    if k == 0 then [] else Taken(k - 1) + [Carrier(k - 1, k - 1)]
  }

  /** After `k` messages, `wire` being what the first one left. */
  function Delivered(k: nat, wire: set<Record>): D.System
    requires 1 <= k <= U16
  {
    D.System(Copies(k), OneMessage(k - 1, 1, WriteState(0, k, 0, PLAIN, PLAIN)), Carriers(k, wire),
             Window(Range(0, k), k - 1), Waiting(k % U16), FRESH_READING, Taken(k), Copies(k))
  }

  /** Message `k`, added and not sent yet. */
  function Added(k: nat, wire: set<Record>): D.System
    requires 1 <= k < U16
  {
    Delivered(k, wire).(sent := Copies(k + 1), sender := OneMessage(k, 0, WriteState(0, k, 0, PLAIN, PLAIN)))
  }

  lemma Adds(k: nat, wire: set<Record>, p: Pace)
    requires 1 <= k < U16 <= p.messages && p.lead >= 1
    ensures Reaches(Delivered(k, wire), Added(k, wire), p, ZERO)
  {
    hide Reaches, Carriers, Taken, Serialize, Range;
    var a := Delivered(k, wire);
    var b := D.Step(a, D.AddHandshake(EMPTY_MESSAGE));
    StepReaches(a, D.AddHandshake(EMPTY_MESSAGE), p);
    StepReaches(b, D.FinishFlight, p);
    assert Copies(k) + [EMPTY_MESSAGE] == Copies(k + 1);
    assert D.Step(b, D.FinishFlight) == Added(k, wire);
    ThenFree(a, b, Added(k, wire), p, ZERO);
  }

  lemma Round(k: nat, wire: set<Record>, p: Pace)
    requires 1 <= k < U16 <= p.messages && p.lead >= 1
    ensures Reaches(Delivered(k, wire), Delivered(k + 1, wire), p, PACKET)
  {
    hide Reaches, Whole;
    Adds(k, wire, p);
    var a, b := Delivered(k, wire), Added(k, wire);
    SendsIt(b, k, k, 0, p);
    var c := b.(sender := OneMessage(k, 1, WriteState(0, k + 1, 0, PLAIN, PLAIN)), wire := b.wire + {Carrier(k, k)});
    FreeThen(a, b, c, p, PACKET);
    DeliversIt(c, k, k, p);
    assert Range(0, k) + {k} == Range(0, k + 1);
    assert Copies(k) + [EMPTY_MESSAGE] == Copies(k + 1);
    ThenFree(a, c, Delivered(k + 1, wire), p, PACKET);
  }

  lemma {:induction false} Rounds(k: nat, wire: set<Record>, p: Pace)
    requires 1 <= k <= U16 <= p.messages && p.lead >= 1
    ensures Reaches(Delivered(1, wire), Delivered(k, wire), p, Packets(k - 1))
  {
    hide Reaches, Delivered;
    if k == 1 {
      Stays(Delivered(1, wire), p);
    } else {
      Rounds(k - 1, wire, p);
      Round(k - 1, wire, p);
      ThenReaches(Delivered(1, wire), Delivered(k - 1, wire), Delivered(k, wire), p, Packets(k - 2), PACKET);
    }
  }

  lemma Stays(a: D.System, p: Pace)
    ensures Reaches(a, a, p, ZERO)
  {
    assert PacedRun(a, [], p) && D.Final(a, [], p.messages) == a && CountsOf([]) == ZERO;
  }

  // The write keys go once around: the first message is sent 2^16 + 1 times and received once, and the
  // last of those records is kept back while record numbers start again from zero.

  function Rekeyed(j: nat): D.System {
    var a := Heard(U16 + 1);
    a.(sender := OneMessage(0, 1, if j == 0 then a.sender.keys
                                  else WriteState(j % U16, 0, if j == 1 then U16 + 1 else 0, PLAIN, PLAIN)))
  }

  lemma {:induction false} Rekeying(j: nat, p: Pace)
    requires p.messages >= 1 && p.lead >= 1
    ensures Reaches(D.Start(PLAIN), Rekeyed(j), p, Counts(j, 0, U16 + 1))
  {
    hide Reaches, Repeats, Whole;
    if j == 0 {
      FirstHeard(U16 + 1, p);
    } else {
      Rekeying(j - 1, p);
      StepReaches(Rekeyed(j - 1), D.NewWriteKeys(PLAIN), p);
      ThenReaches(D.Start(PLAIN), Rekeyed(j - 1), Rekeyed(j), p, Counts(j - 1, 0, U16 + 1), Counts(1, 0, 0));
    }
  }

  lemma Restarts(p: Pace)
    requires p.messages >= 1 && p.lead >= 1
    ensures Reaches(D.Start(PLAIN), Delivered(1, Repeats(U16 + 1)), p, Counts(U16, 0, U16 + 2))
  {
    hide Reaches, Repeats, Whole;
    Rekeying(U16, p);
    var a := Rekeyed(U16);
    SendsIt(a, 0, 0, 0, p);
    InRepeats(0, U16 + 1);
    assert a.wire + {Carrier(0, 0)} == a.wire;
    assert {} + {0} == Range(0, 1);
    assert Taken(0) == [] && [] + [Carrier(0, 0)] == [Carrier(0, 0)];
    ThenReaches(D.Start(PLAIN), a, Delivered(1, Repeats(U16 + 1)), p, Counts(U16, 0, U16 + 1), PACKET);
  }

  lemma {:induction false} KeptOnWire(k: nat, wire: set<Record>, x: Record)
    requires 1 <= k <= U16 && x in wire
    ensures x in Carriers(k, wire)
  {
    hide Carrier;
    if k > 1 {
      KeptOnWire(k - 1, wire, x);
    }
  }

  /** With 2^16 messages, all delivered, a record of the first that the window admits is delivered as one
      more. */
  lemma OneMore(a: D.System, n: nat, p: Pace, c: Counts)
    requires Reaches(D.Start(PLAIN), a, p, c) && D.Typed(a) && a.receiver == Waiting(0) && a.reading == FRESH_READING
    requires Carrier(0, n) in a.wire && !Discards(a.window, n) && a.delivered == a.sent
    ensures exists b: D.System :: Reaches(D.Start(PLAIN), b, p, c) && !(b.delivered <= b.sent)
  {
    hide Reaches, Whole;
    DeliversIt(a, 0, n, p);
    var b := a.(window := Note(a.window, n), receiver := Waiting(1), processed := a.processed + [Carrier(0, n)],
                delivered := a.delivered + [EMPTY_MESSAGE]);
    ThenFree(D.Start(PLAIN), a, b, p, c);
    assert |b.delivered| == |b.sent| + 1;
  }

  lemma WrapsAround(p: Pace)
    requires p.messages >= U16 && p.lead >= 1
    ensures exists b: D.System :: Reaches(D.Start(PLAIN), b, p, Counts(U16, 0, 2 * U16 + 1)) && !(b.delivered <= b.sent)
  {
    hide Reaches, Carriers, Taken, Whole;
    var wire := Repeats(U16 + 1);
    Restarts(p);
    Rounds(U16, wire, p);
    var a := Delivered(U16, wire);
    ThenReaches(D.Start(PLAIN), Delivered(1, wire), a, p, Counts(U16, 0, U16 + 2), Packets(U16 - 1));
    InRepeats(U16, U16 + 1);
    KeptOnWire(U16, wire, Carrier(0, U16));
    OneMore(a, U16, p, Counts(U16, 0, 2 * U16 + 1));
  }

  // The read keys go once around: the window has forgotten the record of the first message.

  function Turned(a: D.System, j: nat): D.System {
    a.(receiver := a.receiver.(epoch := j % U16), window := if j == 0 then a.window else FRESH_WINDOW)
  }

  lemma KeysTurn(a: D.System, k: Uint16, j: nat, p: Pace)
    requires D.Typed(a) && a.receiver == Waiting(k) && j > 0
    ensures Reaches(Turned(a, j - 1), Turned(a, j), p, Counts(0, 1, 0))
  {
    hide Reaches;
    StepReaches(Turned(a, j - 1), D.NewReadKeys, p);
  }

  lemma {:induction false} Turning(a: D.System, k: Uint16, j: nat, p: Pace)
    requires D.Typed(a) && a.receiver == Waiting(k)
    ensures Reaches(a, Turned(a, j), p, Counts(0, j, 0))
  {
    hide Reaches;
    if j == 0 {
      Stays(a, p);
    } else {
      Turning(a, k, j - 1, p);
      KeysTurn(a, k, j, p);
      ThenReaches(a, Turned(a, j - 1), Turned(a, j), p, Counts(0, j - 1, 0), Counts(0, 1, 0));
    }
  }

  lemma HeardIsDelivered()
    ensures Heard(1) == Delivered(1, Repeats(1))
  {
    hide Whole, Repeats;
    assert {} + {0} == Range(0, 1);
    assert Taken(0) == [] && [] + [Carrier(0, 0)] == [Carrier(0, 0)];
  }

  lemma TurnsAround(p: Pace)
    requires p.messages >= U16 && p.lead >= 1
    ensures exists b: D.System :: Reaches(D.Start(PLAIN), b, p, Counts(0, U16, U16)) && !(b.delivered <= b.sent)
  {
    hide Reaches, Carriers, Taken, Whole, Repeats;
    var wire := Repeats(1);
    FirstHeard(1, p);
    HeardIsDelivered();
    Rounds(U16, wire, p);
    var a := Delivered(U16, wire);
    ThenReaches(D.Start(PLAIN), Delivered(1, wire), a, p, Packets(1), Packets(U16 - 1));
    Turning(a, 0, U16, p);
    ThenReaches(D.Start(PLAIN), a, Turned(a, U16), p, Packets(U16), Counts(0, U16, 0));
    InRepeats(0, 1);
    KeptOnWire(U16, wire, Carrier(0, 0));
    OneMore(Turned(a, U16), 0, p, Counts(0, U16, U16));
  }

  // The sender runs ahead: of 2^16 + 1 messages only the last is sent, and it is taken for the first.

  const OTHER_MESSAGE: Message := Message(2, [])

  /** `k` messages added, the first unlike the others, and none sent. */
  function Skipped(k: nat): D.System
    requires 1 <= k <= U16 + 1
  {
    D.Start(PLAIN).(sent := [OTHER_MESSAGE] + Copies(k - 1),
                    sender := if k == 1
                              then Sender([Outgoing(Serialize(WholeMessage(OTHER_MESSAGE, 0)), 0, false)], 0, 0,
                                          true, 1, WriteState(0, 0, 0, PLAIN, PLAIN))
                              else OneMessage((k - 1) % U16, 0, WriteState(0, 0, 0, PLAIN, PLAIN)))
  }

  lemma SkipsOne(a: D.System, m: Message, b: D.System, p: Pace)
    requires D.Typed(a) && |a.sent| < p.messages && |a.sent| < |a.delivered| + p.lead && |m.body| < U24
    requires a.sender.flight == [] || a.sender.flightComplete
    requires b == a.(sent := a.sent + [m], sender := b.sender)
    requires b.sender == Sender([Outgoing(Serialize(WholeMessage(m, a.sender.writeSeq)), a.sender.keys.epoch, false)],
                                0, 0, true, (a.sender.writeSeq + 1) % U16, a.sender.keys)
    requires a.sender.flight == [] ==> a.sender.written == 0 && a.sender.offset == 0
    ensures Reaches(a, b, p, ZERO)
  {
    hide Reaches, Serialize;
    var c := D.Step(a, D.AddHandshake(m));
    StepReaches(a, D.AddHandshake(m), p);
    StepReaches(c, D.FinishFlight, p);
    assert D.Step(c, D.FinishFlight) == b;
    ThenFree(a, c, b, p, ZERO);
  }

  lemma {:induction false} Skipping(k: nat, p: Pace)
    requires 1 <= k <= U16 + 1 && p.messages > U16 && p.lead > U16
    ensures Reaches(D.Start(PLAIN), Skipped(k), p, ZERO)
  {
    hide Reaches, Serialize;
    if k == 1 {
      assert [] + [OTHER_MESSAGE] == [OTHER_MESSAGE] + Copies(0);
      SkipsOne(D.Start(PLAIN), OTHER_MESSAGE, Skipped(1), p);
    } else {
      Skipping(k - 1, p);
      assert [OTHER_MESSAGE] + Copies(k - 2) + [EMPTY_MESSAGE] == [OTHER_MESSAGE] + Copies(k - 1);
      SkipsOne(Skipped(k - 1), EMPTY_MESSAGE, Skipped(k), p);
      ThenFree(D.Start(PLAIN), Skipped(k - 1), Skipped(k), p, ZERO);
    }
  }

  /** Where all messages but the last have been forgotten. */
  predicate Ahead(a: D.System) {
    && a.sender == OneMessage(0, 0, WriteState(0, 0, 0, PLAIN, PLAIN)) && D.Typed(a)
    && a.receiver == Waiting(0) && a.window == FRESH_WINDOW && a.reading == FRESH_READING
    && a.delivered == [] && a.sent != [] && a.sent[0] == OTHER_MESSAGE
  }

  lemma AllSkipped()
    ensures Ahead(Skipped(U16 + 1))
  {
    hide Whole, Serialize;
  }

  lemma TakenForFirst(a: D.System, p: Pace)
    requires Ahead(a) && Reaches(D.Start(PLAIN), a, p, ZERO)
    ensures exists b: D.System :: Reaches(D.Start(PLAIN), b, p, PACKET) && !(b.delivered <= b.sent)
  {
    hide Reaches, Whole, Carrier, D.Start, Plus, Waiting, Discards, Note;
    SendsIt(a, 0, 0, 0, p);
    var c := a.(sender := OneMessage(0, 1, WriteState(0, 1, 0, PLAIN, PLAIN)), wire := a.wire + {Carrier(0, 0)});
    FreeThen(D.Start(PLAIN), a, c, p, PACKET);
    assert !Discards(FRESH_WINDOW, 0) by { NothingDiscarded(); }
    DeliversIt(c, 0, 0, p);
    var b := c.(window := Note(c.window, 0), receiver := Waiting(1), processed := c.processed + [Carrier(0, 0)],
                delivered := c.delivered + [EMPTY_MESSAGE]);
    ThenFree(D.Start(PLAIN), c, b, p, PACKET);
    assert b.delivered[0] == EMPTY_MESSAGE && b.sent[0] == OTHER_MESSAGE;
  }

  lemma NothingDiscarded()
    ensures !Discards(FRESH_WINDOW, 0)
  {
  }

  lemma RunsAhead(p: Pace)
    requires p.messages > U16 && p.lead > U16
    ensures exists b: D.System :: Reaches(D.Start(PLAIN), b, p, PACKET) && !(b.delivered <= b.sent)
  {
    hide Reaches, Skipped, Ahead;
    Skipping(U16 + 1, p);
    AllSkipped();
    TakenForFirst(Skipped(U16 + 1), p);
  }

  // The bounds.

  lemma {:induction false} RunWithin(a: D.System, events: seq<D.Event>, limit: nat, more: nat)
    requires D.IsRun(a, events, limit) && limit <= more
    ensures D.IsRun(a, events, more) && D.Final(a, events, more) == D.Final(a, events, limit)
    decreases |events|
  {
    hide D.Step;
    if events != [] {
      RunWithin(D.Step(a, events[0]), events[1..], limit, more);
    }
  }

  /** No run with at most `limit` messages hands out anything but a prefix of what was sent. */
  ghost predicate Safe(limit: nat) {
    forall aead: Aead, events: seq<D.Event> | ValidAead(aead) && D.IsRun(D.Start(aead), events, limit) ::
      var sys := D.Final(D.Start(aead), events, limit); sys.delivered <= sys.sent
  }

  /** Delivery in order is safe whatever the keys and the pace exactly for connections of fewer than 2^16
      handshake messages. */
  lemma SafeExactlyBelowWrap(limit: nat)
    ensures Safe(limit) <==> limit < U16
  {
    hide D.IsRun, D.Final, D.Start;
    if limit < U16 {
      forall aead: Aead, events: seq<D.Event> | ValidAead(aead) && D.IsRun(D.Start(aead), events, limit)
        ensures var sys := D.Final(D.Start(aead), events, limit); sys.delivered <= sys.sent
      {
        RunWithin(D.Start(aead), events, limit, U16 - 1);
        D.DeliverySafety(aead, events);
      }
    } else {
      var p, c := Pace(limit, 1), Counts(U16, 0, 2 * U16 + 1);
      WrapsAround(p);
      var b :| Reaches(D.Start(PLAIN), b, p, c) && !(b.delivered <= b.sent);
      var events :| PacedRun(D.Start(PLAIN), events, p) && D.Final(D.Start(PLAIN), events, p.messages) == b;
      assert ValidAead(PLAIN);
    }
  }

  /** No run at the pace, with at most so many key changes and with record numbers for all its packets, hands
      out anything but a prefix of what was sent. */
  ghost predicate PacedSafe(p: Pace, writing: nat, reading: nat) {
    forall aead: Aead, events: seq<D.Event> |
      ValidAead(aead) && PacedRun(D.Start(aead), events, p)
      && AtMost(CountsOf(events), Counts(writing, reading, MAX_SEQUENCE / MAX_FLIGHT)) ::
      var sys := D.Final(D.Start(aead), events, p.messages); sys.delivered <= sys.sent
  }

  /** Delivery in order is safe, for any number of messages, exactly if the sender is never more than 2^16
      messages ahead and neither side changes its keys 2^16 times; and for fewer than 2^16 messages anyway. */
  lemma PacedSafeExactly(p: Pace, writing: nat, reading: nat)
    ensures PacedSafe(p, writing, reading) <==>
            || p.messages < U16 || p.lead == 0
            || ((p.messages <= U16 || p.lead <= U16) && writing < U16 && reading < U16)
  {
    hide D.IsRun, D.Final, D.Start, CountsOf, KeepsPace, Reaches;
    var most := Counts(writing, reading, MAX_SEQUENCE / MAX_FLIGHT);
    if p.messages < U16 || p.lead == 0 || ((p.messages <= U16 || p.lead <= U16) && writing < U16 && reading < U16) {
      forall aead: Aead, events: seq<D.Event> |
        ValidAead(aead) && PacedRun(D.Start(aead), events, p) && AtMost(CountsOf(events), most)
        ensures var sys := D.Final(D.Start(aead), events, p.messages); sys.delivered <= sys.sent
      {
        if p.messages < U16 {
          RunWithin(D.Start(aead), events, p.messages, U16 - 1);
          D.DeliverySafety(aead, events);
        } else if p.lead == 0 {
          NothingAdded(aead, events, p);
        } else {
          PacedDelivery(aead, events, p);
        }
      }
    } else if writing >= U16 {
      WrapsAround(p);
      NotSafe(p, Counts(U16, 0, 2 * U16 + 1), writing, reading);
    } else if reading >= U16 {
      TurnsAround(p);
      NotSafe(p, Counts(0, U16, U16), writing, reading);
    } else {
      RunsAhead(p);
      NotSafe(p, PACKET, writing, reading);
    }
  }

  lemma NotSafe(p: Pace, c: Counts, writing: nat, reading: nat)
    requires exists b: D.System :: Reaches(D.Start(PLAIN), b, p, c) && !(b.delivered <= b.sent)
    requires AtMost(c, Counts(writing, reading, MAX_SEQUENCE / MAX_FLIGHT))
    ensures !PacedSafe(p, writing, reading)
  {
    hide D.IsRun, KeepsPace, D.Final, CountsOf, D.Start;
    var b: D.System :| Reaches(D.Start(PLAIN), b, p, c) && !(b.delivered <= b.sent);
    var events :| PacedRun(D.Start(PLAIN), events, p) && D.Final(D.Start(PLAIN), events, p.messages) == b
                  && AtMost(CountsOf(events), c);
    assert ValidAead(PLAIN);
  }

  /** A sender that may not be ahead at all sends nothing. */
  lemma NothingAdded(aead: Aead, events: seq<D.Event>, p: Pace)
    requires ValidAead(aead) && PacedRun(D.Start(aead), events, p) && p.lead == 0
    ensures var sys := D.Final(D.Start(aead), events, p.messages); sys.delivered <= sys.sent
  {
    D.StartInv(aead);
    NothingAddedFrom(D.Start(aead), events, p);
  }

  lemma {:induction false} NothingAddedFrom(a: D.System, events: seq<D.Event>, p: Pace)
    requires D.Inv(a) && a.sent == [] && PacedRun(a, events, p) && p.lead == 0
    ensures var sys := D.Final(a, events, p.messages); sys.delivered <= sys.sent
    decreases |events|
  {
    hide D.SenderInv, D.AllFromPeer;
    if events != [] {
      StillNothing(a, events[0], p);
      NothingAddedFrom(D.Step(a, events[0]), events[1..], p);
    }
  }

  lemma StillNothing(a: D.System, e: D.Event, p: Pace)
    requires D.Inv(a) && a.sent == [] && p.lead == 0 && D.Typed(a) && D.Possible(a, e, p.messages)
    requires e.ReleaseMessage? ==> CurrentComplete(a.receiver)
    requires e.AddHandshake? ==> |a.sent| < |a.delivered| + p.lead
    ensures D.Inv(D.Step(a, e)) && D.Step(a, e).sent == []
  {
    hide D.Inv, SealFrom;
    assert |a.delivered| == 0 by { NothingDelivered(a); }
    D.StepKeepsInv(a, e);
  }

  lemma NothingDelivered(a: D.System)
    requires D.Inv(a) && a.sent == []
    ensures a.delivered == []
  {
  }

  // Where replay protection ends.

  ghost predicate NoRepeats(processed: seq<Record>) {
    forall i: nat, j: nat | i < j < |processed| ::
      (processed[i].epoch, processed[i].number) != (processed[j].epoch, processed[j].number)
  }

  /** No run with at most `changes` changes of the read keys processes a record twice. */
  ghost predicate Replayless(changes: nat) {
    forall aead: Aead, events: seq<D.Event>, limit: nat |
      ValidAead(aead) && D.IsRun(D.Start(aead), events, limit) && ReadChanges(events) <= changes ::
      NoRepeats(D.Final(D.Start(aead), events, limit).processed)
  }

  lemma OneReadChange(e: D.Event)
    ensures CountOne(e).reading == if e.NewReadKeys? then 1 else 0
  {
  }

  lemma {:induction false} ReadChangesCount(events: seq<D.Event>)
    ensures ReadChanges(events) == CountsOf(events).reading
  {
    hide CountOne;
    if events != [] {
      ReadChangesCount(events[1..]);
      OneReadChange(events[0]);
    }
  }

  lemma IgnoresIt(r: Receiver)
    requires r == Waiting(1)
    ensures OpenHandshake(r, 100, HandshakeData, Whole(0)) == (r, Success)
  {
    hide Serialize;
    var whole := WholeMessage(EMPTY_MESSAGE, 0);
    ParseSerialize(whole, []);
    assert Whole(0) + [] == Whole(0);
    assert AddFragment(r, 100, whole) == (r, None);
    assert OpenRecord(r, 100, []) == (r, None);
  }

  /** Once the read epoch has gone around, the window has forgotten the record. */
  lemma ProcessesAgain()
    ensures exists b: D.System :: Reaches(D.Start(PLAIN), b, ONE, Counts(0, U16, 1)) && !NoRepeats(b.processed)
  {
    hide Reaches, Repeats, Whole, OpenHandshake;
    FirstHeard(1, ONE);
    Turning(Heard(1), 1, U16, ONE);
    var a := Turned(Heard(1), U16);
    ThenReaches(D.Start(PLAIN), Heard(1), a, ONE, Packets(1), Counts(0, U16, 0));
    InRepeats(0, 1);
    IgnoresIt(a.receiver);
    WholeLength(0);
    var e := D.Arrive(Carrier(0, 0), 100);
    StepReaches(a, e, ONE);
    var b := D.Step(a, e);
    assert b.processed == [Carrier(0, 0)] + [Carrier(0, 0)];
    ThenFree(D.Start(PLAIN), a, b, ONE, Counts(0, U16, 1));
    assert b.processed[0] == b.processed[1];
  }

  /** Replay protection holds exactly while the read keys change fewer than 2^16 times. */
  lemma ReplaylessExactlyBelowWrap(changes: nat)
    ensures Replayless(changes) <==> changes < U16
  {
    hide D.IsRun, D.Final, D.Start, ReadChanges, CountsOf;
    if changes < U16 {
      forall aead: Aead, events: seq<D.Event>, limit: nat |
        ValidAead(aead) && D.IsRun(D.Start(aead), events, limit) && ReadChanges(events) <= changes
        ensures NoRepeats(D.Final(D.Start(aead), events, limit).processed)
      {
        NothingProcessed(aead);
        StartsInEpochZero(aead);
        RunProcessesOnce(D.Start(aead), events, limit);
      }
    } else {
      ProcessesAgain();
      var b: D.System :| Reaches(D.Start(PLAIN), b, ONE, Counts(0, U16, 1)) && !NoRepeats(b.processed);
      var events :| PacedRun(D.Start(PLAIN), events, ONE) && D.Final(D.Start(PLAIN), events, 1) == b
                    && AtMost(CountsOf(events), Counts(0, U16, 1));
      ReadChangesCount(events);
      assert ValidAead(PLAIN);
    }
  }

  lemma StartsInEpochZero(aead: Aead)
    ensures D.Start(aead).receiver.epoch == 0
  {
  }
}
