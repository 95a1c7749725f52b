/** The reading record layer on values: epoch filter, replay window as a set of numbers, and the
    handshake records behind them (section 4.1.2.6 of RFC 6347). */
module DtlsRecordLayer {
  import opened Common
  import opened DtlsFragment
  import opened DtlsReceive

  const WINDOW_SIZE: nat := 64
  const MAX_PLAIN_LENGTH: nat := 16384

  /** The window as a set: the numbers recorded and the largest of them (zero at first). */
  datatype Window = Window(recorded: set<nat>, maxSeq: nat)

  const FRESH_WINDOW: Window := Window({}, 0)

  /** Replayed, or too old to tell. */
  predicate Discards(w: Window, n: nat) {
    n in w.recorded || n + WINDOW_SIZE <= w.maxSeq
  }

  function Note(w: Window, n: nat): Window {
    Window(w.recorded + {n}, if n > w.maxSeq then n else w.maxSeq)
  }

  /** read_shutdown: reading goes on, was closed by the peer, or has failed for good. */
  datatype Shutdown = Going | Closed | Failed

  /** Whether reading goes on, and the warning alerts since the last other record. */
  datatype Reading = Reading(shutdown: Shutdown, warnings: nat)

  const FRESH_READING: Reading := Reading(Going, 0)
  const MAX_WARNINGS: nat := 4

  /** ssl_process_alert. */
  function ProcessAlert(a: Reading, body: seq<Byte>): (Reading, Outcome) {
    if |body| != 2 then (a, Error(DecodeError))
    else if body[0] == 1 then
      if body[1] == 0 then (a.(shutdown := Closed), CloseNotify)
      else (a.(warnings := a.warnings + 1), if a.warnings >= MAX_WARNINGS then Error(UnexpectedMessage) else Discard)
    else (a, Error(if body[0] == 2 then NoAlert else IllegalParameter))
  }

  /** What a record leaves behind: the window, the handshake state, the reading state, and the result. */
  datatype Received = Received(window: Window, receiver: Receiver, reading: Reading, outcome: Outcome)

  /** ssl_set_read_error: an error ends reading for good. */
  function Noted(a: Reading, outcome: Outcome): Reading {
    if outcome.Error? then a.(shutdown := Failed) else a
  }

  /** ssl_open_handshake on one record: dtls_open_record, on a well-formed header with the connection's
      version, followed by dtls1_open_handshake. `number` is the header's 64-bit number, whose top 16
      bits are `epoch`; `plaintext` is what the cipher made of the body. */
  function Receive(w: Window, r: Receiver, a: Reading, maxLen: nat, epoch: nat, number: nat, typ: ContentType,
                   plaintext: Option<seq<Byte>>): (res: Received)
  {
    if a.shutdown == Failed then Received(w, r, a, Error(NoAlert))
    else if a.shutdown == Closed then Received(w, r, a, CloseNotify)
    else if epoch != r.epoch || Discards(w, number) || plaintext.None? then Received(w, r, a, Discard)
    else if |plaintext.value| > MAX_PLAIN_LENGTH then
      Received(w, r, Noted(a, Error(RecordOverflow)), Error(RecordOverflow))
    else if typ == AlertRecord then
      var (b, outcome) := ProcessAlert(a, plaintext.value);
      Received(Note(w, number), r, Noted(b, outcome), outcome)
    else
      var (next, outcome) := OpenHandshake(r, maxLen, typ, plaintext.value);
      Received(Note(w, number), next, Noted(a.(warnings := 0), outcome), outcome)
  }

  // Records that do not get through.

  /** A record of another epoch, one replayed or too old, or one the cipher rejects. */
  predicate Rejected(w: Window, r: Receiver, epoch: nat, number: nat, plaintext: Option<seq<Byte>>) {
    epoch != r.epoch || Discards(w, number) || plaintext.None?
  }

  /** Anybody can send a record that is rejected. While reading goes on it is dropped, and neither the window
      nor the handshake nor the count of warnings knows of it; when reading is over nothing changes either. */
  lemma RejectedChangesNothing(w: Window, r: Receiver, a: Reading, maxLen: nat, epoch: nat, number: nat,
                               typ: ContentType, plaintext: Option<seq<Byte>>)
    requires Rejected(w, r, epoch, number, plaintext)
    ensures var n := Receive(w, r, a, maxLen, epoch, number, typ, plaintext);
            && n.window == w && n.receiver == r && n.reading == a
            && (a.shutdown == Going ==> n.outcome == Discard)
  {
  }

  /** A record from the network: its header, and what the cipher makes of its body. */
  datatype Arrived = Arrived(epoch: nat, number: nat, typ: ContentType, plaintext: Option<seq<Byte>>)

  function ReceiveEach(s: Received, maxLen: nat, arrived: seq<Arrived>): Received
    decreases |arrived|
  {
    if arrived == [] then s
    else
      var x := arrived[0];
      ReceiveEach(Receive(s.window, s.receiver, s.reading, maxLen, x.epoch, x.number, x.typ, x.plaintext), maxLen,
                  arrived[1..])
  }

  /** All but the last outcome. */
  function Kept(s: Received): (Window, Receiver, Reading) {
    (s.window, s.receiver, s.reading)
  }

  lemma {:induction false} ReceiveAppend(s: Received, maxLen: nat, a: seq<Arrived>, b: seq<Arrived>)
    ensures ReceiveEach(s, maxLen, a + b) == ReceiveEach(ReceiveEach(s, maxLen, a), maxLen, b)
    decreases |a|
  {
    hide Receive;
    if a == [] {
      assert a + b == b;
    } else {
      assert (a + b)[1..] == a[1..] + b;
      var x := a[0];
      ReceiveAppend(Receive(s.window, s.receiver, s.reading, maxLen, x.epoch, x.number, x.typ, x.plaintext), maxLen,
                    a[1..], b);
    }
  }

  lemma {:induction false} OutcomeAside(s: Received, t: Received, maxLen: nat, arrived: seq<Arrived>)
    requires Kept(s) == Kept(t)
    ensures Kept(ReceiveEach(s, maxLen, arrived)) == Kept(ReceiveEach(t, maxLen, arrived))
  {
    hide Receive;
    assert arrived != [] ==> ReceiveEach(s, maxLen, arrived) == ReceiveEach(t, maxLen, arrived);
  }

  /** Wherever among the arrivals a rejected record comes, all that follows is as without it. */
  lemma RejectedAnywhere(s: Received, maxLen: nat, a: seq<Arrived>, x: Arrived, b: seq<Arrived>)
    requires var m := ReceiveEach(s, maxLen, a); Rejected(m.window, m.receiver, x.epoch, x.number, x.plaintext)
    ensures Kept(ReceiveEach(s, maxLen, a + [x] + b)) == Kept(ReceiveEach(s, maxLen, a + b))
  {
    hide Receive, Rejected;
    var m := ReceiveEach(s, maxLen, a);
    var n := Receive(m.window, m.receiver, m.reading, maxLen, x.epoch, x.number, x.typ, x.plaintext);
    RejectedChangesNothing(m.window, m.receiver, m.reading, maxLen, x.epoch, x.number, x.typ, x.plaintext);
    ReceiveAppend(s, maxLen, a, [x] + b);
    ReceiveAppend(s, maxLen, a, b);
    assert a + [x] + b == a + ([x] + b) && ([x] + b)[1..] == b;
    OutcomeAside(m, n, maxLen, b);
  }

  /** The records the cipher accepts. */
  function Accepted(arrived: seq<Arrived>): (kept: seq<Arrived>)
    ensures forall x | x in kept :: x.plaintext.Some?
  {
    if arrived == [] then []
    else (if arrived[0].plaintext.Some? then [arrived[0]] else []) + Accepted(arrived[1..])
  }

  /** Forged records, however many and whatever their numbers, change nothing that is received. */
  lemma {:induction false} ForgeriesChangeNothing(s: Received, maxLen: nat, arrived: seq<Arrived>)
    ensures Kept(ReceiveEach(s, maxLen, arrived)) == Kept(ReceiveEach(s, maxLen, Accepted(arrived)))
    decreases |arrived|
  {
    hide Receive;
    if arrived != [] {
      var x := arrived[0];
      var n := Receive(s.window, s.receiver, s.reading, maxLen, x.epoch, x.number, x.typ, x.plaintext);
      ForgeriesChangeNothing(n, maxLen, arrived[1..]);
      if x.plaintext.None? {
        RejectedChangesNothing(s.window, s.receiver, s.reading, maxLen, x.epoch, x.number, x.typ, x.plaintext);
        OutcomeAside(s, n, maxLen, Accepted(arrived[1..]));
        assert Accepted(arrived) == Accepted(arrived[1..]);
      } else {
        assert Accepted(arrived) == [x] + Accepted(arrived[1..]);
        assert Accepted(arrived)[1..] == Accepted(arrived[1..]);
      }
    }
  }

  /** Once reading is over, whatever arrives, nothing changes and the answer stays the same. */
  lemma {:induction false} ShutForGood(s: Received, maxLen: nat, arrived: seq<Arrived>)
    requires s.reading.shutdown != Going
    ensures var end := ReceiveEach(s, maxLen, arrived);
            && Kept(end) == Kept(s)
            && (arrived != [] ==> end.outcome == if s.reading.shutdown == Closed then CloseNotify else Error(NoAlert))
    decreases |arrived|
  {
    if arrived != [] {
      var x := arrived[0];
      ShutForGood(Receive(s.window, s.receiver, s.reading, maxLen, x.epoch, x.number, x.typ, x.plaintext), maxLen,
                  arrived[1..]);
    }
  }

  // Alerts.

  /** A warning that is put up with: not the closing one, and no more than four in a row. */
  predicate Tolerated(body: seq<Byte>, warnings: nat) {
    |body| == 2 && body[0] == 1 && body[1] != 0 && warnings < MAX_WARNINGS
  }

  /** The first alert of a row that is not, `warnings` having come before. */
  function FirstDecisive(bodies: seq<seq<Byte>>, warnings: nat): (k: nat)
    ensures k <= |bodies| && (forall j: nat | j < k :: Tolerated(bodies[j], warnings + j))
    ensures k < |bodies| ==> !Tolerated(bodies[k], warnings + k)
  {
    if bodies == [] || !Tolerated(bodies[0], warnings) then 0 else 1 + FirstDecisive(bodies[1..], warnings + 1)
  }

  /** What the alert that decides does: the closing one ends reading in order, any other ends it for good,
      with an alert in answer to what is malformed, unknown or one warning too many, and none to a fatal one. */
  function Verdict(body: seq<Byte>): (Shutdown, Outcome) {
    if body == [1, 0] then (Closed, CloseNotify)
    else (Failed, Error(if |body| != 2 then DecodeError
                        else if body[0] == 1 then UnexpectedMessage
                        else if body[0] == 2 then NoAlert else IllegalParameter))
  }

  /** Alert records that arrive one after another, numbered from `first` on. */
  function Alerts(epoch: nat, bodies: seq<seq<Byte>>, first: nat): (arrived: seq<Arrived>)
    ensures |arrived| == |bodies|
  {
    if bodies == [] then []
    else [Arrived(epoch, first, AlertRecord, Some(bodies[0]))] + Alerts(epoch, bodies[1..], first + 1)
  }

  /** Alerts, in whatever number, never touch the handshake; warnings are counted, and the first alert that is
      not put up with decides how reading ends. */
  lemma {:induction false} AlertsDecide(s: Received, maxLen: nat, bodies: seq<seq<Byte>>, first: nat)
    requires s.reading.shutdown == Going && s.reading.warnings <= MAX_WARNINGS
    requires forall n: nat | n >= first :: !Discards(s.window, n) && n > s.window.maxSeq
    requires forall k: nat | k < |bodies| :: |bodies[k]| <= MAX_PLAIN_LENGTH
    ensures var end := ReceiveEach(s, maxLen, Alerts(s.receiver.epoch, bodies, first));
            var k := FirstDecisive(bodies, s.reading.warnings);
            && end.receiver == s.receiver
            && (k == |bodies| ==> end.reading == Reading(Going, s.reading.warnings + |bodies|))
            && (k < |bodies| ==>
                  && end.reading.shutdown == Verdict(bodies[k]).0
                  && (k + 1 == |bodies| ==> end.outcome == Verdict(bodies[k]).1))
    decreases |bodies|
  {
    if bodies != [] {
      var x := Arrived(s.receiver.epoch, first, AlertRecord, Some(bodies[0]));
      var next := Receive(s.window, s.receiver, s.reading, maxLen, x.epoch, x.number, x.typ, x.plaintext);
      assert Alerts(s.receiver.epoch, bodies, first)[1..] == Alerts(s.receiver.epoch, bodies[1..], first + 1);
      assert !Discards(s.window, first);
      assert next.reading.shutdown == Going <==> Tolerated(bodies[0], s.reading.warnings);
      if next.reading.shutdown == Going {
        forall n: nat | n >= first + 1
          ensures !Discards(next.window, n) && n > next.window.maxSeq
        {
          assert !Discards(s.window, n);
        }
        AlertsDecide(next, maxLen, bodies[1..], first + 1);
      } else {
        ShutForGood(next, maxLen, Alerts(s.receiver.epoch, bodies[1..], first + 1));
      }
    }
  }
}
