/** What becomes of the records of the peer as they arrive: which get past the epoch filter and the replay
    window, whether reading survives them, and exactly when a message is complete. */
module DtlsAssembly {
  import opened Common
  import opened DtlsFragment
  import opened DtlsReceive
  import opened DtlsRing
  import opened DtlsRecords
  import opened DtlsFlight
  import opened DtlsCoverage
  import opened DtlsRecordLayer
  import opened DtlsProgress
  import D = DtlsDelivery

  /** A record arrives; the ideal cipher opens it to what was sealed. */
  function ReceiveOne(s: Received, maxLen: nat, x: Record): Received {
    Receive(s.window, s.receiver, s.reading, maxLen, x.epoch, D.FullNumber(x), x.typ, Some(x.payload))
  }

  /** Records arriving one after another. */
  function ReceiveAll(s: Received, maxLen: nat, arrived: seq<Record>): Received
    decreases |arrived|
  {
    if arrived == [] then s else ReceiveAll(ReceiveOne(s, maxLen, arrived[0]), maxLen, arrived[1..])
  }

  // Which records are admitted.

  predicate Admits(w: Window, epoch: nat, x: Record) {
    x.epoch == epoch && !Discards(w, D.FullNumber(x))
  }

  function Noticed(w: Window, epoch: nat, x: Record): Window {
    if Admits(w, epoch, x) then Note(w, D.FullNumber(x)) else w
  }

  /** Told from the numbers alone: the `k`-th record to arrive is admitted exactly if it is of the read
      epoch, the window lets it through at the start, and of those of its epoch that arrived before it
      none has its number and none is 64 or more ahead of it. */
  predicate Admitted(w: Window, epoch: nat, arrived: seq<Record>, k: nat)
    requires k < |arrived|
  {
    && Admits(w, epoch, arrived[k])
    && forall j: nat | j < k && arrived[j].epoch == epoch ::
         D.FullNumber(arrived[j]) != D.FullNumber(arrived[k])
         && D.FullNumber(arrived[j]) < D.FullNumber(arrived[k]) + WINDOW_SIZE
  }

  /** Nothing recorded is larger than the largest number. */
  ghost predicate SoundWindow(w: Window) {
    forall n: nat | n in w.recorded :: n <= w.maxSeq
  }

  /** Having dealt with the first record, the window admits of the others what it would have admitted. */
  lemma AdmittedTail(w: Window, epoch: nat, arrived: seq<Record>, k: nat)
    requires SoundWindow(w) && k + 1 < |arrived|
    ensures SoundWindow(Noticed(w, epoch, arrived[0]))
    ensures Admitted(Noticed(w, epoch, arrived[0]), epoch, arrived[1..], k) == Admitted(w, epoch, arrived, k + 1)
  {
    hide D.FullNumber;
    var v := Noticed(w, epoch, arrived[0]);
    if Admitted(v, epoch, arrived[1..], k) {
      forall j: nat | j < k + 1 && arrived[j].epoch == epoch
        ensures D.FullNumber(arrived[j]) != D.FullNumber(arrived[k + 1])
        ensures D.FullNumber(arrived[j]) < D.FullNumber(arrived[k + 1]) + WINDOW_SIZE
      {
        assert j > 0 ==> arrived[j] == arrived[1..][j - 1];
      }
    } else if Admitted(w, epoch, arrived, k + 1) {
      assert forall j: nat | j < k :: arrived[1..][j] == arrived[j + 1];
    }
  }

  /** Some admitted record is as `p` says. */
  ghost predicate SomeAdmitted(w: Window, epoch: nat, arrived: seq<Record>, p: Record -> bool) {
    exists k: nat :: k < |arrived| && Admitted(w, epoch, arrived, k) && p(arrived[k])
  }

  lemma SomeAdmittedSplits(w: Window, epoch: nat, arrived: seq<Record>, p: Record -> bool)
    requires SoundWindow(w) && arrived != []
    ensures SomeAdmitted(w, epoch, arrived, p) <==>
            || (Admits(w, epoch, arrived[0]) && p(arrived[0]))
            || SomeAdmitted(Noticed(w, epoch, arrived[0]), epoch, arrived[1..], p)
  {
    hide Admits, Noticed, Admitted, SoundWindow;
    var v, rest := Noticed(w, epoch, arrived[0]), arrived[1..];
    AdmittedFirst(w, epoch, arrived);
    if SomeAdmitted(w, epoch, arrived, p) {
      var k: nat :| k < |arrived| && Admitted(w, epoch, arrived, k) && p(arrived[k]);
      if k > 0 {
        AdmittedTail(w, epoch, arrived, k - 1);
        assert rest[k - 1] == arrived[k];
      }
    }
    if SomeAdmitted(v, epoch, rest, p) {
      var k: nat :| k < |rest| && Admitted(v, epoch, rest, k) && p(rest[k]);
      AdmittedTail(w, epoch, arrived, k);
      assert arrived[k + 1] == rest[k];
    }
  }

  lemma AdmittedFirst(w: Window, epoch: nat, arrived: seq<Record>)
    requires arrived != []
    ensures Admitted(w, epoch, arrived, 0) == Admits(w, epoch, arrived[0])
  {
  }

  // What an admitted record does.

  /** A record of the peer: a piece of one of its messages, a ChangeCipherSpec, or application data. */
  predicate OfPeer(sent: seq<Message>, x: Record) {
    || (x.typ == HandshakeData && D.GenuineRecord(sent, x))
    || (x.typ == ChangeCipherSpec && x.payload == CCS_PAYLOAD)
    || x.typ == ApplicationData
  }

  /** The record is one fragment of message `seqNo`. */
  predicate Names(r: Record, seqNo: nat) {
    r.typ == HandshakeData && OneFragment(r.payload).Some? && OneFragment(r.payload).value.seqNo == seqNo
  }

  /** The records of the peer that are fatal once admitted: an encrypted ChangeCipherSpec, application data
      that is not encrypted, a piece of too long a message, of any message but the one the encrypted epoch
      waits for, or of the message exactly one flight ahead; and any longer than a record may be. */
  predicate FatalAt(readSeq: nat, epoch: nat, maxLen: nat, x: Record) {
    || |x.payload| > MAX_PLAIN_LENGTH
    || (x.typ == ChangeCipherSpec && epoch != 0)
    || (x.typ == ApplicationData && epoch == 0)
    || (x.typ == HandshakeData && OneFragment(x.payload).Some? &&
        var f := OneFragment(x.payload).value;
        f.msgLen > maxLen || (epoch == 1 && f.seqNo != readSeq) || f.seqNo == readSeq + MAX_FLIGHT)
  }

  predicate Fatal(r: Receiver, maxLen: nat, x: Record) {
    FatalAt(r.readSeq, r.epoch, maxLen, x)
  }

  // What admitted records are asked.

  function Ending(r: Receiver, maxLen: nat): Record -> bool {
    EndingAt(r.readSeq, r.epoch, maxLen)
  }

  function EndingAt(readSeq: nat, epoch: nat, maxLen: nat): Record -> bool {
    x => FatalAt(readSeq, epoch, maxLen, x)
  }

  function Naming(seqNo: nat): Record -> bool {
    x => Names(x, seqNo)
  }

  function Carrying(seqNo: nat, i: nat): Record -> bool {
    x => CarriesByte(x, seqNo, i)
  }

  function IsCcs(): Record -> bool {
    (x: Record) => x.typ == ChangeCipherSpec
  }

  function Being(x: Record): Record -> bool {
    y => y == x
  }

  /** The state of a receiver of the peer's records that has not failed. */
  ghost predicate Receiving(sent: seq<Message>, s: Received) {
    RingInv(s.receiver) && D.AllFromPeer(sent, s.receiver) && SoundWindow(s.window) && s.reading.shutdown == Going
  }

  lemma StepKeepsSound(sys: D.System, e: D.Event, limit: nat)
    requires SoundWindow(sys.window) && D.Typed(sys) && D.Possible(sys, e, limit)
    requires e.ReleaseMessage? ==> CurrentComplete(sys.receiver)
    ensures SoundWindow(D.Step(sys, e).window)
  {
    hide D.FullNumber, SealFrom, OpenHandshake, Discards;
  }

  lemma {:induction false} RunKeepsSound(sys: D.System, events: seq<D.Event>, limit: nat)
    requires SoundWindow(sys.window) && D.IsRun(sys, events, limit)
    ensures SoundWindow(D.Final(sys, events, limit).window)
    decreases |events|
  {
    hide D.Step, SoundWindow, D.Typed, D.Possible;
    if events != [] {
      StepKeepsSound(sys, events[0], limit);
      RunKeepsSound(D.Step(sys, events[0]), events[1..], limit);
    }
  }

  /** After every run of a connection whose reading goes on. */
  lemma RunsReceive(aead: Aead, events: seq<D.Event>)
    requires ValidAead(aead) && D.IsRun(D.Start(aead), events, U16 - 1)
    ensures var end := D.Final(D.Start(aead), events, U16 - 1);
            end.reading.shutdown == Going ==>
              Receiving(end.sent, Received(end.window, end.receiver, end.reading, Discard))
  {
    hide D.IsRun, D.Final, D.SenderInv, RingInv, D.AllFromPeer;
    D.StartInv(aead);
    D.RunKeepsInv(D.Start(aead), events);
    RunKeepsSound(D.Start(aead), events, U16 - 1);
  }

  predicate SamePlace(r: Receiver, n: Receiver) {
    n.readSeq == r.readSeq && n.epoch == r.epoch
  }

  /** One record of the peer to the handshake: whether it is an error, and what it leaves as it was. */
  lemma OpenOne(sent: seq<Message>, r: Receiver, maxLen: nat, x: Record)
    requires RingInv(r) && D.AllFromPeer(sent, r) && OfPeer(sent, x) && |x.payload| <= MAX_PLAIN_LENGTH
    ensures var (n, outcome) := OpenHandshake(r, maxLen, x.typ, x.payload);
            && RingInv(n) && D.AllFromPeer(sent, n) && SamePlace(r, n)
            && (outcome.Error? <==> Fatal(r, maxLen, x)) && (outcome.Error? ==> n == r)
  {
    if x.typ == ChangeCipherSpec {
      D.RingIgnoresCcs(sent, r, true);
    } else if x.typ == HandshakeData {
      D.OpenGenuine(sent, r, maxLen, x);
      hide RingInv, D.AllFromPeer;
      var p := ParseFragment(x.payload).value;
      ParsedFits(x.payload);
      GenuineRefusals(sent, r, maxLen, p.0);
      assert OpenRecord(AddFragment(r, maxLen, p.0).0, maxLen, []) == (AddFragment(r, maxLen, p.0).0, None);
    }
  }

  /** Of a wanted message, exactly what was held or is carried is held afterwards. */
  lemma OpenHolds(sent: seq<Message>, r: Receiver, maxLen: nat, x: Record, seqNo: nat, i: nat)
    requires RingInv(r) && D.AllFromPeer(sent, r) && OfPeer(sent, x) && Wanted(r, seqNo)
    requires !Fatal(r, maxLen, x)
    ensures var n := OpenHandshake(r, maxLen, x.typ, x.payload).0;
            && (Begun(n, seqNo) <==> Begun(r, seqNo) || Names(x, seqNo))
            && (Holds(n, seqNo, i) <==> Holds(r, seqNo, i) || CarriesByte(x, seqNo, i))
  {
    if x.typ == HandshakeData {
      hide RingInv, D.AllFromPeer, Wanted, Holds, Begun;
      var p := ParseFragment(x.payload).value;
      ParsedFits(x.payload);
      AddFragmentHolds(sent, r, maxLen, p.0, seqNo, i);
      assert OpenRecord(AddFragment(r, maxLen, p.0).0, maxLen, []).0 == AddFragment(r, maxLen, p.0).0;
    }
  }

  /** A record of the peer arrives: it is dropped unnoticed, ends reading for good, or is opened. */
  lemma OneArrives(sent: seq<Message>, s: Received, maxLen: nat, x: Record)
    requires Receiving(sent, s) && OfPeer(sent, x)
    ensures var n := ReceiveOne(s, maxLen, x);
            var r := s.receiver;
            && RingInv(n.receiver) && D.AllFromPeer(sent, n.receiver) && SamePlace(r, n.receiver)
            && (!Admits(s.window, r.epoch, x) ==>
                  n.receiver == r && n.window == s.window && n.reading == s.reading)
            && (Admits(s.window, r.epoch, x) && Fatal(r, maxLen, x) ==>
                  n.receiver == r && n.reading.shutdown.Failed?)
            && (Admits(s.window, r.epoch, x) && !Fatal(r, maxLen, x) ==>
                  n.receiver == OpenHandshake(r, maxLen, x.typ, x.payload).0
                  && n.window == Noticed(s.window, r.epoch, x) && n.reading == FRESH_READING)
  {
    hide RingInv, D.AllFromPeer, OpenHandshake, D.FullNumber, Discards, OfPeer;
    if Admits(s.window, s.receiver.epoch, x) && |x.payload| <= MAX_PLAIN_LENGTH {
      OpenOne(sent, s.receiver, maxLen, x);
      NoAlertOfPeer(sent, x);
    }
  }

  lemma NoAlertOfPeer(sent: seq<Message>, x: Record)
    requires OfPeer(sent, x)
    ensures x.typ != AlertRecord
  {
  }

  /** After a fatal record nothing is read. */
  lemma {:induction false} FailedForGood(s: Received, maxLen: nat, arrived: seq<Record>)
    requires s.reading.shutdown.Failed?
    ensures var n := ReceiveAll(s, maxLen, arrived);
            n.receiver == s.receiver && n.reading == s.reading && n.window == s.window
    decreases |arrived|
  {
    hide D.FullNumber;
    if arrived != [] {
      FailedForGood(ReceiveOne(s, maxLen, arrived[0]), maxLen, arrived[1..]);
    }
  }

  // What all of them do.

  /** Reading survives exactly if no fatal record is admitted. */
  lemma {:induction false} ReadingSurvives(sent: seq<Message>, s: Received, maxLen: nat, arrived: seq<Record>)
    requires Receiving(sent, s) && forall x | x in arrived :: OfPeer(sent, x)
    ensures var n := ReceiveAll(s, maxLen, arrived);
            var fatal := Ending(s.receiver, maxLen);
            && (n.reading.shutdown == Going || n.reading.shutdown.Failed?)
            && (n.reading.shutdown == Going <==> !SomeAdmitted(s.window, s.receiver.epoch, arrived, fatal))
            && RingInv(n.receiver) && D.AllFromPeer(sent, n.receiver) && SamePlace(s.receiver, n.receiver)
    decreases |arrived|
  {
    hide RingInv, D.AllFromPeer, OfPeer, ReceiveOne, FatalAt, Admits, Noticed, SomeAdmitted, SoundWindow;
    if arrived != [] {
      var fatal := Ending(s.receiver, maxLen);
      assert arrived[0] in arrived;
      OneArrives(sent, s, maxLen, arrived[0]);
      SomeAdmittedSplits(s.window, s.receiver.epoch, arrived, fatal);
      var n := ReceiveOne(s, maxLen, arrived[0]);
      NoticedSound(s.window, s.receiver.epoch, arrived[0]);
      if n.reading.shutdown.Failed? {
        FailedForGood(n, maxLen, arrived[1..]);
      } else {
        ReadingSurvives(sent, n, maxLen, arrived[1..]);
      }
    } else {
      NoneAdmitted(s.window, s.receiver.epoch, Ending(s.receiver, maxLen));
    }
  }

  lemma NoneAdmitted(w: Window, epoch: nat, p: Record -> bool)
    ensures !SomeAdmitted(w, epoch, [], p)
  {
  }

  lemma NoticedSound(w: Window, epoch: nat, x: Record)
    requires SoundWindow(w)
    ensures SoundWindow(Noticed(w, epoch, x)) && (!Admits(w, epoch, x) ==> Noticed(w, epoch, x) == w)
  {
    hide D.FullNumber;
  }

  /** Reading ends at the first fatal record that is admitted; what was assembled before it stays. */
  lemma {:induction false} StopsAtFirstFatal(sent: seq<Message>, s: Received, maxLen: nat, arrived: seq<Record>, k: nat)
    requires Receiving(sent, s) && (forall x | x in arrived :: OfPeer(sent, x))
    requires k < |arrived| && Admitted(s.window, s.receiver.epoch, arrived, k)
    requires Fatal(s.receiver, maxLen, arrived[k])
    requires forall j: nat | j < k && Admitted(s.window, s.receiver.epoch, arrived, j) ::
               !Fatal(s.receiver, maxLen, arrived[j])
    ensures ReceiveAll(s, maxLen, arrived).reading.shutdown.Failed?
    ensures ReceiveAll(s, maxLen, arrived).receiver == ReceiveAll(s, maxLen, arrived[..k]).receiver
    ensures ReceiveAll(s, maxLen, arrived[..k]).reading.shutdown == Going
    decreases |arrived|
  {
    hide RingInv, D.AllFromPeer, OfPeer, ReceiveOne, FatalAt, Admits, Noticed, Admitted, SoundWindow;
    var w, epoch := s.window, s.receiver.epoch;
    assert arrived[0] in arrived;
    OneArrives(sent, s, maxLen, arrived[0]);
    AdmittedFirst(w, epoch, arrived);
    var n := ReceiveOne(s, maxLen, arrived[0]);
    if k == 0 {
      FailedForGood(n, maxLen, arrived[1..]);
    } else {
      NoticedSound(w, epoch, arrived[0]);
      forall j: nat | j < k
        ensures Admitted(n.window, epoch, arrived[1..], j) == Admitted(w, epoch, arrived, j + 1)
        ensures arrived[1..][j] == arrived[j + 1]
      {
        AdmittedTail(w, epoch, arrived, j);
      }
      StopsAtFirstFatal(sent, n, maxLen, arrived[1..], k - 1);
      assert arrived[..k][1..] == arrived[1..][..k - 1];
    }
  }

  /** Unless a fatal record is admitted: of a wanted message, exactly the bytes held before and those that
      some admitted record carries are held. */
  lemma {:induction false} HeldExactly(sent: seq<Message>, s: Received, maxLen: nat, arrived: seq<Record>,
                                       seqNo: nat, i: nat)
    requires Receiving(sent, s) && Wanted(s.receiver, seqNo) && (forall x | x in arrived :: OfPeer(sent, x))
    requires !SomeAdmitted(s.window, s.receiver.epoch, arrived,
                           Ending(s.receiver, maxLen))
    ensures var r, n := s.receiver, ReceiveAll(s, maxLen, arrived).receiver;
            && (Holds(n, seqNo, i) <==>
                  Holds(r, seqNo, i) || SomeAdmitted(s.window, r.epoch, arrived, Carrying(seqNo, i)))
            && (Begun(n, seqNo) <==>
                  Begun(r, seqNo) || SomeAdmitted(s.window, r.epoch, arrived, Naming(seqNo)))
    decreases |arrived|
  {
    hide RingInv, D.AllFromPeer, OfPeer, ReceiveOne, FatalAt, Admits, Noticed, SomeAdmitted, SoundWindow, Holds, Begun,
         CarriesByte, Names, OpenHandshake;
    var w, r := s.window, s.receiver;
    var fatal := Ending(r, maxLen);
    if arrived != [] {
      var x := arrived[0];
      assert x in arrived;
      SomeAdmittedSplits(w, r.epoch, arrived, fatal);
      SomeAdmittedSplits(w, r.epoch, arrived, Carrying(seqNo, i));
      SomeAdmittedSplits(w, r.epoch, arrived, Naming(seqNo));
      OneArrives(sent, s, maxLen, x);
      if Admits(w, r.epoch, x) {
        OpenHolds(sent, r, maxLen, x, seqNo, i);
      }
      NoticedSound(w, r.epoch, x);
      HeldExactly(sent, ReceiveOne(s, maxLen, x), maxLen, arrived[1..], seqNo, i);
    } else {
      NoneAdmitted(w, r.epoch, Carrying(seqNo, i));
      NoneAdmitted(w, r.epoch, Naming(seqNo));
    }
  }

  /** A ChangeCipherSpec that is admitted is kept until it is asked for, and nothing else is taken for one;
      nothing is handed out meanwhile. */
  lemma {:induction false} CcsKeptExactly(sent: seq<Message>, s: Received, maxLen: nat, arrived: seq<Record>)
    requires Receiving(sent, s) && (forall x | x in arrived :: OfPeer(sent, x))
    requires !SomeAdmitted(s.window, s.receiver.epoch, arrived, Ending(s.receiver, maxLen))
    ensures var r, n := s.receiver, ReceiveAll(s, maxLen, arrived).receiver;
            && (n.hasCcs <==> r.hasCcs || SomeAdmitted(s.window, r.epoch, arrived, IsCcs()))
            && n.hasMessage == r.hasMessage
    decreases |arrived|
  {
    hide RingInv, D.AllFromPeer, OfPeer, ReceiveOne, FatalAt, Admits, Noticed, SomeAdmitted, SoundWindow, OpenRecord;
    var w, r := s.window, s.receiver;
    if arrived != [] {
      var x := arrived[0];
      assert x in arrived;
      SomeAdmittedSplits(w, r.epoch, arrived, Ending(r, maxLen));
      SomeAdmittedSplits(w, r.epoch, arrived, IsCcs());
      OneArrives(sent, s, maxLen, x);
      if Admits(w, r.epoch, x) {
        CcsOpens(sent, r, maxLen, x);
      }
      NoticedSound(w, r.epoch, x);
      CcsKeptExactly(sent, ReceiveOne(s, maxLen, x), maxLen, arrived[1..]);
    } else {
      NoneAdmitted(w, r.epoch, IsCcs());
    }
  }

  lemma CcsOpens(sent: seq<Message>, r: Receiver, maxLen: nat, x: Record)
    requires OfPeer(sent, x) && !Fatal(r, maxLen, x)
    ensures var n := OpenHandshake(r, maxLen, x.typ, x.payload).0;
            n.hasCcs == (r.hasCcs || x.typ == ChangeCipherSpec) && n.hasMessage == r.hasMessage
  {
    hide OneFragment, OpenRecord;
  }

  /** The message is there, every byte of it. */
  predicate Assembled(r: Receiver, seqNo: nat) {
    Begun(r, seqNo) && Complete(r.slots[Slot(seqNo)].value)
  }

  lemma AssembledMeans(sent: seq<Message>, r: Receiver, seqNo: nat)
    requires RingInv(r) && D.AllFromPeer(sent, r) && seqNo < |sent|
    ensures Assembled(r, seqNo) <==>
            Begun(r, seqNo) && forall i: nat | i < |sent[seqNo].body| :: Holds(r, seqNo, i)
  {
    hide RingInv;
    if Begun(r, seqNo) {
      var m := r.slots[Slot(seqNo)].value;
      assert D.FromPeer(sent, m);
      if forall i: nat | i < m.msgLen :: Holds(r, seqNo, i) {
        forall i: nat
          ensures i in m.got.Keys <==> i in Range(0, m.msgLen)
        {
          assert i < m.msgLen ==> Holds(r, seqNo, i);
        }
        assert m.got.Keys == Range(0, m.msgLen);
      }
    }
  }

  /** Whatever records of the peer arrive, in whatever order: reading survives exactly if no fatal one is
      admitted, and then a wanted message is complete exactly if each of its bytes was held or is carried by
      a record that is admitted. */
  lemma AssembledExactly(sent: seq<Message>, s: Received, maxLen: nat, arrived: seq<Record>, seqNo: nat)
    requires Receiving(sent, s) && (forall x | x in arrived :: OfPeer(sent, x))
    requires Wanted(s.receiver, seqNo) && seqNo < |sent|
    ensures var w, r, n := s.window, s.receiver, ReceiveAll(s, maxLen, arrived);
            && (n.reading.shutdown == Going <==>
                  !SomeAdmitted(w, r.epoch, arrived, Ending(r, maxLen)))
            && (n.reading.shutdown == Going ==>
                  (Assembled(n.receiver, seqNo) <==>
                     && (Begun(r, seqNo) || SomeAdmitted(w, r.epoch, arrived, Naming(seqNo)))
                     && forall i: nat | i < |sent[seqNo].body| ::
                          Holds(r, seqNo, i) || SomeAdmitted(w, r.epoch, arrived, Carrying(seqNo, i))))
  {
    hide RingInv, D.AllFromPeer, OfPeer, FatalAt, SomeAdmitted, SoundWindow, Holds, Begun, CarriesByte, Names,
         Assembled, Wanted;
    ReadingSurvives(sent, s, maxLen, arrived);
    var w, r, n := s.window, s.receiver, ReceiveAll(s, maxLen, arrived);
    if n.reading.shutdown == Going {
      AssembledMeans(sent, n.receiver, seqNo);
      HeldExactly(sent, s, maxLen, arrived, seqNo, 0);
      forall i: nat
        ensures Holds(n.receiver, seqNo, i) <==>
                Holds(r, seqNo, i) || SomeAdmitted(w, r.epoch, arrived, Carrying(seqNo, i))
      {
        HeldExactly(sent, s, maxLen, arrived, seqNo, i);
      }
    }
  }

  // Among forged records.

  function FromNetwork(x: Record): Arrived {
    Arrived(x.epoch, D.FullNumber(x), x.typ, Some(x.payload))
  }

  function AllFromNetwork(records: seq<Record>): (arrived: seq<Arrived>)
    ensures |arrived| == |records|
  {
    if records == [] then [] else [FromNetwork(records[0])] + AllFromNetwork(records[1..])
  }

  lemma {:induction false} EachIsAll(s: Received, maxLen: nat, records: seq<Record>)
    ensures ReceiveEach(s, maxLen, AllFromNetwork(records)) == ReceiveAll(s, maxLen, records)
    decreases |records|
  {
    hide Receive, D.FullNumber;
    if records != [] {
      assert AllFromNetwork(records)[1..] == AllFromNetwork(records[1..]);
      EachIsAll(ReceiveOne(s, maxLen, records[0]), maxLen, records[1..]);
    }
  }

  /** Whatever records nobody of the peer's sealed come between them, the peer's are received as if they had
      come alone. */
  lemma ForgeriesAside(s: Received, maxLen: nat, records: seq<Record>, arrived: seq<Arrived>)
    requires Accepted(arrived) == AllFromNetwork(records)
    ensures Kept(ReceiveEach(s, maxLen, arrived)) == Kept(ReceiveAll(s, maxLen, records))
  {
    ForgeriesChangeNothing(s, maxLen, arrived);
    EachIsAll(s, maxLen, records);
  }

  // Flights.

  lemma {:induction false} CarriedBySome(records: seq<Record>, seqNo: nat, i: nat)
    requires TimesCarried(records, seqNo, i) > 0
    ensures exists r :: r in records && CarriesByte(r, seqNo, i)
  {
    if CarriesByte(records[0], seqNo, i) {
      assert records[0] in records;
    } else {
      CarriedBySome(records[1..], seqNo, i);
      var r :| r in records[1..] && CarriesByte(r, seqNo, i);
      assert r in records;
    }
  }

  /** Following a flight to its end meets a fragment of each of its messages. */
  lemma {:induction false} MetBySome(flight: seq<Outgoing>, pos: Position, records: seq<Record>, k: nat)
    requires IsMessage(flight, k) && pos.index <= k
    requires FollowAll(flight, pos, records) == Some(Position(|flight|, 0))
    ensures exists r :: r in records && Names(r, MessageAt(flight, k).seqNo)
    decreases |records|
  {
    hide OneFragment, StoredMessage;
    var next := Follow(flight, pos, records[0]).value;
    if next.index > k || pos.index == k {
      assert records[0] in records;
    } else {
      MetBySome(flight, next, records[1..], k);
      var r :| r in records[1..] && Names(r, MessageAt(flight, k).seqNo);
      assert r in records;
    }
  }

  /** A record with a parsable fragment that is a piece of a flight is a handshake record. */
  lemma {:induction false} FollowedAreTyped(flight: seq<Outgoing>, pos: Position, records: seq<Record>)
    requires FollowAll(flight, pos, records).Some?
    ensures forall r | r in records && OneFragment(r.payload).Some? :: r.typ == HandshakeData
    decreases |records|
  {
    if records != [] {
      FollowedAreTyped(flight, Follow(flight, pos, records[0]).value, records[1..]);
      assert OneFragment(CCS_PAYLOAD).None?;
    }
  }

  lemma LengthFromHistory(sent: seq<Message>, flight: seq<Outgoing>, k: nat)
    requires IsMessage(flight, k) && D.FromHistory(sent, flight[k])
    ensures var f := MessageAt(flight, k); f.seqNo < |sent| && |sent[f.seqNo].body| == |f.body|
  {
  }

  lemma AdmittedMeets(w: Window, epoch: nat, arrived: seq<Record>, x: Record, p: Record -> bool)
    requires SomeAdmitted(w, epoch, arrived, Being(x)) && p(x)
    ensures SomeAdmitted(w, epoch, arrived, p)
  {
  }

  lemma CarrierNames(x: Record, seqNo: nat, i: nat)
    requires CarriesByte(x, seqNo, i)
    ensures Names(x, seqNo)
  {
  }

  /** A flight is sent in full, and of one of its messages, which the receiver wants, every record is
      admitted among whatever else arrives: the message is complete, unless reading ends. */
  lemma FlightAssembles(sent: seq<Message>, s: Received, maxLen: nat, flight: seq<Outgoing>,
                        records: seq<Record>, arrived: seq<Record>, k: nat)
    requires Receiving(sent, s) && (forall x | x in arrived :: OfPeer(sent, x))
    requires forall j: nat | j < |flight| :: D.FromHistory(sent, flight[j])
    requires NumberedApart(flight) && IsMessage(flight, k) && Wanted(s.receiver, MessageAt(flight, k).seqNo)
    requires FollowAll(flight, Position(0, 0), records) == Some(Position(|flight|, 0))
    requires forall x | x in records && Names(x, MessageAt(flight, k).seqNo) ::
               SomeAdmitted(s.window, s.receiver.epoch, arrived, Being(x))
    ensures var w, r, n := s.window, s.receiver, ReceiveAll(s, maxLen, arrived);
            && (n.reading.shutdown == Going <==>
                  !SomeAdmitted(w, r.epoch, arrived, Ending(r, maxLen)))
            && (n.reading.shutdown == Going ==> Assembled(n.receiver, MessageAt(flight, k).seqNo))
  {
    var f := MessageAt(flight, k);
    var w, epoch := s.window, s.receiver.epoch;
    LengthFromHistory(sent, flight, k);
    hide RingInv, D.AllFromPeer, D.FromHistory, CarriesByte, Names, Holds, Begun, IsMessage, Wanted, OfPeer, FatalAt,
         SomeAdmitted, Assembled, SoundWindow;
    AssembledExactly(sent, s, maxLen, arrived, f.seqNo);
    MetBySome(flight, Position(0, 0), records, k);
    var x :| x in records && Names(x, f.seqNo);
    AdmittedMeets(w, epoch, arrived, x, Naming(f.seqNo));
    forall i: nat | i < |f.body|
      ensures SomeAdmitted(w, epoch, arrived, Carrying(f.seqNo, i))
    {
      RestCarriedOnce(flight, Position(0, 0), records, k, i);
      CarriedBySome(records, f.seqNo, i);
      var y :| y in records && CarriesByte(y, f.seqNo, i);
      CarrierNames(y, f.seqNo, i);
      AdmittedMeets(w, epoch, arrived, y, Carrying(f.seqNo, i));
    }
  }
}
