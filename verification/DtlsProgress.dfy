/** Beside safety: what a fragment of the peer does to the messages being assembled, and that each record is
    processed at most once. */
module DtlsProgress {
  import opened Common
  import opened DtlsFragment
  import opened DtlsReceive
  import opened DtlsRing
  import opened DtlsRecords
  import opened DtlsFlight
  import opened DtlsCoverage
  import opened DtlsRecordLayer
  import D = DtlsDelivery

  /** The receiver takes fragments of message `seqNo` now. */
  predicate Wanted(r: Receiver, seqNo: nat) {
    r.readSeq <= seqNo < r.readSeq + MAX_FLIGHT && (r.epoch == 1 ==> seqNo == r.readSeq)
  }

  /** Fragments the peer really sent are refused in three cases only: the message is too long for
      the receiver, it is not the one the encrypted epoch waits for, or it is exactly one flight
      ahead of the read position. */
  lemma GenuineRefusals(sent: seq<Message>, r: Receiver, maxLen: nat, f: Fragment)
    requires RingInv(r) && D.AllFromPeer(sent, r) && D.Genuine(sent, f) && f.seqNo < U16
    ensures AddFragment(r, maxLen, f).1.Some? <==>
            f.msgLen > maxLen || (r.epoch == 1 && f.seqNo != r.readSeq) || f.seqNo == r.readSeq + MAX_FLIGHT
  {
    if r.readSeq <= f.seqNo < r.readSeq + MAX_FLIGHT && r.slots[Slot(f.seqNo)].Some? {
      SlotMatches(r, f.seqNo);
      assert D.FromPeer(sent, r.slots[Slot(f.seqNo)].value);
    }
  }

  /** The receiver holds byte `i` of message `seqNo`. */
  predicate Holds(r: Receiver, seqNo: nat, i: nat)
  {
    var s := r.slots[Slot(seqNo)];
    s.Some? && s.value.seqNo == seqNo && i in s.value.got
  }

  /** The receiver has begun message `seqNo`. */
  predicate Begun(r: Receiver, seqNo: nat)
  {
    var s := r.slots[Slot(seqNo)];
    s.Some? && s.value.seqNo == seqNo
  }

  /** Exactly what was held, and the bytes of a wanted fragment, are held afterwards. */
  lemma AddFragmentHolds(sent: seq<Message>, r: Receiver, maxLen: nat, f: Fragment, seqNo: nat, i: nat)
    requires RingInv(r) && D.AllFromPeer(sent, r) && D.Genuine(sent, f) && f.seqNo < U16
    requires f.msgLen <= maxLen
    ensures var n := AddFragment(r, maxLen, f).0;
            var added := Wanted(r, f.seqNo) && f.seqNo == seqNo;
            && (Begun(n, seqNo) <==> Begun(r, seqNo) || added)
            && (Holds(n, seqNo, i) <==>
                  Holds(r, seqNo, i) || (added && f.fragOff <= i < f.fragOff + |f.body|))
  {
    hide Merge, Complete, RingInv, D.AllFromPeer;
    GenuineRefusals(sent, r, maxLen, f);
    if Wanted(r, f.seqNo) {
      MergeHolds(sent, r, f, i);
    }
  }

  lemma MergeHolds(sent: seq<Message>, r: Receiver, f: Fragment, i: nat)
    requires RingInv(r) && D.AllFromPeer(sent, r) && D.Genuine(sent, f) && Wanted(r, f.seqNo) && f.seqNo < U16
    ensures var was := Looked(r, f);
            var now := Merge(was, f, r.epoch);
            && was.seqNo == f.seqNo && now.seqNo == f.seqNo
            && (r.slots[Slot(f.seqNo)].None? ==> was.got == map[])
            && (i in now.got <==> i in was.got || f.fragOff <= i < f.fragOff + |f.body|)
  {
    if r.slots[Slot(f.seqNo)].Some? {
      SlotMatches(r, f.seqNo);
      assert D.FromPeer(sent, r.slots[Slot(f.seqNo)].value);
    }
    assert i in Pieces(f) <==> f.fragOff <= i < f.fragOff + |f.body|;
  }

  // Each record once.

  /** No two records processed carry the same epoch and number, and the window remembers those of
      the current epoch. */
  ghost predicate ProcessedOnce(sys: D.System) {
    && (forall i: nat | i < |sys.processed| :: sys.processed[i].epoch <= sys.receiver.epoch)
    && (forall i: nat | i < |sys.processed| && sys.processed[i].epoch == sys.receiver.epoch ::
          D.FullNumber(sys.processed[i]) in sys.window.recorded)
    && (forall i: nat, j: nat | i < j < |sys.processed| ::
          (sys.processed[i].epoch, sys.processed[i].number) != (sys.processed[j].epoch, sys.processed[j].number))
  }

  lemma StepProcessesOnce(sys: D.System, e: D.Event, limit: nat)
    requires ProcessedOnce(sys) && D.Typed(sys) && D.Possible(sys, e, limit)
    requires e.ReleaseMessage? ==> CurrentComplete(sys.receiver)
    requires e.NewReadKeys? ==> sys.receiver.epoch + 1 < U16
    ensures ProcessedOnce(D.Step(sys, e))
    ensures D.Step(sys, e).receiver.epoch <= sys.receiver.epoch + ReadChanges([e])
  {
    hide OpenRecord, SealFrom, D.FullNumber;
    if e.Arrive? && D.Step(sys, e) != sys {
      var n := |sys.processed|;
      forall i: nat | i < n
        ensures (sys.processed[i].epoch, sys.processed[i].number) != (e.record.epoch, e.record.number)
      {
        if (sys.processed[i].epoch, sys.processed[i].number) == (e.record.epoch, e.record.number) {
          SameNumber(sys.processed[i], e.record);
        }
      }
    }
  }

  lemma SameNumber(a: Record, b: Record)
    requires a.epoch == b.epoch && a.number == b.number
    ensures D.FullNumber(a) == D.FullNumber(b)
  {
  }

  /** How often the read keys are changed. */
  function ReadChanges(events: seq<D.Event>): nat {
    if events == [] then 0 else (if events[0].NewReadKeys? then 1 else 0) + ReadChanges(events[1..])
  }

  lemma {:induction false} ReadChangesAppend(a: seq<D.Event>, b: seq<D.Event>)
    ensures ReadChanges(a + b) == ReadChanges(a) + ReadChanges(b)
  {
    if a == [] {
      assert a + b == b;
    } else {
      assert (a + b)[1..] == a[1..] + b;
      ReadChangesAppend(a[1..], b);
    }
  }

  lemma NothingProcessed(aead: Aead)
    requires ValidAead(aead)
    ensures ProcessedOnce(D.Start(aead))
  {
  }

  /** Replay protection: while the read epoch does not wrap, no record number of an epoch is processed
      twice. */
  lemma {:induction false} RunProcessesOnce(sys: D.System, events: seq<D.Event>, limit: nat)
    requires ProcessedOnce(sys) && D.IsRun(sys, events, limit) && sys.receiver.epoch + ReadChanges(events) < U16
    ensures ProcessedOnce(D.Final(sys, events, limit))
    decreases |events|
  {
    hide ProcessedOnce, D.Step;
    if events != [] {
      StepProcessesOnce(sys, events[0], limit);
      assert ReadChanges([events[0]]) == (if events[0].NewReadKeys? then 1 else 0) + ReadChanges([]);
      RunProcessesOnce(D.Step(sys, events[0]), events[1..], limit);
    }
  }

  // Refusals, whatever the peer.

  /** The fragment and what is held of its message disagree on type or length. */
  predicate AtOdds(r: Receiver, f: Fragment)
    requires f.seqNo < U16
  {
    var s := r.slots[Slot(f.seqNo)];
    s.Some? && (s.value.typ != f.typ || s.value.msgLen != f.msgLen)
  }

  /** The fragment is taken for one of a message handed out before, or of one too far ahead to be kept. */
  predicate Ignored(r: Receiver, f: Fragment) {
    f.seqNo < r.readSeq || f.seqNo > r.readSeq + MAX_FLIGHT
  }

  /** Which alert answers a fragment, of a peer that may send anything: the bounds come first, then, once
      encrypted, the number, then what is ignored, and only then what is held. */
  lemma WhyRefused(r: Receiver, maxLen: nat, f: Fragment)
    requires f.seqNo < U16
    ensures var alert := AddFragment(r, maxLen, f).1;
            var fits := f.fragOff + |f.body| <= f.msgLen <= maxLen;
            var expected := r.epoch != 1 || f.seqNo == r.readSeq;
            && (alert == Some(UnexpectedMessage) <==> fits && !expected)
            && (alert == Some(InternalError) <==> fits && expected && f.seqNo == r.readSeq + MAX_FLIGHT)
            && (alert == Some(IllegalParameter) <==>
                  !fits || (expected && !Ignored(r, f) && f.seqNo != r.readSeq + MAX_FLIGHT && AtOdds(r, f)))
            && (alert == None || alert.value in {UnexpectedMessage, InternalError, IllegalParameter})
  {
  }

  /** What a fragment of any peer's does to the ring if it is not refused: its bytes take the place of those held,
      all others stay, and a message that is complete is not touched. */
  lemma LaterBytesWin(r: Receiver, maxLen: nat, f: Fragment)
    requires f.seqNo < U16 && AddFragment(r, maxLen, f).1.None? && !Ignored(r, f)
    ensures var was, now := r.slots[Slot(f.seqNo)], AddFragment(r, maxLen, f).0.slots[Slot(f.seqNo)];
            && now.Some? && now.value.typ == f.typ && now.value.msgLen == f.msgLen
            && (was.Some? && Complete(was.value) ==> now == was)
            && (was.None? || !Complete(was.value) ==>
                  forall i: nat ::
                    if f.fragOff <= i < f.fragOff + |f.body|
                    then i in now.value.got && now.value.got[i] == f.body[i - f.fragOff]
                    else if was.Some? && i in was.value.got
                    then i in now.value.got && now.value.got[i] == was.value.got[i]
                    else i !in now.value.got)
    ensures forall j: nat | j < MAX_FLIGHT && j != Slot(f.seqNo) :: AddFragment(r, maxLen, f).0.slots[j] == r.slots[j]
  {
  }

  lemma ParseExtends(a: seq<Byte>, b: seq<Byte>)
    requires ParseFragment(a).Some?
    ensures ParseFragment(a + b) == Some((ParseFragment(a).value.0, ParseFragment(a).value.1 + b))
  {
    var s := a + b;
    assert s[9..12] == a[9..12] && s[1..4] == a[1..4] && s[4..6] == a[4..6] && s[6..9] == a[6..9];
    var n := 12 + FromBigEndian(a[9..12]);
    assert s[12..n] == a[12..n] && s[n..] == a[n..] + b;
  }

  /** How fragments are packed into records does not matter: one record with both parts does what two records do,
      and where the first part is refused the second is not looked at. */
  lemma {:induction false} PackingAside(r: Receiver, maxLen: nat, a: seq<Byte>, b: seq<Byte>)
    ensures var (next, alert) := OpenRecord(r, maxLen, a);
            && (alert.None? ==> OpenRecord(r, maxLen, a + b) == OpenRecord(next, maxLen, b))
            && (alert.Some? && alert != Some(DecodeError) ==> OpenRecord(r, maxLen, a + b) == (next, alert))
    decreases |a|
  {
    hide ParseFragment;
    if a == [] {
      assert a + b == b;
    } else if ParseFragment(a).Some? {
      var p := ParseFragment(a).value;
      ParsedFits(a);
      ParseExtends(a, b);
      var (next, alert) := AddFragment(r, maxLen, p.0);
      NoDecodeError(r, maxLen, p.0);
      if alert.None? {
        PackingAside(next, maxLen, p.1, b);
      }
    }
  }

  lemma NoDecodeError(r: Receiver, maxLen: nat, f: Fragment)
    requires f.seqNo < U16
    ensures AddFragment(r, maxLen, f).1 != Some(DecodeError)
  {
  }

  /** Records other than fragments: a ChangeCipherSpec counts only before the keys change and only whole,
      application data only after, and a record that cannot be cut into fragments is an error of its own. */
  lemma OtherRecords(r: Receiver, maxLen: nat, body: seq<Byte>)
    ensures OpenHandshake(r, maxLen, ChangeCipherSpec, body) ==
            if r.epoch != 0 then (r, Error(UnexpectedMessage))
            else if body == [1] then (r.(hasCcs := true), Success) else (r, Error(IllegalParameter))
    ensures OpenHandshake(r, maxLen, ApplicationData, body) ==
            (r, if r.epoch == 0 then Error(UnexpectedMessage) else Discard)
    ensures body != [] && ParseFragment(body).None? ==>
              OpenHandshake(r, maxLen, HandshakeData, body) == (r, Error(DecodeError))
    ensures OpenHandshake(r, maxLen, HandshakeData, []) == (r, Success)
  {
    hide ParseFragment;
  }

  /** The read keys may change exactly when no ChangeCipherSpec is kept and nothing of any message is held but
      the one being handed out. */
  lemma KeysChangeExactly(r: Receiver)
    requires RingInv(r)
    ensures SetReadState(r).Some? <==>
              && !r.hasCcs
              && forall k: nat | Begun(r, k) :: r.hasMessage && k == r.readSeq
    ensures SetReadState(r).Some? ==>
              SetReadState(r).value == r.(epoch := if r.epoch == U16 - 1 then 0 else r.epoch + 1)
  {
    hide Complete, RingInv;
    if !r.hasCcs && forall k: nat | Begun(r, k) :: r.hasMessage && k == r.readSeq {
      NothingElseHeld(r);
    }
    if SetReadState(r).Some? {
      forall k: nat | Begun(r, k)
        ensures r.hasMessage && k == r.readSeq
      {
        BegunIsCurrent(r, k);
      }
    }
  }

  lemma NothingElseHeld(r: Receiver)
    requires RingInv(r) && !r.hasCcs && forall k: nat | Begun(r, k) :: r.hasMessage && k == r.readSeq
    ensures !HasUnprocessed(r)
  {
    hide Complete;
    forall i: nat | i < MAX_FLIGHT && r.slots[i].Some?
      ensures r.hasMessage && i == Slot(r.readSeq)
    {
      assert SlotOk(r, i, r.slots[i].value);
      assert Begun(r, r.slots[i].value.seqNo);
    }
  }

  lemma BegunIsCurrent(r: Receiver, k: nat)
    requires RingInv(r) && !HasUnprocessed(r) && Begun(r, k)
    ensures r.hasMessage && k == r.readSeq
  {
    hide Complete;
    assert r.hasMessage && Slot(k) == Slot(r.readSeq);
    assert SlotOk(r, Slot(k), r.slots[Slot(k)].value);
    assert SlotOk(r, Slot(k), r.slots[Slot(k)].value) ==> r.slots[Slot(k)].value.seqNo == k;
  }
}
