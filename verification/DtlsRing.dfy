/** What every run of the receiving side keeps, whatever records the network brings in: the shape
    of the ring, and that no message mixes bytes of two epochs. */
module DtlsRing {
  import opened Common
  import opened DtlsFragment
  import opened DtlsReceive

  /** The message was assembled under the current epoch alone, or it is the complete message
      being handed out, assembled under one earlier epoch. */
  predicate OneEpoch(r: Receiver, m: Incoming) {
    || m.epochs <= {r.epoch}
    || (Complete(m) && r.hasMessage && m.seqNo == r.readSeq && |m.epochs| <= 1)
  }

  predicate SlotOk(r: Receiver, i: nat, m: Incoming) {
    && Slot(m.seqNo) == i
    && r.readSeq <= m.seqNo < r.readSeq + MAX_FLIGHT
    && m.got.Keys <= Range(0, m.msgLen)
    && OneEpoch(r, m)
  }

  predicate RingInv(r: Receiver) {
    && (r.hasMessage ==> CurrentComplete(r))
    && forall i: nat | i < MAX_FLIGHT && r.slots[i].Some? :: SlotOk(r, i, r.slots[i].value)
  }

  lemma InitialRing()
    ensures RingInv(INITIAL)
  {
  }

  /** A fragment that reaches an occupied slot belongs to the message in it, so the source's
      assertion on the sequence number cannot fire. */
  lemma SlotMatches(r: Receiver, seqNo: nat)
    requires RingInv(r) && r.readSeq <= seqNo < r.readSeq + MAX_FLIGHT
    requires r.slots[Slot(seqNo)].Some?
    ensures r.slots[Slot(seqNo)].value.seqNo == seqNo
  {
  }

  lemma MergeKeeps(r: Receiver, m: Incoming, f: Fragment)
    requires SlotOk(r, Slot(f.seqNo), m) && m.msgLen == f.msgLen && f.fragOff + |f.body| <= f.msgLen
    ensures SlotOk(r, Slot(f.seqNo), Merge(m, f, r.epoch))
  {
    if !Complete(m) {
      assert Merge(m, f, r.epoch).got.Keys == m.got.Keys + Pieces(f).Keys;
    }
  }

  lemma AddFragmentKeepsRing(r: Receiver, maxLen: nat, f: Fragment)
    requires RingInv(r) && f.seqNo < U16
    ensures RingInv(AddFragment(r, maxLen, f).0)
  {
    var next := AddFragment(r, maxLen, f).0;
    if next != r {
      var m := if r.slots[Slot(f.seqNo)].Some? then r.slots[Slot(f.seqNo)].value
               else Incoming(f.typ, f.seqNo, f.msgLen, map[], {});
      MergeKeeps(r, m, f);
      if r.hasMessage {
        CompleteStays(r, maxLen, f, Slot(r.readSeq));
      }
      OthersStay(r, next, Slot(f.seqNo), Merge(m, f, r.epoch));
    }
  }

  lemma OthersStay(r: Receiver, next: Receiver, j: nat, m: Incoming)
    requires RingInv(r) && (r.hasMessage ==> CurrentComplete(next))
    requires j < MAX_FLIGHT && next == r.(slots := r.slots[j := Some(m)]) && SlotOk(r, j, m)
    ensures RingInv(next)
  {
    forall i: nat | i < MAX_FLIGHT && next.slots[i].Some?
      ensures SlotOk(next, i, next.slots[i].value)
    {
      assert SlotOk(r, i, next.slots[i].value);
    }
  }

  /** A complete message's bytes never change. */
  lemma CompleteStays(r: Receiver, maxLen: nat, f: Fragment, i: nat)
    requires f.seqNo < U16
    requires i < MAX_FLIGHT && r.slots[i].Some? && Complete(r.slots[i].value)
    ensures AddFragment(r, maxLen, f).0.slots[i] == r.slots[i]
  {
  }

  lemma {:induction false} OpenRecordKeepsRing(r: Receiver, maxLen: nat, record: seq<Byte>)
    requires RingInv(r)
    ensures RingInv(OpenRecord(r, maxLen, record).0)
    decreases |record|
  {
    if record != [] && ParseFragment(record).Some? {
      hide RingInv;
      var p := ParseFragment(record).value;
      ParsedFits(record);
      AddFragmentKeepsRing(r, maxLen, p.0);
      if AddFragment(r, maxLen, p.0).1.None? {
        OpenRecordKeepsRing(AddFragment(r, maxLen, p.0).0, maxLen, p.1);
      }
    }
  }

  /** Releasing the current message leaves a ring for the next read position. When the 16-bit
      position wraps to zero the ring is empty. */
  lemma NextMessageKeepsRing(r: Receiver)
    requires RingInv(r) && r.hasMessage
    ensures RingInv(NextMessage(r))
    ensures r.readSeq == U16 - 1 ==> NextMessage(r).slots == NO_MESSAGES
  {
  }

  /** Changing the read keys keeps the ring only because it is refused while any other message is
      under way. */
  lemma SetReadStateKeepsRing(r: Receiver)
    requires RingInv(r)
    ensures SetReadState(r).Some? ==> RingInv(SetReadState(r).value)
  {
    if SetReadState(r).Some? {
      var n := SetReadState(r).value;
      assert n.slots == r.slots && n.hasMessage == r.hasMessage && n.readSeq == r.readSeq;
      forall i: nat | i < MAX_FLIGHT && n.slots[i].Some?
        ensures SlotOk(n, i, n.slots[i].value)
      {
        hide Complete;
        assert r.hasMessage && i == Slot(r.readSeq) && SlotOk(r, i, r.slots[i].value);
        OnlyTheCurrent(r, n, r.slots[i].value);
      }
    }
  }

  lemma OnlyTheCurrent(r: Receiver, n: Receiver, m: Incoming)
    requires OneEpoch(r, m) && Complete(m) && r.hasMessage && m.seqNo == r.readSeq
    requires n.hasMessage && n.readSeq == r.readSeq
    ensures OneEpoch(n, m)
  {
    hide Complete;
    AtMostOne(m.epochs, r.epoch);
  }

  lemma AtMostOne(s: set<nat>, e: nat)
    ensures s <= {e} ==> |s| <= 1
  {
    if s <= {e} && e in s {
      assert s == {e};
    } else if s <= {e} {
      assert s == {};
    }
  }

  datatype ReceiveEvent =
    | Open(maxLen: nat, record: seq<Byte>)
    | OpenCcs
    | TakeCcs
    | Get
    | Next
    | NewKeys

  /** What the network and the handshake code above can do to the receiving side. */
  function Apply(r: Receiver, e: ReceiveEvent): (n: Receiver)
  {
    match e
    case Open(maxLen, record) => OpenRecord(r, maxLen, record).0
    case OpenCcs => r.(hasCcs := true)
    case TakeCcs => r.(hasCcs := false)
    case Get => GetMessage(r)
    case Next => if r.hasMessage then NextMessage(r) else r
    case NewKeys => if SetReadState(r).Some? then SetReadState(r).value else r
  }

  function Run(r: Receiver, events: seq<ReceiveEvent>): (n: Receiver)
    decreases |events|
  {
    if events == [] then r else Run(Apply(r, events[0]), events[1..])
  }

  lemma StepKeepsRing(r: Receiver, e: ReceiveEvent)
    requires RingInv(r)
    ensures RingInv(Apply(r, e))
  {
    match e
    case Open(maxLen, record) => OpenRecordKeepsRing(r, maxLen, record);
    case Next => if r.hasMessage { NextMessageKeepsRing(r); }
    case NewKeys => SetReadStateKeepsRing(r);
    case OpenCcs =>
    case TakeCcs =>
    case Get =>
  }

  /** In every state any run of records, releases and key changes can reach, the ring is sound and
      each message's bytes come from one epoch. */
  lemma {:induction false} EveryRunKeepsRing(r: Receiver, events: seq<ReceiveEvent>)
    requires RingInv(r)
    ensures RingInv(Run(r, events))
    decreases |events|
  {
    if events != [] {
      StepKeepsRing(r, events[0]);
      hide RingInv;
      EveryRunKeepsRing(Apply(r, events[0]), events[1..]);
    }
  }
}
