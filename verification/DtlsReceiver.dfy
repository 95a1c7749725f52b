/** The receiving half of a DTLS connection on the heap: the ring of seven message buffers. Each
    operation is proved to compute the value-level one of `DtlsReceive`. */
module DtlsReceiver {
  import opened Common
  import opened DtlsFragment
  import opened DtlsReceive
  import opened DtlsReassembly

  class HandshakeReceiver {
    var incoming: array<HmFragment?>
    var readSeq: Uint16
    var readEpoch: Uint16
    var hasMessage: bool
    var hasChangeCipherSpec: bool
    ghost var Repr: set<object>

    ghost predicate SlotValid(i: nat)
      requires i < incoming.Length
      reads this, Repr, incoming
    {
      var frag := incoming[i];
      frag != null ==>
        frag in Repr && frag.Footprint() <= Repr && frag.Footprint() !! {this, incoming} && frag.Valid()
    }

    ghost predicate Apart(i: nat, j: nat)
      requires i < incoming.Length && j < incoming.Length
      reads this, Repr, incoming
    {
      var a, b := incoming[i], incoming[j];
      a != null && b != null && a in Repr && b in Repr ==> a.Footprint() !! b.Footprint()
    }

    ghost predicate Valid()
      reads this, Repr
    {
      && this in Repr && incoming in Repr
      && incoming.Length == MAX_FLIGHT
      && (forall i: nat | i < MAX_FLIGHT :: SlotValid(i))
      && (forall i: nat, j: nat | i < j < MAX_FLIGHT :: Apart(i, j))
    }

    ghost function SlotView(i: nat): (s: Option<Incoming>)
      requires Valid() && i < MAX_FLIGHT
      reads this, Repr
    {
      assert SlotValid(i);
      if incoming[i] == null then None else Some(incoming[i].AsIncoming())
    }

    /** The receiver as a value. */
    ghost function View(): (r: Receiver)
      requires Valid()
      reads this, Repr
        ensures forall i: nat | i < MAX_FLIGHT :: r.slots[i] == SlotView(i)
    {
      assert forall i: nat | i < MAX_FLIGHT :: SlotValid(i);
      Receiver(readSeq, readEpoch,
               seq(MAX_FLIGHT, i requires 0 <= i < MAX_FLIGHT && Valid() reads this, Repr => SlotView(i)),
               hasMessage, hasChangeCipherSpec)
    }

    constructor ()
      ensures Valid() && fresh(Repr) && View() == INITIAL
    {
      incoming := new HmFragment?[MAX_FLIGHT](_ => null);
      readSeq, readEpoch := 0, 0;
      hasMessage, hasChangeCipherSpec := false, false;
      new;
      Repr := {this, incoming};
    }

    /** dtls1_is_current_message_complete. */
    method IsCurrentMessageComplete() returns (complete: bool)
      requires Valid()
      ensures complete == CurrentComplete(View())
    {
      var frag := incoming[Slot(readSeq)];
      assert SlotValid(Slot(readSeq));
      if frag != null {
        frag.NullIsComplete();
      }
      assert View().slots[Slot(readSeq)] == SlotView(Slot(readSeq));
      complete := frag != null && frag.reassembly == null;
    }

    /** A freshly made message buffer goes into an empty slot. */
    method Install(i: nat, frag: HmFragment)
      requires Valid() && i < MAX_FLIGHT && incoming[i] == null
      requires frag.Valid() && frag.Footprint() !! Repr
      modifies this`Repr, incoming
      ensures Valid() && incoming == old(incoming) && incoming[i] == frag
      ensures Repr == old(Repr) + frag.Footprint()
      ensures View() == old(View()).(slots := old(View()).slots[i := Some(frag.AsIncoming())])
    {
      hide BitAt, WellSized, PaddingZero, AllReceived, Header;
      ghost var before := View();
      incoming[i] := frag;
      Repr := Repr + frag.Footprint();
      forall j: nat | j < MAX_FLIGHT
        ensures SlotValid(j)
      {
        assert old(SlotValid(j));
      }
      forall j: nat, k: nat | j < k < MAX_FLIGHT
        ensures Apart(j, k)
      {
        assert old(Apart(j, k)) && old(SlotValid(j)) && old(SlotValid(k));
      }
      forall j: nat | j < MAX_FLIGHT
        ensures SlotView(j) == if j == i then Some(frag.AsIncoming()) else old(SlotView(j))
      {
        assert old(SlotValid(j));
      }
      assert View().slots == before.slots[i := Some(frag.AsIncoming())];
    }

    /** Copying a fragment into the buffer of slot `i` touches that slot alone. */
    method FillSlot(i: nat, f: Fragment)
      requires Valid() && i < MAX_FLIGHT && incoming[i] != null && incoming[i].reassembly != null
      requires f.fragOff + |f.body| <= incoming[i].msgLen
      modifies incoming[i].Footprint()
      ensures Valid()
      ensures View() == old(View()).(slots :=
                          old(View()).slots[i := Some(Merge(old(View()).slots[i].value, f, readEpoch))])
    {
      hide BitAt, WellSized, PaddingZero, AllReceived, Header, Merge;
      ghost var before := View();
      assert SlotValid(i);
      incoming[i].Fill(f, readEpoch);
      forall j: nat | j < MAX_FLIGHT
        ensures SlotValid(j)
      {
        assert old(SlotValid(j));
        assert j != i ==> old(if j < i then Apart(j, i) else Apart(i, j));
      }
      forall j: nat, k: nat | j < k < MAX_FLIGHT
        ensures Apart(j, k)
      {
        assert old(Apart(j, k)) && old(SlotValid(j)) && old(SlotValid(k));
      }
      forall j: nat | j < MAX_FLIGHT
        ensures SlotView(j) == if j == i then Some(Merge(before.slots[i].value, f, readEpoch)) else old(SlotView(j))
      {
        assert old(SlotValid(j)) && before.slots[j] == old(SlotView(j));
        assert j != i ==> old(if j < i then Apart(j, i) else Apart(i, j));
      }
      assert View().slots == before.slots[i := Some(Merge(before.slots[i].value, f, readEpoch))];
    }

    /** dtls1_get_incoming_message: finds the fragment's message, or begins it. */
    method GetIncomingMessage(f: Fragment) returns (alert: Option<Alert>)
      requires Valid() && FitsHeader(f)
      modifies Repr
      ensures Valid() && fresh(Repr - old(Repr)) && incoming == old(incoming) && readEpoch == old(readEpoch)
      ensures alert == LookupAlert(old(View()), f)
      ensures View() == if alert.Some? then old(View())
                        else old(View()).(slots := old(View()).slots[Slot(f.seqNo) := Some(Looked(old(View()), f))])
      ensures alert.None? ==> incoming[Slot(f.seqNo)] != null
    {
      hide HmFragment.Valid, HmFragment.AsIncoming;
      ghost var before := View();
      if f.seqNo < readSeq || f.seqNo - readSeq >= MAX_FLIGHT {
        return Some(InternalError);
      }
      var i := Slot(f.seqNo);
      assert SlotValid(i) && before.slots[i] == SlotView(i);
      if incoming[i] != null {
        incoming[i].Fields();
        assert before.slots == before.slots[i := before.slots[i]];
        if incoming[i].typ != f.typ || incoming[i].msgLen != f.msgLen {
          return Some(IllegalParameter);
        }
      } else {
        var frag := new HmFragment(f.typ, f.seqNo, f.msgLen);
        frag.Fields();
        Install(i, frag);
      }
      alert := None;
    }

    /** One turn of dtls1_open_handshake's loop. */
    method TakeFragment(maxLen: nat, f: Fragment) returns (alert: Option<Alert>)
      requires Valid() && FitsHeader(f)
      modifies Repr
      ensures Valid() && fresh(Repr - old(Repr))
      ensures (View(), alert) == AddFragment(old(View()), maxLen, f)
    {
      hide HmFragment.Valid, HmFragment.AsIncoming, Merge;
      if f.fragOff > f.msgLen || f.fragOff + |f.body| > f.msgLen || f.msgLen > maxLen {
        return Some(IllegalParameter);
      }
      if readEpoch == 1 && f.seqNo != readSeq {
        return Some(UnexpectedMessage);
      }
      if f.seqNo < readSeq || f.seqNo > readSeq + MAX_FLIGHT {
        return None;
      }
      ghost var before := View();
      alert := GetIncomingMessage(f);
      if alert.Some? {
        return;
      }
      var i := Slot(f.seqNo);
      ghost var found := View();
      assert SlotValid(i) && found.slots[i] == SlotView(i) == Some(Looked(before, f));
      incoming[i].Fields();
      incoming[i].NullIsComplete();
      if incoming[i].reassembly != null {
        FillSlot(i, f);
      }
      ghost var merged := Merge(Looked(before, f), f, before.epoch);
      assert View().slots == before.slots[i := Some(merged)] by {
        CompleteMerge(Looked(before, f), f, before.epoch);
        assert found.slots[i := Some(merged)] == before.slots[i := Some(merged)];
      }
    }

    /** The loop of dtls1_open_handshake over the fragments of one record. */
    method TakeRecord(maxLen: nat, record: seq<Byte>) returns (alert: Option<Alert>)
      requires Valid()
      modifies Repr
      ensures Valid() && fresh(Repr - old(Repr))
      ensures (View(), alert) == OpenRecord(old(View()), maxLen, record)
    {
      ghost var before := View();
      var rest := record;
      while rest != []
        invariant Valid() && fresh(Repr - old(Repr))
        invariant OpenRecord(View(), maxLen, rest) == OpenRecord(before, maxLen, record)
        decreases |rest|
      {
        var parsed := ParseFragment(rest);
        if parsed.None? {
          return Some(DecodeError);
        }
        ParsedFits(rest);
        alert := TakeFragment(maxLen, parsed.value.0);
        if alert.Some? {
          return;
        }
        rest := parsed.value.1;
      }
      alert := None;
    }

    /** dtls1_open_handshake. */
    method Open(maxLen: nat, typ: ContentType, record: seq<Byte>) returns (outcome: Outcome)
      requires Valid()
      modifies Repr
      ensures Valid() && fresh(Repr - old(Repr))
      ensures (View(), outcome) == OpenHandshake(old(View()), maxLen, typ, record)
    {
      hide OpenRecord, SlotValid, Apart;
      match typ {
        case ApplicationData =>
          outcome := if readEpoch == 0 then Error(UnexpectedMessage) else Discard;
        case ChangeCipherSpec =>
          if readEpoch != 0 {
            return Error(UnexpectedMessage);
          }
          if record != CCS_PAYLOAD {
            return Error(IllegalParameter);
          }
          SetCcs(true);
          outcome := Success;
        case HandshakeData =>
          var alert := TakeRecord(maxLen, record);
          outcome := FromAlert(alert);
        case AlertRecord =>
          outcome := Error(UnexpectedMessage);
      }
    }

    method SetCcs(flag: bool)
      requires Valid()
      modifies this`hasChangeCipherSpec
      ensures Valid() && View() == old(View()).(hasCcs := flag)
    {
      hasChangeCipherSpec := flag;
      RingUnchanged();
    }

    /** Changing flags and counters leaves the slots as they were. */
    twostate lemma RingUnchanged()
      requires old(Valid())
      requires Repr == old(Repr) && incoming == old(incoming) && unchanged(incoming) && unchanged(Repr - {this})
      requires readSeq < U16 && readEpoch < U16
      ensures Valid() && View().slots == old(View().slots)
    {
      forall j: nat | j < MAX_FLIGHT
        ensures SlotValid(j)
      {
        assert old(SlotValid(j));
      }
      forall j: nat, k: nat | j < k < MAX_FLIGHT
        ensures Apart(j, k)
      {
        assert old(Apart(j, k)) && old(SlotValid(j)) && old(SlotValid(k));
      }
      forall j: nat | j < MAX_FLIGHT
        ensures SlotView(j) == old(SlotView(j))
      {
        assert old(SlotValid(j));
      }
    }

    /** dtls1_get_message: the whole message, header included, once it is complete. */
    method Get() returns (message: Option<(Message, seq<Byte>)>)
      requires Valid()
      modifies this`hasMessage
      ensures Valid() && View() == GetMessage(old(View()))
      ensures message.Some? <==> CurrentComplete(old(View()))
      ensures message.Some? ==> message.value.0 == CurrentMessage(old(View()))
      ensures message.Some? ==>
                var (m, raw) := message.value;
                var seqNo := old(View()).slots[Slot(readSeq)].value.seqNo;
                raw == Serialize(Fragment(m.typ, |m.body|, seqNo, 0, m.body))
    {
      var complete := IsCurrentMessageComplete();
      if !complete {
        return None;
      }
      var i := Slot(readSeq);
      var frag := incoming[i];
      assert SlotValid(i) && View().slots[i] == SlotView(i);
      frag.NullIsComplete();
      var body, raw := frag.Whole();
      message := Some((Message(frag.typ, body), raw));
      hasMessage := true;
      RingUnchanged();
    }

    /** dtls1_next_message. */
    method Next()
      requires Valid() && CurrentComplete(View())
      modifies this, incoming
      ensures Valid() && Repr == old(Repr) && View() == NextMessage(old(View()))
    {
      ghost var before := View();
      incoming[Slot(readSeq)] := null;
      readSeq := (readSeq + 1) % U16;
      hasMessage := false;
      forall j: nat | j < MAX_FLIGHT
        ensures SlotValid(j)
      {
        assert old(SlotValid(j));
      }
      forall j: nat, k: nat | j < k < MAX_FLIGHT
        ensures Apart(j, k)
      {
        assert old(Apart(j, k)) && old(SlotValid(j)) && old(SlotValid(k));
      }
      forall j: nat | j < MAX_FLIGHT
        ensures SlotView(j) == if j == Slot(before.readSeq) then None else old(SlotView(j))
      {
        assert old(SlotValid(j));
      }
      assert View().slots == before.slots[Slot(before.readSeq) := None];
    }

    /** dtls_has_unprocessed_handshake_data. */
    method HasUnprocessedData() returns (unprocessed: bool)
      requires Valid()
      ensures unprocessed == HasUnprocessed(View())
    {
      if hasChangeCipherSpec {
        return true;
      }
      var current := Slot(readSeq);
      ghost var view := View();
      for i := 0 to MAX_FLIGHT
        invariant forall j: nat | j < i :: !(!(hasMessage && j == current) && view.slots[j].Some?)
      {
        assert view.slots[i] == SlotView(i);
        if hasMessage && i == current {
          continue;
        }
        if incoming[i] != null {
          return true;
        }
      }
      unprocessed := false;
    }

    /** dtls1_set_read_state. */
    method ChangeReadState() returns (ok: bool)
      requires Valid()
      modifies this`readEpoch
      ensures Valid() && ok == SetReadState(old(View())).Some?
      ensures View() == if ok then SetReadState(old(View())).value else old(View())
    {
      var unprocessed := HasUnprocessedData();
      if unprocessed {
        return false;
      }
      readEpoch := (readEpoch + 1) % U16;
      RingUnchanged();
      ok := true;
    }

    /** dtls1_open_change_cipher_spec: a ChangeCipherSpec already flagged is consumed without
        reading a record. */
    method OpenChangeCipherSpec(maxLen: nat, typ: ContentType, record: seq<Byte>) returns (outcome: Outcome)
      requires Valid()
      modifies Repr
      ensures Valid() && fresh(Repr - old(Repr))
      ensures var (next, first) := if old(View()).hasCcs then (old(View()), Success)
                                   else OpenHandshake(old(View()), maxLen, typ, record);
              if first != Success then View() == next && outcome == first
              else View() == next.(hasCcs := false) && outcome == if next.hasCcs then Success else Discard
    {
      hide SlotValid, Apart, OpenHandshake;
      if !hasChangeCipherSpec {
        outcome := Open(maxLen, typ, record);
        if outcome != Success {
          return;
        }
      }
      if hasChangeCipherSpec {
        SetCcs(false);
        return Success;
      }
      outcome := Discard;
    }
  }

  lemma CompleteMerge(m: Incoming, f: Fragment, epoch: nat)
    ensures Complete(m) ==> Merge(m, f, epoch) == m
  {
  }
}
