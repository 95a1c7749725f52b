/** The sending half of a DTLS connection on the heap. Each operation is proved to compute the
    value-level one of `DtlsFlight`. */
module DtlsSender {
  import opened Common
  import opened DtlsFragment
  import opened DtlsReceive
  import opened DtlsRecords
  import opened DtlsFlight

  /** A datagram transport: it takes or refuses each write as `answers` says, and would block once
      they run out. */
  class Transport {
    var answers: seq<int>
    var taken: seq<seq<Record>>

    constructor (answers: seq<int>)
      ensures this.answers == answers && taken == []
    {
      this.answers := answers;
      taken := [];
    }

    method Write(packet: seq<Record>) returns (r: int)
      modifies this
      ensures r == if old(answers) == [] then -1 else old(answers)[0]
      ensures answers == if old(answers) == [] then [] else old(answers)[1..]
      ensures taken == if r > 0 then old(taken) + [packet] else old(taken)
    {
      if answers == [] {
        return -1;
      }
      r := answers[0];
      answers := answers[1..];
      if r > 0 {
        taken := taken + [packet];
      }
    }
  }

  class HandshakeSender {
    const outgoing: array<Outgoing>
    var outgoingLen: nat
    var written: nat
    var offset: nat
    var complete: bool
    var writeSeq: nat
    var epoch: Uint16
    var sequence: Sequence
    var lastSequence: Sequence
    var aead: Aead
    var lastAead: Aead

    ghost predicate Valid()
      reads this, outgoing
    {
      outgoing.Length == MAX_FLIGHT && outgoingLen <= MAX_FLIGHT && WellFormedSender(AsSender())
    }

    ghost function AsSender(): Sender
      requires outgoingLen <= outgoing.Length
      reads this, outgoing
    {
      Sender(outgoing[..outgoingLen], written, offset, complete, writeSeq,
             WriteState(epoch, sequence, lastSequence, aead, lastAead))
    }

    /** The sender as a value. */
    ghost function View(): Sender
      requires Valid()
      reads this, outgoing
    {
      AsSender()
    }

    constructor (aead: Aead)
      requires ValidAead(aead)
      ensures Valid() && fresh(outgoing)
      ensures View() == Sender([], 0, 0, false, 0, WriteState(0, 0, 0, aead, aead))
    {
      outgoing := new Outgoing[MAX_FLIGHT](_ => Outgoing([], 0, false));
      outgoingLen, written, offset, complete, writeSeq := 0, 0, 0, false, 0;
      epoch, sequence, lastSequence := 0, 0, 0;
      this.aead, lastAead := aead, aead;
    }

    /** add_outgoing. */
    method Add(isCcs: bool, data: seq<Byte>) returns (ok: bool)
      requires Valid()
      modifies this, outgoing
      ensures Valid() && ok == AddOutgoing(old(View()), isCcs, data).Some?
      ensures View() == if ok then AddOutgoing(old(View()), isCcs, data).value else old(View())
    {
      if complete {
        outgoingLen, written, offset, complete := 0, 0, 0, false;
      }
      if outgoingLen >= MAX_FLIGHT {
        return false;
      }
      if !isCcs {
        writeSeq := (writeSeq + 1) % U16;
      }
      outgoing[outgoingLen] := Outgoing(data, epoch, isCcs);
      outgoingLen := outgoingLen + 1;
      assert outgoing[..outgoingLen] == outgoing[..outgoingLen - 1] + [Outgoing(data, epoch, isCcs)];
      ok := true;
    }

    /** dtls1_set_write_state. */
    method ChangeWriteState(newAead: Aead)
      requires Valid() && ValidAead(newAead)
      modifies this
      ensures Valid() && View() == old(View()).(keys := SetWriteState(old(View()).keys, newAead))
    {
      epoch := (epoch + 1) % U16;
      lastSequence := sequence;
      sequence := 0;
      lastAead := aead;
      aead := newAead;
    }

    /** dtls_seal_record. */
    method Seal(previous: bool, typ: ContentType, payload: seq<Byte>, maxOut: nat) returns (record: Option<Record>)
      requires Valid() && (previous ==> epoch >= 1)
      modifies this`sequence, this`lastSequence
      ensures Valid() && (View(), record) == SealPayload(old(View()), previous, typ, payload, maxOut)
    {
      var usedEpoch, used, number := epoch, aead, sequence;
      if previous {
        usedEpoch, used, number := epoch - 1, lastAead, lastSequence;
      }
      if maxOut < RT_HEADER_LENGTH {
        return None;
      }
      var len := SealedLen(used, |payload|);
      if len > maxOut - RT_HEADER_LENGTH {
        return None;
      }
      if previous {
        lastSequence := (lastSequence + 1) % (MAX_SEQUENCE + 1);
      } else {
        sequence := (sequence + 1) % (MAX_SEQUENCE + 1);
      }
      if number == MAX_SEQUENCE || len >= U16 {
        return None;
      }
      record := Some(Record(typ, usedEpoch, number, payload, RT_HEADER_LENGTH + len));
    }

    /** seal_next_message. */
    method SealNext(maxOut: nat) returns (status: SealStatus, records: seq<Record>)
      requires Valid() && written < outgoingLen
      modifies this`sequence, this`lastSequence, this`offset
      ensures Valid() && SealStep(status, View(), records) == SealNextMessage(old(View()), maxOut)
    {
      hide Serialize, ValidAead, StoredMessage, SealRecord;
      var msg := outgoing[written];
      var previous := epoch >= 1 && msg.epoch == epoch - 1;
      if !previous && msg.epoch != epoch {
        return SealError, [];
      }
      var used := if previous then lastAead else aead;
      var overhead := RT_HEADER_LENGTH + used.maxOverhead;
      var prefix := RT_HEADER_LENGTH + used.nonceLen;
      if msg.isCcs {
        if maxOut < 1 + overhead {
          return SealNoProgress, [];
        }
        var record := Seal(previous, ChangeCipherSpec, CCS_PAYLOAD, maxOut);
        if record.None? {
          return SealError, [];
        }
        return SealSuccess, [record.value];
      }
      var stored := StoredMessage(msg.data);
      if stored.None? || offset > |stored.value.body| {
        return SealError, [];
      }
      if maxOut < HM_HEADER_LENGTH + 1 + overhead || maxOut < prefix {
        return SealNoProgress, [];
      }
      var rest := |stored.value.body| - offset;
      var todo := rest;
      if todo > maxOut - HM_HEADER_LENGTH - overhead {
        todo := maxOut - HM_HEADER_LENGTH - overhead;
      }
      if HM_HEADER_LENGTH + todo > maxOut - prefix {
        return SealError, [];
      }
      var record := Seal(previous, HandshakeData, Serialize(NextFragment(stored.value, offset, todo)), maxOut);
      if record.None? {
        return SealError, [];
      }
      records := [record.value];
      if todo == rest {
        offset := 0;
        status := SealSuccess;
      } else {
        offset := offset + todo;
        status := SealPartial;
      }
    }

    /** seal_next_packet: the packet, or None for a failed seal or an MTU too small for anything. */
    method SealPacket(mtu: nat) returns (packet: Option<seq<Record>>)
      requires Valid() && written < outgoingLen
      modifies this`sequence, this`lastSequence, this`offset, this`written
      ensures Valid() && View() == SealFrom(old(View()), mtu).next
      ensures packet == if PacketOk(SealFrom(old(View()), mtu)) then Some(SealFrom(old(View()), mtu).records) else None
    {
      hide SealNextMessage, SealFrom, ValidAead;
      ghost var start := SealFrom(View(), mtu);
      var records := [];
      var room: nat := mtu;
      while written < outgoingLen
        invariant Valid() && outgoing[..outgoingLen] == old(outgoing[..outgoingLen])
        invariant Continues(start, records, SealFrom(View(), room))
        decreases outgoingLen - written
      {
        ghost var now := SealFrom(View(), room);
        OneMore(View(), room);
        var status, made := SealNext(room);
        if status == SealError {
          return None;
        }
        if status == SealNoProgress {
          break;
        }
        ContinuesAfter(start, records, made, now);
        records := records + made;
        if status == SealPartial {
          break;
        }
        room := room - made[0].wireLen;
        written := written + 1;
      }
      NoneLeft(View(), room);
      assert start.records == records;
      if records == [] {
        return None;
      }
      packet := Some(records);
    }

    /** send_flight against the transport; `flushed` is what its flush answers. */
    method SendFlight(mtu: nat, transport: Transport, flushed: int) returns (result: int)
      requires Valid()
      modifies this`sequence, this`lastSequence, this`offset, this`written, transport
      ensures Valid()
      ensures var o := SendLoop(old(View()), mtu, old(transport.answers));
              && View() == o.next
              && transport.taken == old(transport.taken) + o.sent
              && result == if o.result != 1 then o.result else if flushed <= 0 then -1 else 1
    {
      hide SealFrom, ValidAead;
      ghost var whole := SendLoop(View(), mtu, transport.answers);
      ghost var sent := [];
      while written < outgoingLen
        invariant Valid() && outgoing[..outgoingLen] == old(outgoing[..outgoingLen])
        invariant transport.taken == old(transport.taken) + sent
        invariant SendsOn(whole, sent, SendLoop(View(), mtu, transport.answers))
        decreases outgoingLen - written, |transport.answers|
      {
        ghost var rest := SendLoop(View(), mtu, transport.answers);
        var oldWritten, oldOffset := written, offset;
        var packet := SealPacket(mtu);
        if packet.None? {
          return -1;
        }
        var r := transport.Write(packet.value);
        if r <= 0 {
          written := oldWritten;
          offset := oldOffset;
          return r;
        }
        assert [packet.value] <= rest.sent;
        SendsOnAfter(whole, sent, packet.value, rest);
        sent := sent + [packet.value];
        assert rest.sent[1..] == SendLoop(View(), mtu, transport.answers).sent;
      }
      assert sent == whole.sent;
      result := if flushed <= 0 then -1 else 1;
    }

    /** dtls1_flush_flight. */
    method FlushFlight(mtu: nat, transport: Transport, flushed: int) returns (result: int)
      requires Valid()
      modifies this`sequence, this`lastSequence, this`offset, this`written, this`complete, transport
      ensures Valid()
      ensures var o := SendLoop(old(View()).(flightComplete := true), mtu, old(transport.answers));
              && View() == o.next
              && transport.taken == old(transport.taken) + o.sent
              && result == if o.result != 1 then o.result else if flushed <= 0 then -1 else 1
    {
      complete := true;
      result := SendFlight(mtu, transport, flushed);
    }

    /** dtls1_retransmit_outgoing_messages. */
    method Retransmit(mtu: nat, transport: Transport, flushed: int) returns (result: int)
      requires Valid()
      modifies this`sequence, this`lastSequence, this`offset, this`written, transport
      ensures Valid()
      ensures var o := SendLoop(old(View()).(written := 0, offset := 0), mtu, old(transport.answers));
              && View() == o.next
              && transport.taken == old(transport.taken) + o.sent
              && result == if o.result != 1 then o.result else if flushed <= 0 then -1 else 1
    {
      written := 0;
      offset := 0;
      result := SendFlight(mtu, transport, flushed);
    }
  }

  /** Sending `rest` after `sent` amounts to `whole`. */
  ghost predicate SendsOn(whole: SendOutcome, sent: seq<seq<Record>>, rest: SendOutcome) {
    rest.next == whole.next && rest.result == whole.result && sent + rest.sent == whole.sent
  }

  lemma SendsOnAfter(whole: SendOutcome, sent: seq<seq<Record>>, packet: seq<Record>, rest: SendOutcome)
    requires SendsOn(whole, sent, rest) && [packet] <= rest.sent
    ensures (sent + [packet]) + rest.sent[1..] == whole.sent
  {
  }

  /** Sealing `now` after `records` amounts to `start`. */
  ghost predicate Continues(start: Packet, records: seq<Record>, now: Packet) {
    now.next == start.next && now.stop == start.stop && records + now.records == start.records
  }

  lemma ContinuesAfter(start: Packet, records: seq<Record>, made: seq<Record>, now: Packet)
    requires Continues(start, records, now) && made <= now.records
    ensures (records + made) + now.records[|made|..] == start.records
  {
  }
}
