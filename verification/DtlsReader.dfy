/** The reading side as a whole on the heap: replay window in front, handshake ring behind. */
module DtlsReader {
  import opened Common
  import opened DtlsFragment
  import opened DtlsReceive
  import opened DtlsRecordLayer
  import opened DtlsReceiver
  import opened DtlsReplay

  /** The top 16 bits of a record's 64-bit number are its first two bytes. */
  lemma EpochOfNumber(sequence: seq<Byte>)
    requires |sequence| == 8
    ensures FromBigEndian(sequence) / 0x1_0000_0000_0000 == sequence[0] as int * 256 + sequence[1]
  {
    var s3, s4, s5, s6, s7 := sequence[..3], sequence[..4], sequence[..5], sequence[..6], sequence[..7];
    assert sequence == s7 + [sequence[7]] && s7 == s6 + [sequence[6]] && s6 == s5 + [sequence[5]];
    assert s5 == s4 + [sequence[4]] && s4 == s3 + [sequence[3]] && s3 == sequence[..2] + [sequence[2]];
    AppendByte(s7, sequence[7]);
    AppendByte(s6, sequence[6]);
    AppendByte(s5, sequence[5]);
    AppendByte(s4, sequence[4]);
    AppendByte(s3, sequence[3]);
    AppendByte(sequence[..2], sequence[2]);
    assert sequence[..2] == [sequence[0]] + [sequence[1]];
    AppendByte([sequence[0]], sequence[1]);
    AppendByte([], sequence[0]);
    assert [] + [sequence[0]] == [sequence[0]];
  }

  lemma AppendByte(s: seq<Byte>, b: Byte)
    ensures FromBigEndian(s + [b]) == 256 * FromBigEndian(s) + b
  {
    assert (s + [b])[..|s|] == s;
  }

  class RecordReader {
    const bitmap: Bitmap
    const ring: HandshakeReceiver
    // read_shutdown and warning_alert_count.
    var readShutdown: Shutdown
    var warnings: nat

    ghost predicate Valid()
      reads this, bitmap, ring, ring.Repr
    {
      bitmap !in ring.Repr && this !in ring.Repr && bitmap.Valid() && ring.Valid()
    }

    function View(): Reading
      reads this
    {
      Reading(readShutdown, warnings)
    }

    constructor ()
      ensures Valid() && fresh(bitmap) && fresh(ring.Repr)
      ensures bitmap.window == FRESH_WINDOW && ring.View() == INITIAL && View() == FRESH_READING
    {
      bitmap := new Bitmap();
      ring := new HandshakeReceiver();
      readShutdown, warnings := Going, 0;
    }

    /** ssl_process_alert. */
    method HandleAlert(body: seq<Byte>) returns (outcome: Outcome)
      modifies this
      ensures (View(), outcome) == ProcessAlert(old(View()), body)
    {
      if |body| != 2 {
        return Error(DecodeError);
      }
      if body[0] == 1 {
        if body[1] == 0 {
          readShutdown := Closed;
          return CloseNotify;
        }
        warnings := warnings + 1;
        if warnings > MAX_WARNINGS {
          return Error(UnexpectedMessage);
        }
        return Discard;
      }
      outcome := Error(if body[0] == 2 then NoAlert else IllegalParameter);
    }

    /** ssl_open_handshake: after an error reading is over. */
    method ReceiveRecord(sequence: seq<Byte>, typ: ContentType, plaintext: Option<seq<Byte>>, maxLen: nat)
      returns (outcome: Outcome)
      requires Valid() && |sequence| == 8
      modifies this, bitmap, ring.Repr
      ensures Valid() && fresh(ring.Repr - old(ring.Repr))
      ensures var number := FromBigEndian(sequence);
              Received(bitmap.window, ring.View(), View(), outcome) ==
              Receive(old(bitmap.window), old(ring.View()), old(View()), maxLen,
                      number / 0x1_0000_0000_0000, number, typ, plaintext)
    {
      hide OpenHandshake, ProcessAlert;
      if readShutdown == Failed {
        return Error(NoAlert);
      }
      outcome := OpenOne(sequence, typ, plaintext, maxLen);
      if outcome.Error? {
        readShutdown := Failed;
      }
    }

    /** dtls_open_record and dtls1_open_handshake on one record: the 8-byte number from its
        header, and what the cipher made of its body. */
    method OpenOne(sequence: seq<Byte>, typ: ContentType, plaintext: Option<seq<Byte>>, maxLen: nat)
      returns (outcome: Outcome)
      requires Valid() && |sequence| == 8 && readShutdown != Failed
      modifies this, bitmap, ring.Repr
      ensures Valid() && fresh(ring.Repr - old(ring.Repr))
      ensures var number := FromBigEndian(sequence);
              Received(bitmap.window, ring.View(), Noted(View(), outcome), outcome) ==
              Receive(old(bitmap.window), old(ring.View()), old(View()), maxLen,
                      number / 0x1_0000_0000_0000, number, typ, plaintext)
    {
      hide OpenHandshake, ProcessAlert;
      if readShutdown == Closed {
        return CloseNotify;
      }
      EpochOfNumber(sequence);
      var epoch := sequence[0] as int * 256 + sequence[1];
      if epoch != ring.readEpoch {
        return Discard;
      }
      var seen := bitmap.ShouldDiscard(sequence);
      if seen || plaintext.None? {
        return Discard;
      }
      if |plaintext.value| > MAX_PLAIN_LENGTH {
        return Error(RecordOverflow);
      }
      bitmap.Record(sequence);
      if typ == AlertRecord {
        outcome := HandleAlert(plaintext.value);
        return;
      }
      warnings := 0;
      outcome := ring.Open(maxLen, typ, plaintext.value);
    }

    /** dtls1_set_read_state. */
    method ChangeReadState() returns (ok: bool)
      requires Valid()
      modifies bitmap, ring`readEpoch
      ensures Valid() && ok == SetReadState(old(ring.View())).Some?
      ensures ring.View() == if ok then SetReadState(old(ring.View())).value else old(ring.View())
      ensures bitmap.window == if ok then FRESH_WINDOW else old(bitmap.window)
    {
      ok := ring.ChangeReadState();
      if ok {
        bitmap.Clear();
      }
    }
  }
}
