/** What a flight means to the peer: following it to its end carries every byte of every message once. */
module DtlsCoverage {
  import opened Common
  import opened DtlsFragment
  import opened DtlsReceive
  import opened DtlsRecords
  import opened DtlsFlight

  /** The record carries byte `i` of the message numbered `seqNo`. */
  predicate CarriesByte(r: Record, seqNo: nat, i: nat) {
    && r.typ == HandshakeData && OneFragment(r.payload).Some?
    && var f := OneFragment(r.payload).value;
       f.seqNo == seqNo && f.fragOff <= i < f.fragOff + |f.body|
  }

  function TimesCarried(records: seq<Record>, seqNo: nat, i: nat): nat {
    if records == [] then 0
    else (if CarriesByte(records[0], seqNo, i) then 1 else 0) + TimesCarried(records[1..], seqNo, i)
  }

  predicate IsMessage(flight: seq<Outgoing>, k: nat) {
    k < |flight| && !flight[k].isCcs && StoredMessage(flight[k].data).Some?
  }

  function MessageAt(flight: seq<Outgoing>, k: nat): Fragment
    requires IsMessage(flight, k)
  {
    StoredMessage(flight[k].data).value
  }

  /** Messages of a flight are numbered apart. */
  ghost predicate NumberedApart(flight: seq<Outgoing>) {
    forall j: nat, k: nat | j < k < |flight| && IsMessage(flight, j) && IsMessage(flight, k) ::
      MessageAt(flight, j).seqNo != MessageAt(flight, k).seqNo
  }

  /** Byte `i` of message `k` lies at or after `pos` in the flight. */
  predicate StillToSend(pos: Position, k: nat, i: nat) {
    k > pos.index || (k == pos.index && i >= pos.offset)
  }

  /** Following a flight to its end carries each byte still to be sent once, and no other byte of
      the flight's messages again. */
  lemma {:induction false} RestCarriedOnce(flight: seq<Outgoing>, pos: Position, records: seq<Record>, k: nat, i: nat)
    requires NumberedApart(flight) && IsMessage(flight, k) && i < |MessageAt(flight, k).body|
    requires FollowAll(flight, pos, records) == Some(Position(|flight|, 0))
    ensures TimesCarried(records, MessageAt(flight, k).seqNo, i) == if StillToSend(pos, k, i) then 1 else 0
    decreases |records|
  {
    if records != [] {
      var next := Follow(flight, pos, records[0]).value;
      RestCarriedOnce(flight, next, records[1..], k, i);
      StepCarries(flight, pos, records[0], k, i);
    }
  }

  /** One piece carries exactly the bytes between the position before it and the one after it. */
  lemma StepCarries(flight: seq<Outgoing>, pos: Position, record: Record, k: nat, i: nat)
    requires NumberedApart(flight) && IsMessage(flight, k) && i < |MessageAt(flight, k).body|
    requires Follow(flight, pos, record).Some?
    ensures CarriesByte(record, MessageAt(flight, k).seqNo, i) <==>
            StillToSend(pos, k, i) && !StillToSend(Follow(flight, pos, record).value, k, i)
  {
    hide OneFragment, StoredMessage;
    if !flight[pos.index].isCcs {
      assert IsMessage(flight, pos.index);
      var f := OneFragment(record.payload).value;
      assert f.seqNo == MessageAt(flight, pos.index).seqNo;
    }
  }
}
