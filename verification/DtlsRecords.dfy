/** Sealing DTLS records: the record numbers of section 4.1 of RFC 6347, across key changes.
    The cipher is an ideal box of which only the output length is visible. */
module DtlsRecords {
  import opened Common
  import opened DtlsFragment

  const RT_HEADER_LENGTH: nat := 13
  const MAX_SEQUENCE: nat := 0xffff_ffff_ffff

  /** A cipher: how many bytes it adds to an input of a given length (none beyond the table), the
      overhead it promises not to exceed, and the length of the nonce it writes first. */
  datatype Aead = Aead(extra: seq<nat>, maxOverhead: nat, nonceLen: nat)

  predicate ValidAead(a: Aead) {
    && a.nonceLen <= a.maxOverhead
    && forall n: nat | n < |a.extra| :: a.extra[n] <= a.maxOverhead
  }

  function SealedLen(a: Aead, n: nat): nat {
    if n < |a.extra| then n + a.extra[n] else n
  }

  /** A record as the peer's record layer sees it, and its length on the wire. */
  datatype Record = Record(typ: ContentType, epoch: nat, number: nat, payload: seq<Byte>, wireLen: nat)

  type Sequence = n: nat | n <= MAX_SEQUENCE

  /** The write half of the connection: current and previous epoch. */
  datatype WriteState =
    WriteState(epoch: Uint16, sequence: Sequence, lastSequence: Sequence, aead: Aead, lastAead: Aead)

  function UsedAead(w: WriteState, previous: bool): Aead {
    if previous then w.lastAead else w.aead
  }

  function UsedSequence(w: WriteState, previous: bool): nat {
    if previous then w.lastSequence else w.sequence
  }

  function UsedEpoch(w: WriteState, previous: bool): nat
    requires previous ==> w.epoch >= 1
  {
    if previous then w.epoch - 1 else w.epoch
  }

  /** ssl_record_sequence_update on the 48-bit counter in use. */
  function Bump(w: WriteState, previous: bool): WriteState {
    var next := (UsedSequence(w, previous) + 1) % (MAX_SEQUENCE + 1);
    if previous then w.(lastSequence := next) else w.(sequence := next)
  }

  /** dtls_seal_record. A cipher that does not fit leaves the counter alone; wraparound and an
      oversized ciphertext are reported after it has moved. */
  function SealRecord(w: WriteState, previous: bool, typ: ContentType, payload: seq<Byte>, maxOut: nat)
    : (res: (WriteState, Option<Record>))
    requires (previous ==> w.epoch >= 1)
    ensures res.0 == w.(sequence := res.0.sequence, lastSequence := res.0.lastSequence)
    ensures res.1.Some? ==> res.1.value.wireLen <= maxOut
  {
    if maxOut < RT_HEADER_LENGTH then (w, None)
    else
      var len := SealedLen(UsedAead(w, previous), |payload|);
      if len > maxOut - RT_HEADER_LENGTH then (w, None)
      else
        var next := Bump(w, previous);
        if UsedSequence(w, previous) == MAX_SEQUENCE || len >= U16 then (next, None)
        else
          (next, Some(Record(typ, UsedEpoch(w, previous), UsedSequence(w, previous), payload,
                             RT_HEADER_LENGTH + len)))
  }

  /** dtls1_set_write_state. */
  function SetWriteState(w: WriteState, aead: Aead): WriteState {
    WriteState((w.epoch + 1) % U16, 0, w.sequence, aead, w.aead)
  }

  /** After a key change the old keys make the records they would have made before, with the counter going on
      where it was; the new keys begin at number zero of the next epoch. */
  lemma OldKeysGoOn(w: WriteState, aead: Aead, typ: ContentType, payload: seq<Byte>, maxOut: nat)
    requires w.epoch < U16 - 1
    ensures var (before, record) := SealRecord(w, false, typ, payload, maxOut);
            var (later, again) := SealRecord(SetWriteState(w, aead), true, typ, payload, maxOut);
            again == record && later == SetWriteState(before, aead)
    ensures var (next, first) := SealRecord(SetWriteState(w, aead), false, typ, payload, maxOut);
            && (first.Some? ==> first.value.epoch == w.epoch + 1 && first.value.number == 0 && next.sequence == 1)
            && (first.Some? <==> var len := SealedLen(aead, |payload|); 13 + len <= maxOut && len < 0x1_0000)
  {
  }

  datatype WriteEvent =
    | Seal(previous: bool, typ: ContentType, payload: seq<Byte>, maxOut: nat)
    | NewKeys(aead: Aead)

  /** A seal under the previous epoch needs one; the source asserts it. */
  predicate Enabled(w: WriteState, e: WriteEvent) {
    e.Seal? && e.previous ==> w.epoch >= 1
  }

  function Apply(w: WriteState, e: WriteEvent): (WriteState, Option<Record>)
    requires Enabled(w, e)
  {
    match e
    case Seal(previous, typ, payload, maxOut) => SealRecord(w, previous, typ, payload, maxOut)
    case NewKeys(aead) => (SetWriteState(w, aead), None)
  }

  predicate IsRun(w: WriteState, events: seq<WriteEvent>)
    decreases |events|
  {
    events != [] ==> Enabled(w, events[0]) && IsRun(Apply(w, events[0]).0, events[1..])
  }

  function After(w: WriteState, events: seq<WriteEvent>): WriteState
    requires IsRun(w, events)
    decreases |events|
  {
    if events == [] then w else After(Apply(w, events[0]).0, events[1..])
  }

  /** The records a run puts out, in order. */
  function Records(w: WriteState, events: seq<WriteEvent>): seq<Record>
    requires IsRun(w, events)
    decreases |events|
  {
    if events == [] then []
    else
      var (next, r) := Apply(w, events[0]);
      (if r.Some? then [r.value] else []) + Records(next, events[1..])
  }

  /** How many more times a run may seal in the current and in the previous epoch, and change keys. */
  datatype Budget = Budget(current: nat, last: nat, changes: nat)

  /** The run seals at most `n` times in each epoch it begins, whether the seal succeeds or not, and
      keeps to what it has left of the others. */
  predicate Within(events: seq<WriteEvent>, n: nat, b: Budget) {
    events != [] ==>
      match events[0]
      case Seal(true, _, _, _) => b.last > 0 && Within(events[1..], n, b.(last := b.last - 1))
      case Seal(false, _, _, _) => b.current > 0 && Within(events[1..], n, b.(current := b.current - 1))
      case NewKeys(_) => b.changes > 0 && Within(events[1..], n, Budget(n, b.current, b.changes - 1))
  }

  /** The counters and the epoch suffice for the budget. The seal at the last number is refused, and
      leaves the counter at zero. */
  predicate Suffices(w: WriteState, n: nat, b: Budget) {
    && n <= MAX_SEQUENCE + 1 && w.epoch + b.changes < U16
    && (b.current == 0 || w.sequence + b.current <= MAX_SEQUENCE + 1)
    && (b.last == 0 || w.lastSequence + b.last <= MAX_SEQUENCE + 1)
  }

  /** A number that is not handed out any more: one of an earlier epoch, or passed, or of an epoch in
      which nothing more is sealed. */
  predicate Gone(w: WriteState, b: Budget, epoch: nat, number: nat) {
    && epoch <= w.epoch
    && (epoch + 1 == w.epoch ==> number < w.lastSequence || b.last == 0)
    && (epoch == w.epoch ==> number < w.sequence || b.current == 0)
  }

  /** What is left of the budget after one event. */
  function Remaining(e: WriteEvent, n: nat, b: Budget): Budget
    requires Within([e], n, b)
  {
    match e
    case Seal(true, _, _, _) => b.(last := b.last - 1)
    case Seal(false, _, _, _) => b.(current := b.current - 1)
    case NewKeys(_) => Budget(n, b.current, b.changes - 1)
  }

  /** A step within a sufficient budget keeps it sufficient and what is gone gone, and hands out a
      number that was not gone before and is afterwards. */
  lemma StepSpends(w: WriteState, e: WriteEvent, n: nat, b: Budget, epoch: nat, number: nat)
    requires Enabled(w, e) && Within([e], n, b) && Suffices(w, n, b)
    ensures var (next, r) := Apply(w, e);
            var left := Remaining(e, n, b);
            && Suffices(next, n, left)
            && (Gone(w, b, epoch, number) ==> Gone(next, left, epoch, number))
            && (r.Some? ==> !Gone(w, b, r.value.epoch, r.value.number)
                            && Gone(next, left, r.value.epoch, r.value.number))
  {
  }

  lemma WithinSplits(events: seq<WriteEvent>, n: nat, b: Budget)
    requires events != [] && Within(events, n, b)
    ensures Within([events[0]], n, b) && Within(events[1..], n, Remaining(events[0], n, b))
  {
    assert [events[0]][1..] == [];
  }

  /** Whatever a run within a sufficient budget puts out was not gone when it began. */
  lemma {:induction false} RunAvoidsGone(w: WriteState, events: seq<WriteEvent>, n: nat, b: Budget, i: nat)
    requires IsRun(w, events) && Within(events, n, b) && Suffices(w, n, b) && i < |Records(w, events)|
    ensures var r := Records(w, events)[i]; !Gone(w, b, r.epoch, r.number)
    decreases |events|
  {
    hide Suffices, Gone, Within, Apply;
    var (next, r) := Apply(w, events[0]);
    var head := if r.Some? then [r.value] else [];
    var record := Records(w, events)[i];
    WithinSplits(events, n, b);
    StepSpends(w, events[0], n, b, record.epoch, record.number);
    if i >= |head| {
      RunAvoidsGone(next, events[1..], n, Remaining(events[0], n, b), i - |head|);
    }
  }

  /** Over any run of seals under the current or previous epoch and of key changes for which the
      counters suffice, no two records carry the same epoch and number. */
  lemma {:induction false} RecordNumbersUnique(w: WriteState, events: seq<WriteEvent>, n: nat, b: Budget,
                                               i: nat, j: nat)
    requires IsRun(w, events) && Within(events, n, b) && Suffices(w, n, b) && i < j < |Records(w, events)|
    ensures var rs := Records(w, events); (rs[i].epoch, rs[i].number) != (rs[j].epoch, rs[j].number)
    decreases |events|
  {
    hide Suffices, Gone, Within, Apply;
    var (next, r) := Apply(w, events[0]);
    var head := if r.Some? then [r.value] else [];
    var rs := Records(w, events);
    assert rs == head + Records(next, events[1..]);
    WithinSplits(events, n, b);
    StepSpends(w, events[0], n, b, rs[i].epoch, rs[i].number);
    if i < |head| {
      RunAvoidsGone(next, events[1..], n, Remaining(events[0], n, b), j - |head|);
    } else {
      RecordNumbersUnique(next, events[1..], n, Remaining(events[0], n, b), i - |head|, j - |head|);
    }
  }

  // Where uniqueness ends.

  function Fresh(aead: Aead): WriteState {
    WriteState(0, 0, 0, aead, aead)
  }

  /** From a fresh connection, no run with at most `n` seals in each epoch and at most `m` key changes
      gives two records the same epoch and number. */
  ghost predicate UniqueWithin(n: nat, m: nat) {
    forall aead: Aead, events: seq<WriteEvent>, i: nat, j: nat |
      IsRun(Fresh(aead), events) && Within(events, n, Budget(n, 0, m)) && i < j < |Records(Fresh(aead), events)| ::
      var rs := Records(Fresh(aead), events); (rs[i].epoch, rs[i].number) != (rs[j].epoch, rs[j].number)
  }

  lemma {:induction false} RunAppends(w: WriteState, a: seq<WriteEvent>, b: seq<WriteEvent>)
    requires IsRun(w, a) && IsRun(After(w, a), b)
    ensures IsRun(w, a + b) && After(w, a + b) == After(After(w, a), b)
    ensures Records(w, a + b) == Records(w, a) + Records(After(w, a), b)
    decreases |a|
  {
    hide Apply;
    if a == [] {
      assert a + b == b;
    } else {
      assert (a + b)[1..] == a[1..] + b;
      RunAppends(Apply(w, a[0]).0, a[1..], b);
    }
  }

  lemma OneEvent(w: WriteState, e: WriteEvent)
    requires Enabled(w, e)
    ensures IsRun(w, [e]) && After(w, [e]) == Apply(w, e).0
    ensures Records(w, [e]) == if Apply(w, e).1.Some? then [Apply(w, e).1.value] else []
  {
    hide Apply;
    assert [e][1..] == [];
    assert IsRun(Apply(w, e).0, []) && Records(Apply(w, e).0, []) == [];
  }

  const PLAIN: Aead := Aead([], 0, 0)
  const SEAL: WriteEvent := Seal(false, HandshakeData, [], RT_HEADER_LENGTH)
  const FIRST: Record := Record(HandshakeData, 0, 0, [], RT_HEADER_LENGTH)

  function Seals(k: nat): seq<WriteEvent> {
    if k == 0 then [] else Seals(k - 1) + [SEAL]
  }

  lemma {:induction false} SealsWithin(k: nat, rest: seq<WriteEvent>, n: nat, b: Budget)
    requires k <= b.current && Within(rest, n, b.(current := b.current - k))
    ensures Within(Seals(k) + rest, n, b)
  {
    if k == 0 {
      assert Seals(0) + rest == rest;
    } else {
      assert Seals(k) + rest == Seals(k - 1) + ([SEAL] + rest);
      assert ([SEAL] + rest)[1..] == rest;
      SealsWithin(k - 1, [SEAL] + rest, n, b);
    }
  }

  lemma SealsNext(k: nat)
    requires k < MAX_SEQUENCE
    ensures Apply(Fresh(PLAIN).(sequence := k), SEAL) ==
            (Fresh(PLAIN).(sequence := k + 1), Some(FIRST.(number := k)))
  {
  }

  /** Up to the last number, each seal takes the next one. */
  lemma {:induction false} SealsCount(k: nat)
    requires k <= MAX_SEQUENCE
    ensures IsRun(Fresh(PLAIN), Seals(k)) && After(Fresh(PLAIN), Seals(k)) == Fresh(PLAIN).(sequence := k)
    ensures |Records(Fresh(PLAIN), Seals(k))| == k && (k > 0 ==> Records(Fresh(PLAIN), Seals(k))[0] == FIRST)
  {
    hide Apply;
    if k > 0 {
      SealsCount(k - 1);
      SealsNext(k - 1);
      OneEvent(Fresh(PLAIN).(sequence := k - 1), SEAL);
      RunAppends(Fresh(PLAIN), Seals(k - 1), [SEAL]);
    }
  }

  /** One seal at the last number is refused and winds the counter back; the next repeats the first record. */
  lemma CounterRepeats()
    ensures IsRun(Fresh(PLAIN), Seals(MAX_SEQUENCE) + [SEAL] + [SEAL])
    ensures var rs := Records(Fresh(PLAIN), Seals(MAX_SEQUENCE) + [SEAL] + [SEAL]);
            |rs| == MAX_SEQUENCE + 1 && rs[0] == FIRST && rs[MAX_SEQUENCE] == FIRST
  {
    hide Seals, Records, After, IsRun;
    SealsCount(MAX_SEQUENCE);
    OneEvent(Fresh(PLAIN).(sequence := MAX_SEQUENCE), SEAL);
    RunAppends(Fresh(PLAIN), Seals(MAX_SEQUENCE), [SEAL]);
    OneEvent(Fresh(PLAIN), SEAL);
    RunAppends(Fresh(PLAIN), Seals(MAX_SEQUENCE) + [SEAL], [SEAL]);
  }

  function Changes(k: nat): seq<WriteEvent> {
    if k == 0 then [] else Changes(k - 1) + [NewKeys(PLAIN)]
  }

  /** The budget after `k` key changes and no seals. */
  function Changed(n: nat, b: Budget, k: nat): Budget
    requires k <= b.changes
  {
    if k == 0 then b else Budget(n, if k == 1 then b.current else n, b.changes - k)
  }

  lemma {:induction false} ChangesWithin(k: nat, rest: seq<WriteEvent>, n: nat, b: Budget)
    requires k <= b.changes && Within(rest, n, Changed(n, b, k))
    ensures Within(Changes(k) + rest, n, b)
  {
    if k == 0 {
      assert Changes(0) + rest == rest;
    } else {
      var e := NewKeys(PLAIN);
      assert Changes(k) + rest == Changes(k - 1) + ([e] + rest);
      assert ([e] + rest)[1..] == rest;
      ChangesWithin(k - 1, [e] + rest, n, b);
    }
  }

  lemma {:induction false} ChangesCount(w: WriteState, k: nat)
    requires w.aead == w.lastAead == PLAIN
    ensures IsRun(w, Changes(k)) && Records(w, Changes(k)) == []
    ensures var t := After(w, Changes(k));
            t.epoch == (w.epoch + k) % U16 && t.aead == t.lastAead == PLAIN && (k > 0 ==> t.sequence == 0)
  {
    if k > 0 {
      ChangesCount(w, k - 1);
      OneEvent(After(w, Changes(k - 1)), NewKeys(PLAIN));
      RunAppends(w, Changes(k - 1), [NewKeys(PLAIN)]);
    }
  }

  /** Once around the epochs, the first record is repeated. */
  lemma EpochRepeats()
    ensures IsRun(Fresh(PLAIN), [SEAL] + Changes(U16) + [SEAL])
    ensures var rs := Records(Fresh(PLAIN), [SEAL] + Changes(U16) + [SEAL]);
            |rs| == 2 && rs[0] == FIRST && (rs[1].epoch, rs[1].number) == (0, 0)
  {
    hide Changes, Records, After, IsRun;
    OneEvent(Fresh(PLAIN), SEAL);
    var w := After(Fresh(PLAIN), [SEAL]);
    ChangesCount(w, U16);
    RunAppends(Fresh(PLAIN), [SEAL], Changes(U16));
    OneEvent(After(w, Changes(U16)), SEAL);
    RunAppends(Fresh(PLAIN), [SEAL] + Changes(U16), [SEAL]);
  }

  /** Record numbers are unique exactly within 2^48 seals to an epoch and 2^16 epochs. */
  lemma UniqueExactlyWithinBounds(n: nat, m: nat)
    ensures UniqueWithin(n, m) <==> n == 0 || (n <= MAX_SEQUENCE + 1 && m < U16)
  {
    hide Records, IsRun, Within;
    if n <= MAX_SEQUENCE + 1 && m < U16 {
      forall aead: Aead, events: seq<WriteEvent>, i: nat, j: nat |
        IsRun(Fresh(aead), events) && Within(events, n, Budget(n, 0, m)) && i < j < |Records(Fresh(aead), events)|
        ensures var rs := Records(Fresh(aead), events); (rs[i].epoch, rs[i].number) != (rs[j].epoch, rs[j].number)
      {
        RecordNumbersUnique(Fresh(aead), events, n, Budget(n, 0, m), i, j);
      }
    } else if n == 0 {
      forall aead: Aead, events: seq<WriteEvent> | IsRun(Fresh(aead), events) && Within(events, 0, Budget(0, 0, m))
        ensures Records(Fresh(aead), events) == []
      {
        NoSeals(Fresh(aead), events, Budget(0, 0, m));
      }
    } else if n > MAX_SEQUENCE + 1 {
      CounterRepeats();
      TooManySeals(n, m);
      var events := Seals(MAX_SEQUENCE) + [SEAL] + [SEAL];
      assert Records(Fresh(PLAIN), events)[0] == Records(Fresh(PLAIN), events)[MAX_SEQUENCE];
    } else {
      EpochRepeats();
      TooManyChanges(n, m);
      var events := [SEAL] + Changes(U16) + [SEAL];
      assert IsRun(Fresh(PLAIN), events) && 0 < 1 < |Records(Fresh(PLAIN), events)|;
    }
  }

  lemma {:induction false} NoSeals(w: WriteState, events: seq<WriteEvent>, b: Budget)
    requires IsRun(w, events) && Within(events, 0, b) && b.current == b.last == 0
    ensures Records(w, events) == []
    decreases |events|
  {
    if events != [] {
      NoSeals(Apply(w, events[0]).0, events[1..], Budget(0, 0, b.changes - 1));
    }
  }

  lemma TooManySeals(n: nat, m: nat)
    requires n > MAX_SEQUENCE + 1
    ensures Within(Seals(MAX_SEQUENCE) + [SEAL] + [SEAL], n, Budget(n, 0, m))
  {
    var rest := [SEAL, SEAL];
    var b := Budget(n - MAX_SEQUENCE, 0, m);
    assert rest[1..] == [SEAL] && [SEAL][1..] == [];
    assert Within([SEAL], n, b.(current := b.current - 1));
    assert Within(rest, n, b);
    SealsWithin(MAX_SEQUENCE, rest, n, Budget(n, 0, m));
    assert Seals(MAX_SEQUENCE) + [SEAL] + [SEAL] == Seals(MAX_SEQUENCE) + rest;
  }

  lemma TooManyChanges(n: nat, m: nat)
    requires n >= 1 && m >= U16
    ensures Within([SEAL] + Changes(U16) + [SEAL], n, Budget(n, 0, m))
  {
    assert [SEAL][1..] == [];
    var b := Budget(n - 1, 0, m);
    assert Within([SEAL], n, Changed(n, b, U16));
    ChangesWithin(U16, [SEAL], n, b);
    assert ([SEAL] + Changes(U16) + [SEAL])[1..] == Changes(U16) + [SEAL];
  }
}
