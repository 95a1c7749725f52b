/** Calling again after refused writes: any number of calls, each with its own MTU and its own answers of
    the transport. Together they carry the flight on from where it stood to where it ends up standing
    exactly if, before none of them, the flight's layout has a packet that is cut off. */
module DtlsResumed {
  import opened Common
  import opened DtlsFragment
  import opened DtlsReceive
  import opened DtlsRecords
  import opened DtlsFlight
  import opened DtlsCoverage
  import opened DtlsReady
  import opened DtlsCutOff

  /** One call to send the flight: the MTU it goes by, and how the transport answers. */
  datatype Round = Round(mtu: nat, answers: seq<int>)

  /** What any number of calls put on the network, each going on where the last one stopped. */
  function SendRounds(s: Sender, rounds: seq<Round>): (res: (Sender, seq<Record>))
    requires s.written <= |s.flight|
    decreases |rounds|
  {
    if rounds == [] then (s, [])
    else
      var o := SendLoop(s, rounds[0].mtu, rounds[0].answers);
      var rest := SendRounds(o.next, rounds[1..]);
      (rest.0, Flatten(o.sent) + rest.1)
  }

  /** Before some call, the layout has a packet that is cut off. */
  predicate SomeCutOff(s: Sender, rounds: seq<Round>)
    requires s.written <= |s.flight|
    decreases |rounds|
  {
    rounds != [] &&
    var mtu, answers := rounds[0].mtu, rounds[0].answers;
    || CutsOff(s.keys, Attempts(Renumbered(s), mtu, answers))
    || SomeCutOff(SendLoop(s, mtu, answers).next, rounds[1..])
  }

  predicate Before(a: Position, b: Position) {
    a.index < b.index || (a.index == b.index && a.offset < b.offset)
  }

  /** From two different places, the same record leads to places in the same order. */
  lemma FollowBehind(flight: seq<Outgoing>, p: Position, q: Position, r: Record)
    requires Before(p, q) && Follow(flight, p, r).Some? && Follow(flight, q, r).Some?
    ensures Before(Follow(flight, p, r).value, Follow(flight, q, r).value)
  {
    hide OneFragment, StoredMessage;
  }

  lemma {:induction false} FollowAllBehind(flight: seq<Outgoing>, p: Position, q: Position, records: seq<Record>)
    requires Before(p, q) && FollowAll(flight, p, records).Some? && FollowAll(flight, q, records).Some?
    ensures Before(FollowAll(flight, p, records).value, FollowAll(flight, q, records).value)
    decreases |records|
  {
    hide Follow, Before;
    if records != [] {
      FollowBehind(flight, p, q, records[0]);
      FollowAllBehind(flight, Follow(flight, p, records[0]).value, Follow(flight, q, records[0]).value, records[1..]);
    }
  }

  lemma {:induction false} FollowAllFirst(flight: seq<Outgoing>, p: Position, a: seq<Record>, b: seq<Record>)
    requires FollowAll(flight, p, a + b).Some?
    ensures FollowAll(flight, p, a).Some?
    decreases |a|
  {
    hide Follow;
    if a != [] {
      assert (a + b)[1..] == a[1..] + b;
      FollowAllFirst(flight, Follow(flight, p, a[0]).value, a[1..], b);
    }
  }

  /** What one call sends follows from where it starts, and falls short of where it ends exactly if it
      drops records. */
  lemma {:induction false} CallFollows(s: Sender, mtu: nat, answers: seq<int>)
    requires WellFormedSender(s) && ValidPosition(s.flight, PositionOf(s))
    ensures var o := SendLoop(s, mtu, answers);
            var end := FollowAll(s.flight, PositionOf(s), Flatten(o.sent));
            && end.Some?
            && (DropsRecords(s, mtu, answers) ==> Before(end.value, PositionOf(o.next)))
            && (!DropsRecords(s, mtu, answers) ==> end.value == PositionOf(o.next))
    decreases |answers|
  {
    hide Follow, SealFrom, ValidAead, ValidPosition;
    if s.written < |s.flight| {
      var p := SealFrom(s, mtu);
      PacketFollows(s, mtu);
      if PacketOk(p) && answers != [] && answers[0] > 0 {
        CallFollows(p.next, mtu, answers[1..]);
        var o := SendLoop(p.next, mtu, answers[1..]);
        FollowAllAppend(s.flight, PositionOf(s), p.records, Flatten(o.sent));
        assert ([p.records] + o.sent)[1..] == o.sent;
      }
    }
  }

  /** From the place sending stands at, or from one it has moved past: what all the calls send follows to
      the place sending ends at exactly if it starts at the right place and no call is cut off. */
  lemma {:induction false} RoundsFollowFrom(s: Sender, pos: Position, rounds: seq<Round>)
    requires WellFormedSender(s) && ValidPosition(s.flight, PositionOf(s))
    requires pos == PositionOf(s) || Before(pos, PositionOf(s))
    ensures var (t, records) := SendRounds(s, rounds);
            var end := FollowAll(s.flight, pos, records);
            && t.flight == s.flight
            && (pos == PositionOf(s) && !SomeCutOff(s, rounds) ==> end == Some(PositionOf(t)))
            && (pos != PositionOf(s) || SomeCutOff(s, rounds) ==> end.None? || Before(end.value, PositionOf(t)))
    decreases |rounds|
  {
    hide SendLoop, DropsRecords, CutsOff, Attempts, ValidAead, ValidPosition, Follow;
    if rounds != [] {
      var mtu, answers := rounds[0].mtu, rounds[0].answers;
      var o := SendLoop(s, mtu, answers);
      var first, rest := Flatten(o.sent), SendRounds(o.next, rounds[1..]).1;
      DropsExactlyWhenCutOff(s, mtu, answers);
      CallFollows(s, mtu, answers);
      SendLoopFollows(s, mtu, answers);
      if FollowAll(s.flight, pos, first).Some? {
        if pos != PositionOf(s) {
          FollowAllBehind(s.flight, pos, PositionOf(s), first);
        }
        RoundsFollowFrom(o.next, FollowAll(s.flight, pos, first).value, rounds[1..]);
        FollowAllAppend(s.flight, pos, first, rest);
      } else {
        RoundsFollowFrom(o.next, PositionOf(o.next), rounds[1..]);
        if FollowAll(s.flight, pos, first + rest).Some? {
          FollowAllFirst(s.flight, pos, first, rest);
        }
      }
    }
  }

  /** However often sending stopped and was called again: the calls carry the flight on from where it
      stood to where it stands, if and only if the layout has no packet that is cut off before any of
      them. */
  lemma RoundsFollow(s: Sender, rounds: seq<Round>)
    requires WellFormedSender(s) && ValidPosition(s.flight, PositionOf(s))
    ensures var (t, records) := SendRounds(s, rounds);
            FollowAll(s.flight, PositionOf(s), records) == Some(PositionOf(t)) <==> !SomeCutOff(s, rounds)
  {
    RoundsFollowFrom(s, PositionOf(s), rounds);
  }

  /** Calls that together send the flight carry every byte exactly once, unless one of them was cut off. */
  lemma ResumedFlightCarriedOnce(s: Sender, rounds: seq<Round>, k: nat, i: nat)
    requires WellFormedSender(s) && PositionOf(s) == Position(0, 0) && NumberedApart(s.flight)
    requires IsMessage(s.flight, k) && i < |MessageAt(s.flight, k).body|
    ensures var (t, records) := SendRounds(s, rounds);
            PositionOf(t) == Position(|s.flight|, 0) && !SomeCutOff(s, rounds) ==>
              TimesCarried(records, MessageAt(s.flight, k).seqNo, i) == 1
  {
    hide SendRounds, SomeCutOff;
    RoundsFollow(s, rounds);
    var (t, records) := SendRounds(s, rounds);
    if PositionOf(t) == Position(|s.flight|, 0) && !SomeCutOff(s, rounds) {
      RestCarriedOnce(s.flight, Position(0, 0), records, k, i);
    }
  }

  // A guard for all the calls.

  /** Everything can be sealed whatever the round's MTU, and numbers enough for the whole flight are left
      for each round: refused datagrams use up theirs. */
  predicate ReadyForRounds(s: Sender, rounds: seq<Round>) {
    && (forall k: nat | k < |rounds| :: AllSealable(s, rounds[k].mtu))
    && Numbered(s.keys, StillLeft(s) * |rounds|)
  }

  lemma FirstRound(s: Sender, rounds: seq<Round>)
    requires ReadyForRounds(s, rounds) && rounds != []
    ensures Ready(s, rounds[0].mtu, StillLeft(s) + StillLeft(s) * (|rounds| - 1))
  {
    hide AllSealable, StillLeft;
    assert StillLeft(s) + StillLeft(s) * (|rounds| - 1) == StillLeft(s) * |rounds|;
  }

  /** `t` is `s` further along. */
  predicate Later(s: Sender, t: Sender) {
    && t == s.(keys := t.keys, written := t.written, offset := t.offset) && KeepsKeys(s, t)
    && s.written <= t.written && WellFormedSender(t) && ValidPosition(t.flight, PositionOf(t))
  }

  lemma NextRounds(s: Sender, rounds: seq<Round>, t: Sender)
    requires ReadyForRounds(s, rounds) && rounds != [] && Later(s, t)
    requires Numbered(t.keys, StillLeft(s) * (|rounds| - 1)) && StillLeft(t) <= StillLeft(s)
    ensures ReadyForRounds(t, rounds[1..])
  {
    hide AllSealable, StillLeft, Numbered, Later;
    forall k: nat | k < |rounds| - 1
      ensures AllSealable(t, rounds[1..][k].mtu)
    {
      assert AllSealable(s, rounds[k + 1].mtu);
      SealableLater(s, t, rounds[k + 1].mtu);
    }
    Times(StillLeft(t), StillLeft(s), |rounds| - 1);
    NumberedFewer(t.keys, StillLeft(s) * (|rounds| - 1), StillLeft(t) * (|rounds| - 1));
  }

  lemma Times(a: nat, b: nat, n: nat)
    requires a <= b
    ensures a * n <= b * n
  {
  }

  lemma SealableLater(s: Sender, t: Sender, mtu: nat)
    requires AllSealable(s, mtu) && Later(s, t)
    ensures AllSealable(t, mtu)
  {
    hide Sealable, ValidAead, ValidPosition;
    SealableKept(s, t, mtu);
  }

  lemma SealableKept(s: Sender, t: Sender, mtu: nat)
    requires KeepsKeys(s, t)
    ensures forall msg: Outgoing :: Sealable(t.keys, msg, mtu) == Sealable(s.keys, msg, mtu)
  {
  }

  /** With the flight sealable at every MTU and numbers for all of it left for every call, none is cut off. */
  lemma {:induction false} ReadyRoundsNotCutOff(s: Sender, rounds: seq<Round>)
    requires WellFormedSender(s) && ValidPosition(s.flight, PositionOf(s)) && ReadyForRounds(s, rounds)
    ensures !SomeCutOff(s, rounds)
    decreases |rounds|
  {
    hide SendLoop, DropsRecords, CutsOff, Attempts, ValidAead, ValidPosition, ReadyForRounds, Ready, StillLeft;
    if rounds != [] {
      var mtu, answers := rounds[0].mtu, rounds[0].answers;
      FirstRound(s, rounds);
      SendLoopFollows(s, mtu, answers);
      ReadyNeverDrops(s, mtu, StillLeft(s) * (|rounds| - 1), answers);
      DropsExactlyWhenCutOff(s, mtu, answers);
      var o := SendLoop(s, mtu, answers);
      NextRounds(s, rounds, o.next);
      ReadyRoundsNotCutOff(o.next, rounds[1..]);
    }
  }
}
