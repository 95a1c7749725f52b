/** The handshake as the protocol orders it: which side puts what where, and how far each state of
    either machine has come. An abbreviated handshake has the server's Finished first, a full one the
    client's; optional messages have a place that may be empty. What is in transit between the two sides is
    a stretch of the script, read from where the receiving side stands. */
module TlsScript {
  import opened Common
  import opened TlsHandshake

  // The handshake as the protocol defines it (sections 7.3 and 7.4.9 of RFC 5246).

  datatype What = Says(kind: Kind) | Ccs
  datatype Slot = Slot(fromClient: bool, what: What)

  function C(kind: Kind): Slot {
    Slot(true, Says(kind))
  }

  function S(kind: Kind): Slot {
    Slot(false, Says(kind))
  }

  function If(b: bool, s: Slot): seq<Slot> {
    if b then [s] else []
  }

  /** Place `i` of a full handshake; optional messages may leave it empty. */
  function FullAt(n: Negotiated, i: nat): seq<Slot> {
    match i
    case 0 => [C(ClientHello)]
    case 1 => [S(ServerHello)]
    case 2 => If(n.certAuth, S(Certificate))
    case 3 => If(n.status, S(CertificateStatus))
    case 4 => If(n.SendsKeyExchange(), S(ServerKeyExchange))
    case 5 => If(n.certRequest, S(CertificateRequest))
    case 6 => [S(ServerHelloDone)]
    case 7 => If(n.certRequest, C(Certificate))
    case 8 => [C(ClientKeyExchange)]
    case 9 => If(n.certRequest && n.clientCert, C(CertificateVerify))
    case 10 => [Slot(true, Ccs)]
    case 11 => If(n.nextProto, C(NextProto))
    case 12 => If(n.channelId, C(ChannelId))
    case 13 => [C(Finished)]
    case 14 => If(n.ticket, S(NewSessionTicket))
    case 15 => [Slot(false, Ccs)]
    case 16 => [S(Finished)]
    case _ => []
  }

  /** Place `i` of an abbreviated handshake. */
  function ShortAt(n: Negotiated, i: nat): seq<Slot> {
    match i
    case 0 => [C(ClientHello)]
    case 1 => [S(ServerHello)]
    case 2 => If(n.ticket, S(NewSessionTicket))
    case 3 => [Slot(false, Ccs)]
    case 4 => [S(Finished)]
    case 5 => [Slot(true, Ccs)]
    case 6 => If(n.nextProto, C(NextProto))
    case 7 => If(n.channelId, C(ChannelId))
    case 8 => [C(Finished)]
    case _ => []
  }

  function Length(n: Negotiated): nat {
    if n.resumed then 9 else 17
  }

  function At(n: Negotiated, i: nat): seq<Slot> {
    if n.resumed then ShortAt(n, i) else FullAt(n, i)
  }

  /** What is still to come from place `i` on. */
  function Rest(n: Negotiated, i: nat): seq<Slot>
    decreases Length(n) - i
  {
    if i >= Length(n) then [] else At(n, i) + Rest(n, i + 1)
  }

  /** How far a client in a state has come. */
  function ClientPlace(n: Negotiated, h: Hs): nat {
    match h.state
    case StartConnect => 0
    case EnterEarlyData => 1
    case ReadServerHello => 1
    case ReadServerCertificate => 2
    case ReadCertificateStatus => 3
    case VerifyServerCertificate => 4
    case ReadServerKeyExchange => 4
    case ReadCertificateRequest => 5
    case ReadServerHelloDone => 6
    case SendClientCertificate => 7
    case SendClientKeyExchange => 8
    case SendClientCertificateVerify => 9
    case SendClientFinished => if n.resumed then 5 else 10
    case FinishFlight => if n.resumed then 9 else 14
    case ReadSessionTicket => if n.resumed then 2 else 14
    case ProcessServerCcs => (if n.resumed then 3 else 15) + if h.wait.ReadCcs? then 0 else 1
    case ReadServerFinished => if n.resumed then 4 else 16
    case _ => Length(n)
  }

  function ServerPlace(n: Negotiated, h: Hs): nat {
    match h.state
    case StartAccept => 0
    case ReadClientHello => 0
    case SelectCertificate => 0
    case SelectParameters => 0
    case SendServerHello => 1
    case SendServerCertificate => 2
    case SendServerKeyExchange => 4
    case SendServerHelloDone => 5
    case ReadClientCertificate => 7
    case VerifyClientCertificate => 8
    case ReadClientKeyExchange => 8
    case ReadClientCertificateVerify => 9
    case ReadClientCcs => if n.resumed then 5 else 10
    case ProcessClientCcs => (if n.resumed then 5 else 10) + if h.wait.ReadCcs? then 0 else 1
    case ReadNextProto => if n.resumed then 6 else 11
    case ReadChannelId => if n.resumed then 7 else 12
    case ReadClientFinished => if n.resumed then 8 else 13
    case SendServerFinished => if n.resumed then 2 else 14
    case _ => Length(n)
  }

  function ClientRest(n: Negotiated, h: Hs): seq<Slot> {
    Rest(n, ClientPlace(n, h))
  }

  function ServerRest(n: Negotiated, h: Hs): seq<Slot> {
    Rest(n, ServerPlace(n, h))
  }

  // Items and the places they fill.

  predicate UnderNewKeys(k: Kind) {
    k == NextProto || k == ChannelId || k == Finished
  }

  predicate BodyFits(n: Negotiated, fromClient: bool, m: Message, before: seq<Message>) {
    match m.kind
    case Certificate => m.body == Chain(if fromClient then n.clientCert else true)
    case Finished => m.body == Mac(!fromClient, before)
    case _ => true
  }

  /** The item is the one the place calls for, given the transcript before it. */
  predicate Fits(n: Negotiated, slot: Slot, item: Item, before: seq<Message>) {
    match slot.what
    case Ccs => item == ChangeCipherSpec
    case Says(k) =>
      item.Carry? && item.m.kind == k && item.newKeys == UnderNewKeys(k)
      && BodyFits(n, slot.fromClient, item.m, before)
  }

  function Heard(item: Item): seq<Message> {
    if item.Carry? then [item.m] else []
  }

  function Messages(items: seq<Item>): seq<Message> {
    if items == [] then [] else Heard(items[0]) + Messages(items[1..])
  }

  /** `items`, all from one side, fill the places between what one side expects and what the side
      ahead of it does. */
  predicate InFlight(n: Negotiated, behind: seq<Slot>, ahead: seq<Slot>, items: seq<Item>,
                     before: seq<Message>, fromClient: bool)
    decreases |items|
  {
    if items == [] then behind == ahead
    else
      && behind != [] && behind[0].fromClient == fromClient && Fits(n, behind[0], items[0], before)
      && InFlight(n, behind[1..], ahead, items[1..], before + Heard(items[0]), fromClient)
  }

  lemma {:induction false} MessagesAppend(a: seq<Item>, b: seq<Item>)
    ensures Messages(a + b) == Messages(a) + Messages(b)
  {
    hide Heard;
    if a == [] {
      assert a + b == b;
    } else {
      MessagesAppend(a[1..], b);
      assert (a + b)[1..] == a[1..] + b;
      var x, y, z := Heard(a[0]), Messages(a[1..]), Messages(b);
      assert x + (y + z) == x + y + z;
    }
  }

  lemma {:induction false} InFlightAppend(n: Negotiated, behind: seq<Slot>, mid: seq<Slot>, ahead: seq<Slot>,
                                          a: seq<Item>, b: seq<Item>, before: seq<Message>, fromClient: bool)
    requires InFlight(n, behind, mid, a, before, fromClient)
    requires InFlight(n, mid, ahead, b, before + Messages(a), fromClient)
    ensures InFlight(n, behind, ahead, a + b, before, fromClient)
    decreases |a|
  {
    hide Fits;
    if a == [] {
      assert a + b == b && before + Messages(a) == before;
    } else {
      var next := before + Heard(a[0]);
      assert before + Messages(a) == next + Messages(a[1..]);
      InFlightAppend(n, behind[1..], mid, ahead, a[1..], b, next, fromClient);
      assert (a + b)[1..] == a[1..] + b;
    }
  }

  // What one side's step does to what it still expects.

  /** Between `h` and `t` the side has put items in its flight that fill the places between `rest` and
      `later`. */
  predicate Emits(n: Negotiated, h: Hs, t: Hs, rest: seq<Slot>, later: seq<Slot>, fromClient: bool) {
    && h.flight <= t.flight && t.queue == h.queue
    && var items := t.flight[|h.flight|..];
       InFlight(n, rest, later, items, h.transcript, fromClient) && t.transcript == h.transcript + Messages(items)
  }

  /** Or it has taken in the message at hand, which filled the first place of `rest`. */
  predicate Takes(h: Hs, t: Hs, rest: seq<Slot>, later: seq<Slot>) {
    && h.queue != [] && rest != [] && later == rest[1..]
    && t.flight == h.flight && t.queue == h.queue[1..] && t.transcript == h.transcript + [h.queue[0]]
  }

  /** The message at hand, if there is one, fills the first place of `rest`. */
  predicate HeadFits(n: Negotiated, h: Hs, rest: seq<Slot>, fromClient: bool) {
    h.queue != [] ==>
      rest != [] && rest[0].fromClient == fromClient && Fits(n, rest[0], Carry(h.queue[0], h.readKeys), h.transcript)
  }

  lemma EmitsNothing(n: Negotiated, h: Hs, t: Hs, rest: seq<Slot>, fromClient: bool)
    requires t.flight == h.flight && t.queue == h.queue && t.transcript == h.transcript
    ensures Emits(n, h, t, rest, rest, fromClient)
  {
    assert h.transcript + [] == h.transcript;
  }

  lemma EmitsBoth(n: Negotiated, h: Hs, t: Hs, u: Hs, a: seq<Slot>, b: seq<Slot>, c: seq<Slot>,
                     fromClient: bool)
    requires Emits(n, h, t, a, b, fromClient) && Emits(n, t, u, b, c, fromClient)
    ensures Emits(n, h, u, a, c, fromClient)
  {
    hide InFlight, Messages;
    var x, y := t.flight[|h.flight|..], u.flight[|t.flight|..];
    assert u.flight[|h.flight|..] == x + y;
    InFlightAppend(n, a, b, c, x, y, h.transcript, fromClient);
    MessagesAppend(x, y);
    assert h.transcript + Messages(x) + Messages(y) == h.transcript + (Messages(x) + Messages(y));
  }

  lemma EmitsOne(n: Negotiated, h: Hs, t: Hs, rest: seq<Slot>, item: Item)
    requires rest != [] && Fits(n, rest[0], item, h.transcript)
    requires t.flight == h.flight + [item] && t.queue == h.queue && t.transcript == h.transcript + Heard(item)
    ensures Emits(n, h, t, rest, rest[1..], rest[0].fromClient)
  {
    hide Fits;
    assert t.flight[|h.flight|..] == [item];
    assert [item][1..] == [];
    assert Messages([item]) == Heard(item) + [];
    assert InFlight(n, rest[1..], rest[1..], [], h.transcript + Heard(item), rest[0].fromClient);
  }

  lemma SayEmits(n: Negotiated, h: Hs, kind: Kind, body: Body, rest: seq<Slot>)
    requires rest != [] && rest[0].what == Says(kind) && h.writeKeys == UnderNewKeys(kind)
    requires BodyFits(n, rest[0].fromClient, Message(kind, body), h.transcript)
    ensures Emits(n, h, Say(h, kind, body), rest, rest[1..], rest[0].fromClient)
  {
    hide Emits;
    EmitsOne(n, h, Say(h, kind, body), rest, Carry(Message(kind, body), h.writeKeys));
  }

  lemma SayCcsEmits(n: Negotiated, h: Hs, rest: seq<Slot>)
    requires rest != [] && rest[0].what == Ccs
    ensures Emits(n, h, SayCcs(h), rest, rest[1..], rest[0].fromClient)
  {
    hide Emits;
    EmitsOne(n, h, SayCcs(h), rest, ChangeCipherSpec);
  }

  /** A message that is sent only under a condition. */
  lemma SayIfEmits(n: Negotiated, h: Hs, b: bool, kind: Kind, body: Body, rest: seq<Slot>, fromClient: bool)
    requires h.writeKeys == UnderNewKeys(kind) && BodyFits(n, fromClient, Message(kind, body), h.transcript)
    ensures Emits(n, h, if b then Say(h, kind, body) else h,
                  If(b, Slot(fromClient, Says(kind))) + rest, rest, fromClient)
  {
    hide Emits;
    if b {
      var all := [Slot(fromClient, Says(kind))] + rest;
      SayEmits(n, h, kind, body, all);
      assert all[1..] == rest;
    } else {
      EmitsNothing(n, h, h, rest, fromClient);
      assert [] + rest == rest;
    }
  }
}
