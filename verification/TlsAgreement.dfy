/** A client and a server joined by two reliable channels. At every moment one of them is ahead: what
    the other has not taken in yet is exactly what it still expects. So their transcripts agree, every
    Finished check succeeds, no step fails, and they are never stuck. */
module TlsAgreement {
  import opened Common
  import opened TlsHandshake
  import opened TlsScript
  import opened TlsSides
  import opened TlsServerSide

  /** Both sides, and what is on the way to each. */
  datatype System = System(client: Hs, server: Hs, toServer: seq<Item>, toClient: seq<Item>)

  /** Messages in a handshake buffer were under the current read keys. */
  function Buffered(h: Hs): seq<Item> {
    seq(|h.queue|, i requires 0 <= i < |h.queue| => Carry(h.queue[i], h.readKeys))
  }

  /** Everything one side has sent and the other has not taken in: in the other's buffer, in the
      channel, in the flight. */
  function Pending(receiver: Hs, channel: seq<Item>, sender: Hs): seq<Item> {
    Buffered(receiver) + channel + sender.flight
  }

  function Up(s: System): seq<Item> {
    Pending(s.server, s.toServer, s.client)
  }

  function Down(s: System): seq<Item> {
    Pending(s.client, s.toClient, s.server)
  }

  /** One side is ahead of the other by `items`: those fill the places between what the other expects
      and what the side expects, and together with the other's transcript make its transcript. */
  predicate Ahead(n: Negotiated, front: Hs, frontRest: seq<Slot>, back: Hs, backRest: seq<Slot>,
                  items: seq<Item>, fromClient: bool) {
    && InFlight(n, backRest, frontRest, items, back.transcript, fromClient)
    && front.transcript == back.transcript + Messages(items)
  }

  /** Seen from one side: `mine` is what the other has not taken in, `yours` what this side has not. */
  predicate Between(n: Negotiated, me: Hs, meRest: seq<Slot>, you: Hs, youRest: seq<Slot>,
                    mine: seq<Item>, yours: seq<Item>, fromClient: bool) {
    || (yours == [] && Ahead(n, me, meRest, you, youRest, mine, fromClient))
    || (mine == [] && Ahead(n, you, youRest, me, meRest, yours, !fromClient))
  }

  predicate Agree(n: Negotiated, s: System) {
    Between(n, s.client, ClientRest(n, s.client), s.server, ServerRest(n, s.server), Up(s), Down(s), true)
  }

  predicate Inv(n: Negotiated, s: System) {
    n.Valid() && ClientInv(n, s.client) && ServerInv(n, s.server) && Agree(n, s)
  }

  function Start(): System {
    System(Initial(StartConnect), Initial(StartAccept), [], [])
  }

  lemma StartAgrees(n: Negotiated)
    ensures Agree(n, Start())
  {
    hide Rest, Between, Up, Down, Buffered;
    NothingUnderway();
    EvenAtRest(n, Start().client, Start().server, Rest(n, 0));
  }

  lemma NothingUnderway()
    ensures Up(Start()) == [] && Down(Start()) == []
  {
  }

  lemma EvenAtRest(n: Negotiated, me: Hs, you: Hs, rest: seq<Slot>)
    requires me.transcript == you.transcript
    ensures Between(n, me, rest, you, rest, [], [], true)
  {
    hide Fits;
  }

  lemma StartInv(n: Negotiated)
    requires n.Valid()
    ensures Inv(n, Start())
  {
    hide Agree;
    StartAgrees(n);
  }

  // What a side's step does to the agreement.

  /** The side that emits is or becomes the one ahead. `me` is that side, `you` the other. */
  lemma EmittingKeepsAhead(n: Negotiated, me: Hs, t: Hs, meRest: seq<Slot>, tRest: seq<Slot>,
                           you: Hs, youRest: seq<Slot>, mine: seq<Item>, yours: seq<Item>, fromClient: bool)
    requires Emits(n, me, t, meRest, tRest, fromClient)
    requires Between(n, me, meRest, you, youRest, mine, yours, fromClient)
    ensures Between(n, t, tRest, you, youRest, mine + t.flight[|me.flight|..], yours, fromClient)
  {
    hide Fits;
    var items := t.flight[|me.flight|..];
    if yours == [] && Ahead(n, me, meRest, you, youRest, mine, fromClient) {
      InFlightAppend(n, youRest, meRest, tRest, mine, items, you.transcript, fromClient);
      MessagesAppend(mine, items);
      assert you.transcript + Messages(mine) + Messages(items) == you.transcript + (Messages(mine) + Messages(items));
    } else if items == [] {
      assert me.transcript + [] == me.transcript;
    }
  }

  /** The side that takes in a message was behind, and that message was the first it had not taken in. */
  lemma TakingKeepsAhead(n: Negotiated, me: Hs, t: Hs, meRest: seq<Slot>, tRest: seq<Slot>,
                         you: Hs, youRest: seq<Slot>, mine: seq<Item>, yours: seq<Item>, fromClient: bool)
    requires Takes(me, t, meRest, tRest) && yours != [] && Heard(yours[0]) == [me.queue[0]]
    requires Between(n, me, meRest, you, youRest, mine, yours, fromClient)
    ensures mine == [] && Ahead(n, you, youRest, t, tRest, yours[1..], !fromClient)
  {
    hide Fits, InFlight, Messages;
    NothingAhead(n, me, meRest, you, youRest, mine, yours, fromClient);
    InFlightTail(n, meRest, youRest, yours, me.transcript, !fromClient);
    assert me.transcript + ([me.queue[0]] + Messages(yours[1..]))
        == me.transcript + [me.queue[0]] + Messages(yours[1..]);
  }

  lemma NothingAhead(n: Negotiated, me: Hs, meRest: seq<Slot>, you: Hs, youRest: seq<Slot>,
                     mine: seq<Item>, yours: seq<Item>, fromClient: bool)
    requires yours != [] && Between(n, me, meRest, you, youRest, mine, yours, fromClient)
    ensures mine == [] && Ahead(n, you, youRest, me, meRest, yours, !fromClient)
  {
  }

  lemma InFlightTail(n: Negotiated, behind: seq<Slot>, ahead: seq<Slot>, items: seq<Item>,
                     before: seq<Message>, fromClient: bool)
    requires items != [] && InFlight(n, behind, ahead, items, before, fromClient)
    ensures behind != [] && InFlight(n, behind[1..], ahead, items[1..], before + Heard(items[0]), fromClient)
    ensures Messages(items) == Heard(items[0]) + Messages(items[1..])
  {
    hide Fits, Heard;
  }

  /** The first item on the way to a side is what it expects. */
  lemma FirstFits(n: Negotiated, me: Hs, meRest: seq<Slot>, you: Hs, youRest: seq<Slot>,
                  mine: seq<Item>, yours: seq<Item>, fromClient: bool)
    requires yours != []
    requires Between(n, me, meRest, you, youRest, mine, yours, fromClient)
    ensures meRest != [] && meRest[0].fromClient == !fromClient && Fits(n, meRest[0], yours[0], me.transcript)
  {
    hide Fits;
  }

  /** A ChangeCipherSpec is taken in: a place is filled and nothing is heard. */
  lemma CcsKeepsAhead(n: Negotiated, me: Hs, t: Hs, meRest: seq<Slot>, you: Hs, youRest: seq<Slot>,
                      mine: seq<Item>, yours: seq<Item>, fromClient: bool)
    requires yours != [] && yours[0] == ChangeCipherSpec && t.transcript == me.transcript
    requires Between(n, me, meRest, you, youRest, mine, yours, fromClient)
    ensures meRest != [] && mine == [] && Ahead(n, you, youRest, t, meRest[1..], yours[1..], !fromClient)
  {
    hide Fits;
    assert me.transcript + [] == me.transcript;
    assert [] + Messages(yours[1..]) == Messages(yours[1..]);
  }

  // Resolving a wait.

  /** What a side expects while it waits for a message: one from the other side, under the keys it
      reads with. */
  predicate Awaits(rest: seq<Slot>, fromClient: bool, keys: bool) {
    rest != [] && rest[0].fromClient == fromClient ==> rest[0].what.Says? && UnderNewKeys(rest[0].what.kind) == keys
  }

  lemma FlushKeeps(me: Hs, incoming: seq<Item>, outgoing: seq<Item>, you: Hs)
    requires me.wait.Flush? || me.wait.Suspended?
    ensures var r := Resolve(me, incoming);
            && r.Some? && r.value.h.wait.Ok? && r.value.h.transcript == me.transcript
            && Pending(you, outgoing + r.value.sent, r.value.h) == Pending(you, outgoing, me)
            && Pending(r.value.h, r.value.incoming, you) == Pending(me, incoming, you)
  {
    var r := Resolve(me, incoming).value;
    assert Buffered(r.h) == Buffered(me);
    if me.wait.Flush? {
      assert Buffered(you) + (outgoing + me.flight) + [] == Buffered(you) + outgoing + me.flight;
    } else {
      assert outgoing + [] == outgoing;
    }
  }

  lemma ReadKeeps(me: Hs, incoming: seq<Item>, outgoing: seq<Item>, you: Hs)
    requires me.wait.ReadMessage? && me.queue == [] && incoming != []
    requires incoming[0].Carry? && incoming[0].newKeys == me.readKeys
    ensures var r := Resolve(me, incoming);
            && r.Some? && r.value.h.wait.Ok? && r.value.h.transcript == me.transcript
            && Pending(you, outgoing + r.value.sent, r.value.h) == Pending(you, outgoing, me)
            && Pending(r.value.h, r.value.incoming, you) == Pending(me, incoming, you)
  {
    var r := Resolve(me, incoming).value;
    assert outgoing + [] == outgoing;
    assert Buffered(me) + incoming == incoming == Buffered(r.h) + r.incoming;
  }

  lemma CcsKeeps(me: Hs, incoming: seq<Item>, outgoing: seq<Item>, you: Hs)
    requires me.wait.ReadCcs? && me.queue == [] && incoming != [] && incoming[0] == ChangeCipherSpec
    ensures var r := Resolve(me, incoming);
            && r.Some? && r.value.h.wait.Ok? && r.value.h.transcript == me.transcript
            && Pending(you, outgoing + r.value.sent, r.value.h) == Pending(you, outgoing, me)
            && Pending(r.value.h, r.value.incoming, you) == Pending(me, incoming, you)[1..]
  {
    assert outgoing + [] == outgoing;
    assert Buffered(me) + incoming == incoming;
  }

  lemma ResolveKeeps(n: Negotiated, me: Hs, incoming: seq<Item>, outgoing: seq<Item>, you: Hs,
                     meRest: seq<Slot>, tRest: seq<Slot>, youRest: seq<Slot>, fromClient: bool)
    requires Resolve(me, incoming).Some?
    requires Between(n, me, meRest, you, youRest, Pending(you, outgoing, me), Pending(me, incoming, you), fromClient)
    requires me.wait.ReadMessage? ==> me.queue == [] && Awaits(meRest, !fromClient, me.readKeys)
    requires if me.wait.ReadCcs? then me.queue == [] && (meRest != [] ==> meRest[0].what == Ccs && tRest == meRest[1..])
             else tRest == meRest
    ensures var r := Resolve(me, incoming).value;
            && r.h.wait.Ok?
            && Between(n, r.h, tRest, you, youRest, Pending(you, outgoing + r.sent, r.h),
                       Pending(r.h, r.incoming, you), fromClient)
  {
    hide InFlight, Messages, Pending, Resolve;
    var mine, yours := Pending(you, outgoing, me), Pending(me, incoming, you);
    ResolveNeeds(me, incoming);
    if me.wait.Flush? || me.wait.Suspended? {
      FlushKeeps(me, incoming, outgoing, you);
    } else {
      FirstIncoming(me, incoming, you);
      FirstFits(n, me, meRest, you, youRest, mine, yours, fromClient);
      if me.wait.ReadMessage? {
        ReadKeeps(me, incoming, outgoing, you);
      } else {
        CcsKeeps(me, incoming, outgoing, you);
        CcsKeepsAhead(n, me, Resolve(me, incoming).value.h, meRest, you, youRest, mine, yours, fromClient);
      }
    }
  }

  lemma ResolveNeeds(me: Hs, incoming: seq<Item>)
    requires Resolve(me, incoming).Some?
    ensures me.wait.Flush? || me.wait.Suspended? || ((me.wait.ReadMessage? || me.wait.ReadCcs?) && incoming != [])
  {
  }

  lemma FirstIncoming(me: Hs, incoming: seq<Item>, you: Hs)
    requires me.queue == [] && incoming != []
    ensures Pending(me, incoming, you) != [] && Pending(me, incoming, you)[0] == incoming[0]
  {
    assert Buffered(me) == [];
  }

  /** A step along the script keeps the agreement. */
  lemma StepKeeps(n: Negotiated, me: Hs, t: Hs, incoming: seq<Item>, outgoing: seq<Item>, you: Hs,
                  meRest: seq<Slot>, tRest: seq<Slot>, youRest: seq<Slot>, fromClient: bool)
    requires Follows(n, me, t, meRest, tRest, fromClient)
    requires Between(n, me, meRest, you, youRest, Pending(you, outgoing, me), Pending(me, incoming, you), fromClient)
    ensures Between(n, t, tRest, you, youRest, Pending(you, outgoing, t), Pending(t, incoming, you), fromClient)
  {
    hide InFlight, Messages;
    var mine, yours := Pending(you, outgoing, me), Pending(me, incoming, you);
    if Emits(n, me, t, meRest, tRest, fromClient) {
      EmittingKeepsAhead(n, me, t, meRest, tRest, you, youRest, mine, yours, fromClient);
      assert Pending(you, outgoing, t) == mine + t.flight[|me.flight|..];
      assert Buffered(t) == Buffered(me);
    } else {
      assert yours[0] == Carry(me.queue[0], me.readKeys);
      TakingKeepsAhead(n, me, t, meRest, tRest, you, youRest, mine, yours, fromClient);
      assert Pending(t, incoming, you) == yours[1..];
    }
  }

  /** The message at hand is what the side expects. */
  lemma HeadIsNext(n: Negotiated, me: Hs, incoming: seq<Item>, outgoing: seq<Item>, you: Hs,
                   meRest: seq<Slot>, youRest: seq<Slot>, fromClient: bool)
    requires Between(n, me, meRest, you, youRest, Pending(you, outgoing, me), Pending(me, incoming, you), fromClient)
    ensures HeadFits(n, me, meRest, !fromClient)
  {
    hide InFlight, Messages, Fits;
    if me.queue != [] {
      var yours := Pending(me, incoming, you);
      assert yours[0] == Carry(me.queue[0], me.readKeys);
      FirstFits(n, me, meRest, you, youRest, Pending(you, outgoing, me), yours, fromClient);
    }
  }

  // What each side expects in the states in which it waits.

  lemma ClientAwaits(n: Negotiated, h: Hs)
    requires ClientInv(n, h) && h.wait.ReadMessage?
    ensures Awaits(ClientRest(n, h), false, h.readKeys)
  {
    hide Rest, ClientInv;
    if h.state.ReadServerKeyExchange? || h.state.ReadCertificateRequest? {
      ClientAwaitsOptional(n, h);
    } else {
      ClientAwaitsRequired(n, h);
    }
  }

  lemma ClientAwaitsOptional(n: Negotiated, h: Hs)
    requires ClientInv(n, h) && h.wait.ReadMessage?
    requires h.state.ReadServerKeyExchange? || h.state.ReadCertificateRequest?
    ensures Awaits(ClientRest(n, h), false, h.readKeys)
  {
    hide Rest;
    Place(n, ClientPlace(n, h));
    Place(n, 5);
    Place(n, 6);
  }

  lemma ClientAwaitsRequired(n: Negotiated, h: Hs)
    requires ClientInv(n, h) && h.wait.ReadMessage?
    requires !h.state.ReadServerKeyExchange? && !h.state.ReadCertificateRequest?
    ensures Awaits(ClientRest(n, h), false, h.readKeys)
  {
    hide Rest;
    Place(n, ClientPlace(n, h));
  }

  lemma ServerAwaits(n: Negotiated, h: Hs)
    requires n.Valid() && ServerInv(n, h) && h.wait.ReadMessage?
    ensures Awaits(ServerRest(n, h), true, h.readKeys)
  {
    hide Rest;
    Place(n, ServerPlace(n, h));
  }

  lemma ClientAwaitsCcs(n: Negotiated, h: Hs)
    requires ClientInv(n, h) && h.wait.ReadCcs?
    ensures var rest := ClientRest(n, h);
            h.queue == [] && rest != [] && rest[0] == Slot(false, Ccs) && rest[1..] == ClientRest(n, h.(wait := Ok))
  {
    hide Rest;
    Place(n, ClientPlace(n, h));
  }

  lemma ServerAwaitsCcs(n: Negotiated, h: Hs)
    requires ServerInv(n, h) && h.wait.ReadCcs?
    ensures var rest := ServerRest(n, h);
            h.queue == [] && rest != [] && rest[0] == Slot(true, Ccs) && rest[1..] == ServerRest(n, h.(wait := Ok))
  {
    hide Rest;
    Place(n, ServerPlace(n, h));
  }

  /** Resolving a wait keeps a side's own invariant. */
  lemma ClientResolves(n: Negotiated, h: Hs, incoming: seq<Item>)
    requires ClientInv(n, h) && Resolve(h, incoming).Some? && Resolve(h, incoming).value.h.wait.Ok?
    ensures ClientInv(n, Resolve(h, incoming).value.h)
    ensures ClientRest(n, Resolve(h, incoming).value.h) == ClientRest(n, h.(wait := Ok))
    ensures !h.wait.ReadCcs? ==> ClientRest(n, h.(wait := Ok)) == ClientRest(n, h)
  {
    hide ClientInv, ClientRest, Resolve;
    ClientInvResolved(n, h, incoming);
    ClientRestResolved(n, h, incoming);
  }

  lemma ClientRestResolved(n: Negotiated, h: Hs, incoming: seq<Item>)
    requires ClientInv(n, h) && Resolve(h, incoming).Some? && Resolve(h, incoming).value.h.wait.Ok?
    ensures ClientRest(n, Resolve(h, incoming).value.h) == ClientRest(n, h.(wait := Ok))
    ensures !h.wait.ReadCcs? ==> ClientRest(n, h.(wait := Ok)) == ClientRest(n, h)
  {
    hide Rest;
  }

  lemma ClientInvResolved(n: Negotiated, h: Hs, incoming: seq<Item>)
    requires ClientInv(n, h) && Resolve(h, incoming).Some? && Resolve(h, incoming).value.h.wait.Ok?
    ensures ClientInv(n, Resolve(h, incoming).value.h)
  {
  }

  lemma ServerResolves(n: Negotiated, h: Hs, incoming: seq<Item>)
    requires ServerInv(n, h) && Resolve(h, incoming).Some? && Resolve(h, incoming).value.h.wait.Ok?
    ensures ServerInv(n, Resolve(h, incoming).value.h)
    ensures ServerRest(n, Resolve(h, incoming).value.h) == ServerRest(n, h.(wait := Ok))
    ensures !h.wait.ReadCcs? ==> ServerRest(n, h.(wait := Ok)) == ServerRest(n, h)
  {
    hide ServerInv, ServerRest, Resolve;
    ServerInvResolved(n, h, incoming);
    ServerRestResolved(n, h, incoming);
  }

  lemma ServerRestResolved(n: Negotiated, h: Hs, incoming: seq<Item>)
    requires ServerInv(n, h) && Resolve(h, incoming).Some? && Resolve(h, incoming).value.h.wait.Ok?
    ensures ServerRest(n, Resolve(h, incoming).value.h) == ServerRest(n, h.(wait := Ok))
    ensures !h.wait.ReadCcs? ==> ServerRest(n, h.(wait := Ok)) == ServerRest(n, h)
  {
    hide Rest;
  }

  lemma ServerInvResolved(n: Negotiated, h: Hs, incoming: seq<Item>)
    requires ServerInv(n, h) && Resolve(h, incoming).Some? && Resolve(h, incoming).value.h.wait.Ok?
    ensures ServerInv(n, Resolve(h, incoming).value.h)
  {
  }

  // Runs.

  /** One side takes its next turn. */
  datatype Move = ClientMoves(env: Env) | ServerMoves(env: Env)

  function Next(n: Negotiated, s: System, m: Move): (r: Option<System>) {
    match m
    case ClientMoves(env) =>
      var t := ClientTurn(n, s.client, s.toClient, env);
      if t.None? then None
      else Some(System(t.value.h, s.server, s.toServer + t.value.sent, t.value.incoming))
    case ServerMoves(env) =>
      var t := ServerTurn(n, s.server, s.toServer, env);
      if t.None? then None
      else Some(System(s.client, t.value.h, t.value.incoming, s.toClient + t.value.sent))
  }

  lemma ClientMoveKeepsInv(n: Negotiated, s: System, env: Env)
    requires Inv(n, s) && !env.fate.Fail? && Next(n, s, ClientMoves(env)).Some?
    ensures Inv(n, Next(n, s, ClientMoves(env)).value)
  {
    hide Between, Pending, Rest, ClientInv, ServerInv, Resolve, ClientRest, ServerRest, ClientStep, Follows, HeadFits;
    var h, rest := s.client, ClientRest(n, s.client);
    var you, youRest := s.server, ServerRest(n, s.server);
    if h.wait.Ok? {
      HeadIsNext(n, h, s.toClient, s.toServer, you, rest, youRest, true);
      ClientKeepsToScript(n, h, env);
      var t := After(ClientStep(n, h, env));
      StepKeeps(n, h, t, s.toClient, s.toServer, you, rest, ClientRest(n, t), youRest, true);
      assert s.toServer + [] == s.toServer;
    } else {
      if h.wait.ReadMessage? {
        ClientAwaits(n, h);
        ClientQueueEmpty(n, h);
      } else if h.wait.ReadCcs? {
        ClientAwaitsCcs(n, h);
      }
      ClientSameRest(n, h);
      ResolveKeeps(n, h, s.toClient, s.toServer, you, rest, ClientRest(n, h.(wait := Ok)), youRest, true);
      ClientResolves(n, h, s.toClient);
    }
  }

  lemma ClientQueueEmpty(n: Negotiated, h: Hs)
    requires ClientInv(n, h) && h.wait.ReadMessage?
    ensures h.queue == []
  {
  }

  lemma ClientSameRest(n: Negotiated, h: Hs)
    ensures !h.wait.ReadCcs? ==> ClientRest(n, h.(wait := Ok)) == ClientRest(n, h)
  {
  }

  lemma ServerQueueEmpty(n: Negotiated, h: Hs)
    requires ServerInv(n, h) && h.wait.ReadMessage?
    ensures h.queue == []
  {
  }

  lemma ServerSameRest(n: Negotiated, h: Hs)
    ensures !h.wait.ReadCcs? ==> ServerRest(n, h.(wait := Ok)) == ServerRest(n, h)
  {
    hide Rest, Length;
  }

  /** The agreement is the same seen from the server. */
  lemma OtherSide(n: Negotiated, a: Hs, aRest: seq<Slot>, b: Hs, bRest: seq<Slot>, mine: seq<Item>, yours: seq<Item>,
                  fromClient: bool)
    ensures Between(n, a, aRest, b, bRest, mine, yours, fromClient) <==>
            Between(n, b, bRest, a, aRest, yours, mine, !fromClient)
  {
  }

  lemma ServerMoveKeepsInv(n: Negotiated, s: System, env: Env)
    requires Inv(n, s) && !env.fate.Fail? && Next(n, s, ServerMoves(env)).Some?
    ensures Inv(n, Next(n, s, ServerMoves(env)).value)
  {
    hide Between, Pending, Rest, ClientInv, ServerInv, Resolve, ClientRest, ServerRest, ServerStep, Follows, HeadFits;
    var h, rest := s.server, ServerRest(n, s.server);
    var you, youRest := s.client, ClientRest(n, s.client);
    OtherSide(n, you, youRest, h, rest, Up(s), Down(s), true);
    if h.wait.Ok? {
      HeadIsNext(n, h, s.toServer, s.toClient, you, rest, youRest, false);
      ServerKeepsToScript(n, h, env);
      var t := After(ServerStep(n, h, env));
      StepKeeps(n, h, t, s.toServer, s.toClient, you, rest, ServerRest(n, t), youRest, false);
      assert s.toClient + [] == s.toClient;
    } else {
      if h.wait.ReadMessage? {
        ServerAwaits(n, h);
        ServerQueueEmpty(n, h);
      } else if h.wait.ReadCcs? {
        ServerAwaitsCcs(n, h);
      }
      ServerSameRest(n, h);
      ResolveKeeps(n, h, s.toServer, s.toClient, you, rest, ServerRest(n, h.(wait := Ok)), youRest, false);
      ServerResolves(n, h, s.toServer);
    }
    var u := Next(n, s, ServerMoves(env)).value;
    OtherSide(n, u.client, ClientRest(n, u.client), u.server, ServerRest(n, u.server), Up(u), Down(u), true);
  }

  /** What a run reaches; moves that are not possible are skipped. */
  function Run(n: Negotiated, s: System, ms: seq<Move>): System
    decreases |ms|
  {
    if ms == [] then s
    else Run(n, if Next(n, s, ms[0]).Some? then Next(n, s, ms[0]).value else s, ms[1..])
  }

  predicate NoFailures(ms: seq<Move>) {
    forall i: nat | i < |ms| :: !ms[i].env.fate.Fail?
  }

  lemma {:induction false} RunKeepsInv(n: Negotiated, s: System, ms: seq<Move>)
    requires Inv(n, s) && NoFailures(ms)
    ensures Inv(n, Run(n, s, ms))
    decreases |ms|
  {
    hide Inv, Next;
    if ms != [] {
      var m := ms[0];
      if Next(n, s, m).Some? {
        if m.ClientMoves? {
          ClientMoveKeepsInv(n, s, m.env);
        } else {
          ServerMoveKeepsInv(n, s, m.env);
        }
        RunKeepsInv(n, Next(n, s, m).value, ms[1..]);
      } else {
        RunKeepsInv(n, s, ms[1..]);
      }
    }
  }

  // What the agreement means.

  /** At most one direction has anything in it, and with what is on the way both transcripts are the
      same; nothing has failed, so every Finished that was checked was right. */
  lemma AgreementMeans(n: Negotiated, s: System)
    requires Inv(n, s)
    ensures Up(s) == [] || Down(s) == []
    ensures s.client.transcript + Messages(Down(s)) == s.server.transcript + Messages(Up(s))
    ensures !s.client.wait.Error? && !s.server.wait.Error?
  {
    hide InFlight;
    assert s.client.transcript + [] == s.client.transcript && s.server.transcript + [] == s.server.transcript;
  }

  /** A side that cannot move is done or waits for an item that is not there. */
  lemma ClientStops(n: Negotiated, h: Hs, incoming: seq<Item>, env: Env)
    requires ClientInv(n, h) && ClientTurn(n, h, incoming, env).None?
    ensures (h.state.ClientDone? && h.wait.Ok?) || ((h.wait.ReadMessage? || h.wait.ReadCcs?) && incoming == [])
  {
    hide ClientStep;
  }

  lemma ServerStops(n: Negotiated, h: Hs, incoming: seq<Item>, env: Env)
    requires ServerInv(n, h) && ServerTurn(n, h, incoming, env).None?
    ensures (h.state.ServerDone? && h.wait.Ok?) || ((h.wait.ReadMessage? || h.wait.ReadCcs?) && incoming == [])
  {
    hide ServerStep;
  }

  /** A side that waits for an item has nothing to flush, and the other side is to move. */
  lemma ClientWaits(n: Negotiated, h: Hs)
    requires ClientInv(n, h) && (h.wait.ReadMessage? || h.wait.ReadCcs?)
    ensures h.flight == [] && h.queue == [] && ClientRest(n, h) != [] && !ClientRest(n, h)[0].fromClient
  {
    hide Rest;
    Place(n, ClientPlace(n, h));
    if h.state.ReadServerKeyExchange? || h.state.ReadCertificateRequest? {
      Place(n, 5);
      Place(n, 6);
    }
  }

  lemma ServerWaits(n: Negotiated, h: Hs)
    requires n.Valid() && ServerInv(n, h) && (h.wait.ReadMessage? || h.wait.ReadCcs?)
    ensures h.flight == [] && h.queue == [] && ServerRest(n, h) != [] && ServerRest(n, h)[0].fromClient
  {
    hide Rest;
    Place(n, ServerPlace(n, h));
  }

  /** A side that is done has flushed everything and expects nothing. */
  lemma DoneAtEnd(n: Negotiated, c: Hs, s: Hs)
    requires ClientInv(n, c) && ServerInv(n, s)
    ensures c.state.ClientDone? && c.wait.Ok? ==> c.flight == [] && ClientRest(n, c) == []
    ensures s.state.ServerDone? && s.wait.Ok? ==> s.flight == [] && ServerRest(n, s) == []
  {
    ClientAtEnd(n, c);
    ServerAtEnd(n, s);
  }

  lemma ClientAtEnd(n: Negotiated, c: Hs)
    requires ClientInv(n, c)
    ensures c.state.ClientDone? && c.wait.Ok? ==> c.flight == [] && ClientRest(n, c) == []
  {
  }

  lemma ServerAtEnd(n: Negotiated, s: Hs)
    requires ServerInv(n, s)
    ensures s.state.ServerDone? && s.wait.Ok? ==> s.flight == [] && ServerRest(n, s) == []
  {
  }

  /** No reachable pair is stuck: one side can move unless both are done; and then their transcripts
      are the same and nothing is left on the way. */
  lemma NeverStuck(n: Negotiated, s: System, env: Env)
    requires Inv(n, s)
    ensures Next(n, s, ClientMoves(env)).None? && Next(n, s, ServerMoves(env)).None? ==>
              && s.client.state.ClientDone? && s.server.state.ServerDone?
              && s.client.transcript == s.server.transcript && Up(s) == [] && Down(s) == []
  {
    hide ClientInv, ServerInv, ClientTurn, ServerTurn, ClientRest, ServerRest, InFlight, Pending, Messages;
    if Next(n, s, ClientMoves(env)).None? && Next(n, s, ServerMoves(env)).None? {
      ClientStops(n, s.client, s.toClient, env);
      ServerStops(n, s.server, s.toServer, env);
      DoneAtEnd(n, s.client, s.server);
      if !s.client.wait.Ok? {
        ClientWaits(n, s.client);
      }
      if !s.server.wait.Ok? {
        ServerWaits(n, s.server);
      }
      NothingInFlight(n, ServerRest(n, s.server), ClientRest(n, s.client), Up(s), s.server.transcript, true);
      NothingInFlight(n, ClientRest(n, s.client), ServerRest(n, s.server), Down(s), s.client.transcript, false);
      NothingPending(s.server, s.toServer, s.client);
      NothingPending(s.client, s.toClient, s.server);
      NoMessages(s.client.transcript);
      NoMessages(s.server.transcript);
    }
  }

  lemma NothingInFlight(n: Negotiated, behind: seq<Slot>, ahead: seq<Slot>, items: seq<Item>,
                        before: seq<Message>, fromClient: bool)
    ensures InFlight(n, behind, ahead, items, before, fromClient) && behind == [] ==> items == []
    ensures InFlight(n, behind, ahead, [], before, fromClient) ==> behind == ahead
  {
  }

  lemma NothingPending(receiver: Hs, channel: seq<Item>, sender: Hs)
    requires sender.flight == []
    ensures receiver.queue == [] && channel == [] ==> Pending(receiver, channel, sender) == []
  {
  }

  lemma NoMessages(t: seq<Message>)
    ensures t + Messages([]) == t
  {
  }

  /** Started afresh, in any order of moves, with callbacks answering late as often as they like: the
      two sides agree at every moment and are never stuck. */
  lemma HandshakeAgrees(n: Negotiated, ms: seq<Move>, env: Env)
    requires n.Valid() && NoFailures(ms)
    ensures var s := Run(n, Start(), ms);
            && (Up(s) == [] || Down(s) == [])
            && s.client.transcript + Messages(Down(s)) == s.server.transcript + Messages(Up(s))
            && !s.client.wait.Error? && !s.server.wait.Error?
            && (Next(n, s, ClientMoves(env)).None? && Next(n, s, ServerMoves(env)).None? ==>
                  s.client.state.ClientDone? && s.server.state.ServerDone?
                  && s.client.transcript == s.server.transcript)
  {
    hide Inv, Next, Run, Up, Down, Messages;
    StartInv(n);
    RunKeepsInv(n, Start(), ms);
    AgreementMeans(n, Run(n, Start(), ms));
    NeverStuck(n, Run(n, Start(), ms), env);
  }

  // Progress.

  function Phase(h: Hs): nat {
    match h.wait
    case Ok => if h.queue == [] then 2 else 0
    case ReadMessage => 1
    case _ => 3
  }

  /** What a side still has to do. */
  function Work(n: Negotiated, h: Hs): nat {
    4 * Rank(n, h.state) + Phase(h)
  }

  lemma ResolvingProgresses(n: Negotiated, h: Hs, incoming: seq<Item>)
    requires Resolve(h, incoming).Some? && Resolve(h, incoming).value.h.wait.Ok?
    requires h.wait.ReadCcs? ==> h.queue == []
    ensures Work(n, Resolve(h, incoming).value.h) < Work(n, h)
  {
    hide Rank;
  }

  lemma SteppingProgresses(n: Negotiated, h: Hs, env: Env, o: Outcome)
    requires Proceeds(n, h, env, o) && h.wait.Ok?
    requires !o.wait.Suspended? && !o.wait.Error? && (o.wait.ReadMessage? ==> h.queue == [])
    ensures Work(n, After(o)) < Work(n, h)
  {
    hide Rank;
  }

  /** Every move in which the callbacks answer leaves less to do, so the handshake comes to its end:
      with NeverStuck, both sides are done when no move is left. */
  lemma EveryMoveProgresses(n: Negotiated, s: System, m: Move)
    requires Inv(n, s) && m.env.fate.Proceed? && Next(n, s, m).Some?
    ensures var t := Next(n, s, m).value;
            Work(n, t.client) + Work(n, t.server) < Work(n, s.client) + Work(n, s.server)
  {
    hide Agree, Work, Resolve, ClientStep, ServerStep, ClientInv, ServerInv, Proceeds;
    var t := Next(n, s, m).value;
    if m.ClientMoves? {
      ClientMoveKeepsInv(n, s, m.env);
      ClientInvFacts(n, s.client);
      ClientInvFacts(n, t.client);
      if s.client.wait.Ok? {
        Settled(n, s.client, m.env, ClientStep(n, s.client, m.env));
        SteppingProgresses(n, s.client, m.env, ClientStep(n, s.client, m.env));
      } else {
        ResolvedOk(s.client, s.toClient);
        ResolvingProgresses(n, s.client, s.toClient);
      }
    } else {
      ServerMoveKeepsInv(n, s, m.env);
      ServerInvFacts(n, s.server);
      ServerInvFacts(n, t.server);
      if s.server.wait.Ok? {
        Settled(n, s.server, m.env, ServerStep(n, s.server, m.env));
        SteppingProgresses(n, s.server, m.env, ServerStep(n, s.server, m.env));
      } else {
        ResolvedOk(s.server, s.toServer);
        ResolvingProgresses(n, s.server, s.toServer);
      }
    }
  }

  lemma Settled(n: Negotiated, h: Hs, env: Env, o: Outcome)
    requires Proceeds(n, h, env, o)
    ensures o.wait.ReadMessage? ==> After(o).queue == h.queue
    ensures o.wait.Suspended? ==> env.fate.Retry?
  {
  }

  lemma ResolvedOk(h: Hs, incoming: seq<Item>)
    requires Resolve(h, incoming).Some?
    ensures Resolve(h, incoming).value.h.wait.Ok? || Resolve(h, incoming).value.h.wait.Error?
  {
  }

  lemma ClientInvFacts(n: Negotiated, h: Hs)
    requires ClientInv(n, h)
    ensures !h.wait.Error? && ClientMachine(h.state) && (h.wait.ReadMessage? || h.wait.ReadCcs? ==> h.queue == [])
  {
  }

  lemma ServerInvFacts(n: Negotiated, h: Hs)
    requires ServerInv(n, h)
    ensures !h.wait.Error? && !ClientMachine(h.state) && (h.wait.ReadMessage? || h.wait.ReadCcs? ==> h.queue == [])
  {
  }
}
