/** What a side has been through, whatever its peer sent: the states of its handshake each once and in order, every
    message that had to come, every check that had to succeed, and the ChangeCipherSpec. The tables say for each
    state of either side which messages it takes in and says, by kind and in order, where something is checked that
    may go wrong, and where somebody has to decide, as the flights of section 7.3 and the messages of section 7.4 of
    RFC 5246 have it. The lemmas prove state by state that a step of the client goes on only as the tables say. */
module TlsPassage {
  import opened Common
  import opened TlsHandshake

  /** A step that went on: its state, what the checks and callbacks answered, the messages at hand, those of
      them it took in, and what it said. */
  datatype Passage = Passage(state: State, fate: Fate, hand: seq<Message>, took: seq<Message>, said: seq<Item>)

  /** The kinds of messages, in order. */
  function Kinds(ms: seq<Message>): (ks: seq<Kind>)
    ensures |ks| == |ms| && forall i: nat | i < |ms| :: ks[i] == ms[i].kind
  {
    seq(|ms|, i requires 0 <= i < |ms| => ms[i].kind)
  }

  /** What is said, told by kind; none for a ChangeCipherSpec. */
  function Labels(items: seq<Item>): (ls: seq<Option<Kind>>)
    ensures |ls| == |items|
    ensures forall i: nat | i < |items| :: ls[i] == if items[i].Carry? then Some(items[i].m.kind) else None
  {
    seq(|items|, i requires 0 <= i < |items| => if items[i].Carry? then Some(items[i].m.kind) else None)
  }

  // The client, as sections 7.3 and 7.4 of RFC 5246 have it.

  /** The state a step that goes on leads to. */
  function ClientNext(n: Negotiated, s: State): State {
    match s
    case StartConnect => EnterEarlyData
    case EnterEarlyData => ReadServerHello
    case ReadServerHello => if n.resumed then ReadSessionTicket else ReadServerCertificate
    case ReadServerCertificate => ReadCertificateStatus
    case ReadCertificateStatus => VerifyServerCertificate
    case VerifyServerCertificate => ReadServerKeyExchange
    case ReadServerKeyExchange => ReadCertificateRequest
    case ReadCertificateRequest => ReadServerHelloDone
    case ReadServerHelloDone => SendClientCertificate
    case SendClientCertificate => SendClientKeyExchange
    case SendClientKeyExchange => SendClientCertificateVerify
    case SendClientCertificateVerify => SendClientFinished
    case SendClientFinished => FinishFlight
    case FinishFlight => if n.resumed then FinishClient else ReadSessionTicket
    case ReadSessionTicket => ProcessServerCcs
    case ProcessServerCcs => ReadServerFinished
    case ReadServerFinished => if n.resumed then SendClientFinished else FinishClient
    case _ => ClientDone
  }

  /** The state after `i` steps that went on. */
  function ClientAt(n: Negotiated, i: nat): State {
    if i == 0 then StartConnect else ClientNext(n, ClientAt(n, i - 1))
  }

  /** What a step of the client has to take in; an optional message may be missing. */
  predicate ClientTakes(n: Negotiated, p: Passage) {
    var ks := Kinds(p.took);
    match p.state
    case ReadServerHello => ks == [ServerHello]
    case ReadServerCertificate => if n.certAuth then p.took == [Message(Certificate, Chain(true))] else ks == []
    case ReadCertificateStatus => ks == [] || (n.status && ks == [CertificateStatus])
    case ReadServerKeyExchange =>
      if n.ecdhe then ks == [ServerKeyExchange]
      else ks == [] || (!n.certAuth && ks == [ServerKeyExchange])
    case ReadCertificateRequest => ks == [] || (n.certAuth && ks == [CertificateRequest])
    case ReadServerHelloDone => ks == [ServerHelloDone]
    case ReadSessionTicket => ks == if n.ticket then [NewSessionTicket] else []
    case ReadServerFinished => ks == [Finished]
    case _ => ks == []
  }

  /** What it says. `asked`: the server has asked for a certificate. */
  predicate ClientSays(n: Negotiated, asked: bool, p: Passage) {
    var ls := Labels(p.said);
    match p.state
    case StartConnect => ls == [Some(ClientHello)]
    case SendClientCertificate =>
      if asked then ls == [Some(Certificate)] && p.said[0].m.body == Chain(n.clientCert) else ls == []
    case SendClientKeyExchange => ls == [Some(ClientKeyExchange)]
    case SendClientCertificateVerify => ls == if asked && n.clientCert then [Some(CertificateVerify)] else []
    case SendClientFinished =>
      ls == [None] + (if n.nextProto then [Some(NextProto)] else []) + (if n.channelId then [Some(ChannelId)] else [])
            + [Some(Finished)]
    case _ => ls == []
  }

  /** The states at which something is checked that may go wrong: whatever is taken in or said, the server's
      certificate, and the keys. */
  predicate ClientChecks(n: Negotiated, p: Passage) {
    || p.took != [] || p.said != []
    || (p.state.VerifyServerCertificate? && n.certAuth)
    || p.state.FinishFlight? || p.state.ProcessServerCcs? || p.state.FinishClient?
  }

  /** The states that wait for somebody's decision: on the server's certificate, for a certificate of the
      client's, for a signature. */
  predicate ClientDecides(n: Negotiated, p: Passage) {
    || (p.state.VerifyServerCertificate? && n.certAuth)
    || (p.state.SendClientCertificate? && p.said != [])
    || (p.state.SendClientCertificateVerify? && p.said != [])
    || (p.state.SendClientFinished? && n.channelId)
  }

  predicate ClientPasses(n: Negotiated, asked: bool, p: Passage) {
    && ClientTakes(n, p) && ClientSays(n, asked, p) && p.took <= p.hand
    && (ClientChecks(n, p) ==> !p.fate.Fail?)
    && (ClientDecides(n, p) ==> p.fate.Proceed?)
  }

  // The server.

  function ServerNext(n: Negotiated, s: State): State {
    match s
    case StartAccept => ReadClientHello
    case ReadClientHello => SelectCertificate
    case SelectCertificate => SelectParameters
    case SelectParameters => SendServerHello
    case SendServerHello => if n.resumed then SendServerFinished else SendServerCertificate
    case SendServerCertificate => SendServerKeyExchange
    case SendServerKeyExchange => SendServerHelloDone
    case SendServerHelloDone => ReadClientCertificate
    case ReadClientCertificate => VerifyClientCertificate
    case VerifyClientCertificate => ReadClientKeyExchange
    case ReadClientKeyExchange => ReadClientCertificateVerify
    case ReadClientCertificateVerify => ReadClientCcs
    case ReadClientCcs => ProcessClientCcs
    case ProcessClientCcs => ReadNextProto
    case ReadNextProto => ReadChannelId
    case ReadChannelId => ReadClientFinished
    case ReadClientFinished => if n.resumed then FinishServer else SendServerFinished
    case SendServerFinished => if n.resumed then ReadClientCcs else FinishServer
    case _ => ServerDone
  }

  function ServerAt(n: Negotiated, i: nat): State {
    if i == 0 then StartAccept else ServerNext(n, ServerAt(n, i - 1))
  }

  /** `shown`: the client has sent a certificate that is not empty. */
  predicate ServerTakes(n: Negotiated, shown: bool, p: Passage) {
    var ks := Kinds(p.took);
    match p.state
    case ReadClientHello => ks == [] && p.hand != [] && p.hand[0].kind == ClientHello
    case SelectCertificate => ks == [] && p.hand != [] && p.hand[0].kind == ClientHello
    case SelectParameters => ks == [ClientHello]
    case ReadClientCertificate =>
      ks == (if n.certRequest then [Certificate] else []) && (ks == [] || p.took[0].body.Chain?)
    case ReadClientKeyExchange => ks == [ClientKeyExchange]
    case ReadClientCertificateVerify => ks == if shown then [CertificateVerify] else []
    case ReadNextProto => ks == if n.nextProto then [NextProto] else []
    case ReadChannelId => ks == if n.channelId then [ChannelId] else []
    case ReadClientFinished => ks == [Finished]
    case _ => ks == []
  }

  predicate ServerSays(n: Negotiated, p: Passage) {
    var ls := Labels(p.said);
    match p.state
    case SendServerHello => ls == [Some(ServerHello)]
    case SendServerCertificate =>
      && ls == (if n.certAuth then [Some(Certificate)] + (if n.status then [Some(CertificateStatus)] else []) else [])
      && (n.certAuth ==> p.said[0].m.body == Chain(true))
    case SendServerKeyExchange =>
      ls == if n.ecdhe || (!n.certAuth && n.pskHint) then [Some(ServerKeyExchange)] else []
    case SendServerHelloDone =>
      ls == (if n.certRequest then [Some(CertificateRequest)] else []) + [Some(ServerHelloDone)]
    case SendServerFinished => ls == (if n.ticket then [Some(NewSessionTicket)] else []) + [None, Some(Finished)]
    case _ => ls == []
  }

  predicate ServerChecks(n: Negotiated, shown: bool, p: Passage) {
    || p.took != [] || p.said != []
    || p.state.ReadClientHello? || p.state.SelectCertificate? || p.state.SelectParameters?
    || p.state.SendServerCertificate?
    || (p.state.VerifyClientCertificate? && shown) || p.state.ProcessClientCcs? || p.state.FinishServer?
  }

  predicate ServerDecides(n: Negotiated, shown: bool, p: Passage) {
    || p.state.ReadClientHello? || p.state.SelectCertificate? || p.state.SelectParameters?
    || (p.state.SendServerKeyExchange? && p.said != [] && n.certAuth)
    || (p.state.VerifyClientCertificate? && shown)
    || (p.state.ReadClientKeyExchange? && n.certAuth && !n.ecdhe)
  }

  predicate ServerPasses(n: Negotiated, shown: bool, p: Passage) {
    && ServerTakes(n, shown, p) && ServerSays(n, p) && p.took <= p.hand
    && (ServerChecks(n, shown, p) ==> !p.fate.Fail?)
    && (ServerDecides(n, shown, p) ==> p.fate.Proceed?)
  }

  // Steps.

  /** The step went on, if only to wait for its flight or for a ChangeCipherSpec. */
  predicate WentOn(o: Outcome) {
    o.wait.Ok? || o.wait.Flush? || o.wait.ReadCcs?
  }

  /** What the step did, from the state before and after it. */
  function PassageOf(h: Hs, env: Env, o: Outcome): Passage {
    Passage(h.state, env.fate, h.queue,
            if |o.h.queue| <= |h.queue| then h.queue[..|h.queue| - |o.h.queue|] else [],
            if |h.flight| <= |o.h.flight| then o.h.flight[|h.flight|..] else [])
  }

  lemma QuietPassage(h: Hs, env: Env, o: Outcome)
    requires o.h.queue == h.queue && o.h.flight == h.flight
    ensures PassageOf(h, env, o) == Passage(h.state, env.fate, h.queue, [], [])
  {
  }

  lemma TakingPassage(h: Hs, env: Env, o: Outcome)
    requires h.queue != [] && o.h.queue == h.queue[1..] && o.h.flight == h.flight
    ensures PassageOf(h, env, o) == Passage(h.state, env.fate, h.queue, [h.queue[0]], [])
  {
    assert h.queue[..1] == [h.queue[0]];
  }

  lemma SayingPassage(h: Hs, env: Env, o: Outcome, items: seq<Item>)
    requires o.h.queue == h.queue && o.h.flight == h.flight + items
    ensures PassageOf(h, env, o) == Passage(h.state, env.fate, h.queue, [], items)
  {
    assert (h.flight + items)[|h.flight|..] == items;
  }

  predicate Halted(h: Hs, t: Hs) {
    && t.state == h.state && t.learned == h.learned && t.readKeys == h.readKeys
    && t.queue == h.queue && t.flight == h.flight
  }

  /** A step of the client goes on only as it should, to the next state; any other leaves the state. */
  predicate ClientStepPasses(n: Negotiated, h: Hs, env: Env, o: Outcome) {
    var p := PassageOf(h, env, o);
    && (!WentOn(o) ==> Halted(h, o.h) && (h.state.ProcessServerCcs? ==> o.wait.Error?))
    && (WentOn(o) ==>
          && ClientPasses(n, h.learned, p) && o.h.state == ClientNext(n, h.state)
          && h.queue == p.took + o.h.queue
          && o.h.learned == (h.learned || (p.state.ReadCertificateRequest? && p.took != []))
          && o.h.readKeys == (h.readKeys || p.state.ProcessServerCcs?)
          && (o.wait.ReadCcs? <==> o.h.state.ProcessServerCcs?))
  }

  /** What a step has done if it takes in a message or waits for it. */
  lemma Received(h: Hs, kind: Kind, env: Env, next: State)
    ensures var o := Receive(h, kind, env, next);
            && (o.wait.Ok? || o.wait.ReadMessage? || o.wait.Error?)
            && (o.wait.Ok? ==>
                  && h.queue != [] && h.queue[0].kind == kind && !env.fate.Fail? && o.h.state == next
                  && h.queue == [h.queue[0]] + o.h.queue && o.h.queue == h.queue[1..]
                  && o.h == h.(state := next, queue := o.h.queue, transcript := o.h.transcript))
            && (!o.wait.Ok? ==> o.h == h)
  {
  }

  lemma ClientGreets(n: Negotiated, h: Hs, env: Env)
    requires h.state.StartConnect? || h.state.EnterEarlyData?
    ensures ClientStepPasses(n, h, env, if h.state.StartConnect? then DoStartConnect(n, h, env)
                                        else DoEnterEarlyData(n, h, env))
  {
    hide Rank, Proceeds, PassageOf;
    if h.state.StartConnect? {
      var o := DoStartConnect(n, h, env);
      if WentOn(o) {
        SayingPassage(h, env, o, [Carry(Message(ClientHello, Opaque(env.bytes)), h.writeKeys)]);
      }
    } else {
      QuietPassage(h, env, DoEnterEarlyData(n, h, env));
    }
  }

  lemma ClientHears(n: Negotiated, h: Hs, env: Env)
    requires h.state.ReadServerHello?
    ensures ClientStepPasses(n, h, env, DoReadServerHello(n, h, env))
  {
    hide Rank, Proceeds, PassageOf, Receive;
    var o := DoReadServerHello(n, h, env);
    Received(h, ServerHello, env, ClientNext(n, h.state));
    if WentOn(o) {
      TakingPassage(h, env, o);
    }
  }

  lemma ClientTakesCertificate(n: Negotiated, h: Hs, env: Env)
    requires h.state.ReadServerCertificate?
    ensures ClientStepPasses(n, h, env, DoReadServerCertificate(n, h, env))
  {
    hide Rank, Proceeds, PassageOf, Receive, ReceiveFinished;
    var o := DoReadServerCertificate(n, h, env);
    Received(h, Certificate, env, ReadCertificateStatus);
    if WentOn(o) {
      if o.h.queue == h.queue {
        QuietPassage(h, env, o);
      } else {
        TakingPassage(h, env, o);
      }
    }
  }

  lemma ClientTakesStatus(n: Negotiated, h: Hs, env: Env)
    requires h.state.ReadCertificateStatus?
    ensures ClientStepPasses(n, h, env, DoReadCertificateStatus(n, h, env))
  {
    hide Rank, Proceeds, PassageOf, Receive, ReceiveFinished;
    var o := DoReadCertificateStatus(n, h, env);
    Received(h, CertificateStatus, env, VerifyServerCertificate);
    if WentOn(o) {
      if o.h.queue == h.queue {
        QuietPassage(h, env, o);
      } else {
        TakingPassage(h, env, o);
      }
    }
  }

  lemma ClientVerifies(n: Negotiated, h: Hs, env: Env)
    requires h.state.VerifyServerCertificate?
    ensures ClientStepPasses(n, h, env, DoVerifyServerCertificate(n, h, env))
  {
    hide Rank, Proceeds, PassageOf, Receive, ReceiveFinished;
    var o := DoVerifyServerCertificate(n, h, env);
    if WentOn(o) {
      QuietPassage(h, env, o);
    }
  }

  lemma ClientTakesKeyExchange(n: Negotiated, h: Hs, env: Env)
    requires h.state.ReadServerKeyExchange?
    ensures ClientStepPasses(n, h, env, DoReadServerKeyExchange(n, h, env))
  {
    hide Rank, Proceeds, PassageOf, Receive, ReceiveFinished;
    var o := DoReadServerKeyExchange(n, h, env);
    Received(h, ServerKeyExchange, env, ReadCertificateRequest);
    if WentOn(o) {
      if o.h.queue == h.queue {
        QuietPassage(h, env, o);
      } else {
        TakingPassage(h, env, o);
      }
    }
  }

  lemma ClientTakesRequest(n: Negotiated, h: Hs, env: Env)
    requires h.state.ReadCertificateRequest?
    ensures ClientStepPasses(n, h, env, DoReadCertificateRequest(n, h, env))
  {
    hide Rank, Proceeds, PassageOf, Receive, ReceiveFinished;
    var o := DoReadCertificateRequest(n, h, env);
    Received(h, CertificateRequest, env, ReadServerHelloDone);
    if WentOn(o) {
      if o.h.queue == h.queue {
        QuietPassage(h, env, o);
      } else {
        TakingPassage(h, env, o);
      }
    }
  }

  lemma ClientTakesHelloDone(n: Negotiated, h: Hs, env: Env)
    requires h.state.ReadServerHelloDone?
    ensures ClientStepPasses(n, h, env, DoReadServerHelloDone(n, h, env))
  {
    hide Rank, Proceeds, PassageOf, Receive, ReceiveFinished;
    var o := DoReadServerHelloDone(n, h, env);
    Received(h, ServerHelloDone, env, SendClientCertificate);
    if WentOn(o) {
      if o.h.queue == h.queue {
        QuietPassage(h, env, o);
      } else {
        TakingPassage(h, env, o);
      }
    }
  }

  lemma ClientShowsCertificate(n: Negotiated, h: Hs, env: Env)
    requires h.state.SendClientCertificate?
    ensures ClientStepPasses(n, h, env, DoSendClientCertificate(n, h, env))
  {
    hide Rank, Proceeds, PassageOf, Receive, ReceiveFinished;
    var o := DoSendClientCertificate(n, h, env);
    if WentOn(o) {
      if h.learned {
        SayingPassage(h, env, o, [Carry(Message(Certificate, Chain(n.clientCert)), h.writeKeys)]);
      } else {
        QuietPassage(h, env, o);
      }
    }
  }

  lemma ClientSaysKeyExchange(n: Negotiated, h: Hs, env: Env)
    requires h.state.SendClientKeyExchange?
    ensures ClientStepPasses(n, h, env, DoSendClientKeyExchange(n, h, env))
  {
    hide Rank, Proceeds, PassageOf, Receive, ReceiveFinished;
    var o := DoSendClientKeyExchange(n, h, env);
    if WentOn(o) {
      SayingPassage(h, env, o, [Carry(Message(ClientKeyExchange, Opaque(env.bytes)), h.writeKeys)]);
    }
  }

  lemma ClientSigns(n: Negotiated, h: Hs, env: Env)
    requires h.state.SendClientCertificateVerify?
    ensures ClientStepPasses(n, h, env, DoSendClientCertificateVerify(n, h, env))
  {
    hide Rank, Proceeds, PassageOf, Receive, ReceiveFinished;
    var o := DoSendClientCertificateVerify(n, h, env);
    if WentOn(o) {
      if h.learned && n.clientCert {
        SayingPassage(h, env, o, [Carry(Message(CertificateVerify, Opaque(env.bytes)), h.writeKeys)]);
      } else {
        QuietPassage(h, env, o);
      }
    }
  }

  lemma ClientSaysFinished(n: Negotiated, h: Hs, env: Env)
    requires h.state.SendClientFinished?
    ensures ClientStepPasses(n, h, env, DoSendClientFinished(n, h, env))
  {
    hide Rank, Proceeds, PassageOf, Receive, ReceiveFinished, SayClientFinished;
    var o := DoSendClientFinished(n, h, env);
    if WentOn(o) {
      var items := ClientFinishedItems(n, h, env.bytes);
      SayingPassage(h, env, o, items);
    }
  }

  /** What do_send_client_finished adds to the flight. */
  lemma ClientFinishedItems(n: Negotiated, h: Hs, bytes: nat) returns (items: seq<Item>)
    ensures var t := SayClientFinished(n, h, bytes);
            && t.flight == h.flight + items && t.queue == h.queue && t.learned == h.learned && t.readKeys == h.readKeys
            && Labels(items) ==
               [None] + (if n.nextProto then [Some(NextProto)] else [])
               + (if n.channelId then [Some(ChannelId)] else []) + [Some(Finished)]
  {
    var t := SayClientFinished(n, h, bytes);
    items := t.flight[|h.flight|..];
    assert t.flight[..|h.flight|] == h.flight;
  }

  lemma ClientEndsFlight(n: Negotiated, h: Hs, env: Env)
    requires h.state.FinishFlight?
    ensures ClientStepPasses(n, h, env, DoFinishFlight(n, h, env))
  {
    hide Rank, Proceeds, PassageOf, Receive, ReceiveFinished;
    var o := DoFinishFlight(n, h, env);
    if WentOn(o) {
      QuietPassage(h, env, o);
    }
  }

  lemma ClientTakesTicket(n: Negotiated, h: Hs, env: Env)
    requires h.state.ReadSessionTicket?
    ensures ClientStepPasses(n, h, env, DoReadSessionTicket(n, h, env))
  {
    hide Rank, Proceeds, PassageOf, Receive, ReceiveFinished;
    var o := DoReadSessionTicket(n, h, env);
    Received(h, NewSessionTicket, env, ProcessServerCcs);
    if WentOn(o) {
      if o.h.queue == h.queue {
        QuietPassage(h, env, o);
      } else {
        TakingPassage(h, env, o);
      }
    }
  }

  lemma ClientTurnsKeys(n: Negotiated, h: Hs, env: Env)
    requires h.state.ProcessServerCcs?
    ensures ClientStepPasses(n, h, env, DoProcessServerCcs(n, h, env))
  {
    hide Rank, Proceeds, PassageOf, Receive, ReceiveFinished;
    var o := DoProcessServerCcs(n, h, env);
    if WentOn(o) {
      QuietPassage(h, env, o);
    }
  }

  lemma ReceivedFinished(h: Hs, byServer: bool, env: Env, next: State)
    ensures var o := ReceiveFinished(h, byServer, env, next);
            && (o.wait.Ok? || o.wait.ReadMessage? || o.wait.Error?) && (!o.wait.Ok? ==> Halted(h, o.h))
            && (o.wait.Ok? ==>
                  && h.queue != [] && h.queue[0].kind == Finished && !env.fate.Fail? && o.h.state == next
                  && h.queue == [h.queue[0]] + o.h.queue && o.h.queue == h.queue[1..]
                  && o.h.flight == h.flight && o.h.learned == h.learned && o.h.readKeys == h.readKeys)
  {
  }

  lemma ClientTakesFinished(n: Negotiated, h: Hs, env: Env)
    requires h.state.ReadServerFinished?
    ensures ClientStepPasses(n, h, env, DoReadServerFinished(n, h, env))
  {
    hide Rank, Proceeds, PassageOf, Receive, ReceiveFinished;
    var o := DoReadServerFinished(n, h, env);
    ReceivedFinished(h, true, env, ClientNext(n, h.state));
    if WentOn(o) {
      TakingPassage(h, env, o);
    }
  }

  lemma ClientEnds(n: Negotiated, h: Hs, env: Env)
    requires h.state.FinishClient?
    ensures ClientStepPasses(n, h, env, DoFinishClient(n, h, env))
  {
    hide Rank, Proceeds, PassageOf, Receive, ReceiveFinished;
    var o := DoFinishClient(n, h, env);
    if WentOn(o) {
      QuietPassage(h, env, o);
    }
  }
}
