/** Each side's step keeps to the script: it sends what it is to send next, or takes in the message it
    is to receive next, and never fails, as long as the message at hand is the next one. Here are the
    places of the script and what it means to follow them, and then the client, state by state: what each
    of its steps says or takes, and the place it leaves the client at. */
module TlsSides {
  import opened Common
  import opened TlsHandshake
  import opened TlsScript

  // The client.

  predicate ClientReads(n: Negotiated, s: State) {
    match s
    case ReadServerHello => true
    case ReadServerCertificate => n.certAuth
    case ReadCertificateStatus => n.status
    case ReadServerKeyExchange => true
    case ReadCertificateRequest => n.certAuth
    case ReadServerHelloDone => true
    case ReadSessionTicket => n.ticket
    case ReadServerFinished => true
    case _ => false
  }

  predicate ClientSends(s: State) {
    s.SendClientCertificate? || s.SendClientKeyExchange? || s.SendClientCertificateVerify?
    || s.SendClientFinished?
  }

  /** The states an abbreviated handshake goes through. */
  predicate ShortClient(s: State) {
    match s
    case StartConnect => true
    case EnterEarlyData => true
    case ReadServerHello => true
    case ReadSessionTicket => true
    case ProcessServerCcs => true
    case ReadServerFinished => true
    case SendClientFinished => true
    case FinishFlight => true
    case FinishClient => true
    case ClientDone => true
    case _ => false
  }

  /** The client has sent its ChangeCipherSpec. */
  predicate ClientWritesNew(n: Negotiated, s: State) {
    s.FinishFlight? || s.FinishClient? || s.ClientDone?
    || (!n.resumed && (s.ReadSessionTicket? || s.ProcessServerCcs? || s.ReadServerFinished?))
  }

  /** The client has taken in the server's ChangeCipherSpec. */
  predicate ClientReadsNew(n: Negotiated, s: State) {
    s.ReadServerFinished? || s.FinishClient? || s.ClientDone?
    || (n.resumed && (s.SendClientFinished? || s.FinishFlight?))
  }

  /** The client knows whether a certificate is wanted. */
  predicate ClientKnows(s: State) {
    match s
    case StartConnect => false
    case EnterEarlyData => false
    case ReadServerHello => false
    case ReadServerCertificate => false
    case ReadCertificateStatus => false
    case VerifyServerCertificate => false
    case ReadServerKeyExchange => false
    case ReadCertificateRequest => false
    case _ => true
  }

  predicate ClientInv(n: Negotiated, h: Hs) {
    && !h.wait.Error? && ClientMachine(h.state) && |h.queue| <= 1
    && (n.resumed ==> ShortClient(h.state))
    && (h.wait.Flush? ==> h.state.EnterEarlyData? || h.state.FinishFlight?)
    && (h.wait.ReadCcs? ==> h.state.ProcessServerCcs?)
    && (h.wait.ReadMessage? ==> h.queue == [] && ClientReads(n, h.state))
    && (h.state.ProcessServerCcs? ==> h.queue == [])
    && (h.flight != [] ==> h.wait.Flush? || ClientSends(h.state))
    && (h.writeKeys <==> ClientWritesNew(n, h.state))
    && (h.readKeys <==> ClientReadsNew(n, h.state))
    && (h.learned <==> !n.resumed && n.certRequest && ClientKnows(h.state))
  }

  /** A step goes from `h` to `t` along the script. */
  predicate Follows(n: Negotiated, h: Hs, t: Hs, rest: seq<Slot>, later: seq<Slot>, fromClient: bool) {
    && (Emits(n, h, t, rest, later, fromClient) || Takes(h, t, rest, later))
    && (t.readKeys == h.readKeys || h.queue == [])
  }

  /** One place of the script: filled, or empty. */
  lemma Place(n: Negotiated, i: nat)
    requires i < Length(n)
    ensures At(n, i) == [] ==> Rest(n, i) == Rest(n, i + 1)
    ensures At(n, i) != [] ==> Rest(n, i) != [] && Rest(n, i)[0] == At(n, i)[0] && Rest(n, i)[1..] == Rest(n, i + 1)
  {
    assert Rest(n, i) == At(n, i) + Rest(n, i + 1);
    AtMostOne(n, i);
    hide At, Rest;
    if At(n, i) == [] {
      assert [] + Rest(n, i + 1) == Rest(n, i + 1);
    } else {
      assert (At(n, i) + Rest(n, i + 1))[1..] == Rest(n, i + 1);
    }
  }

  lemma AtMostOne(n: Negotiated, i: nat)
    ensures |At(n, i)| <= 1
  {
  }

  predicate ClientReady(n: Negotiated, h: Hs, env: Env) {
    && n.Valid() && ClientInv(n, h) && h.wait.Ok? && !h.state.ClientDone? && !env.fate.Fail?
    && HeadFits(n, h, ClientRest(n, h), false)
  }

  predicate ClientFollows(n: Negotiated, h: Hs, o: Outcome) {
    Follows(n, h, After(o), ClientRest(n, h), ClientRest(n, After(o)), true)
  }

  lemma ClientFacts(n: Negotiated, h: Hs)
    requires ClientInv(n, h)
    ensures n.resumed ==> ShortClient(h.state)
    ensures h.writeKeys <==> ClientWritesNew(n, h.state)
    ensures h.learned <==> !n.resumed && n.certRequest && ClientKnows(h.state)
  {
  }

  /** The outcome of a step keeps to the script. */
  predicate ClientGood(n: Negotiated, h: Hs, o: Outcome) {
    ClientInv(n, After(o)) && ClientFollows(n, h, o)
  }

  lemma Quiet(n: Negotiated, h: Hs, t: Hs, rest: seq<Slot>, fromClient: bool)
    requires t.flight == h.flight && t.queue == h.queue && t.transcript == h.transcript && t.readKeys == h.readKeys
    ensures Follows(n, h, t, rest, rest, fromClient)
  {
    hide Emits;
    EmitsNothing(n, h, t, rest, fromClient);
  }

  lemma QuietKeys(n: Negotiated, h: Hs, t: Hs, rest: seq<Slot>, fromClient: bool)
    requires t.flight == h.flight && t.queue == h.queue && t.transcript == h.transcript && h.queue == []
    ensures Follows(n, h, t, rest, rest, fromClient)
  {
    hide Emits;
    EmitsNothing(n, h, t, rest, fromClient);
  }

  /** What is emitted is a matter of the flight, the queue and the transcript only. */
  lemma Emitted(n: Negotiated, h: Hs, t: Hs, u: Hs, rest: seq<Slot>, later: seq<Slot>, fromClient: bool)
    requires Emits(n, h, t, rest, later, fromClient)
    requires u.flight == t.flight && u.queue == t.queue && u.transcript == t.transcript && u.readKeys == h.readKeys
    ensures Follows(n, h, u, rest, later, fromClient)
  {
    hide InFlight, Messages;
  }

  lemma Took(n: Negotiated, h: Hs, t: Hs, u: Hs, rest: seq<Slot>, fromClient: bool)
    requires rest != [] && Takes(h, t, rest, rest[1..])
    requires u.flight == t.flight && u.queue == t.queue && u.transcript == t.transcript && u.readKeys == h.readKeys
    ensures Follows(n, h, u, rest, rest[1..], fromClient)
  {
    hide Emits;
  }

  /** Saying something changes the transcript and the flight only; taking a message in, the transcript,
      the queue and what has been accepted. */
  predicate SaidOnly(h: Hs, t: Hs) {
    t == h.(transcript := t.transcript, flight := t.flight)
  }

  predicate TookOnly(h: Hs, t: Hs) {
    t == h.(transcript := t.transcript, queue := t.queue, finishedRead := t.finishedRead)
    && |t.queue| < |h.queue|
  }

  lemma Said(n: Negotiated, h: Hs, kind: Kind, body: Body, rest: seq<Slot>)
    requires rest != [] && rest[0].what == Says(kind) && h.writeKeys == UnderNewKeys(kind)
    requires BodyFits(n, rest[0].fromClient, Message(kind, body), h.transcript)
    ensures Emits(n, h, Say(h, kind, body), rest, rest[1..], rest[0].fromClient) && SaidOnly(h, Say(h, kind, body))
  {
    hide Emits;
    SayEmits(n, h, kind, body, rest);
  }

  /** Receiving the message the script calls for. */
  lemma Received(n: Negotiated, h: Hs, kind: Kind, env: Env, next: State, rest: seq<Slot>, me: bool)
    requires !env.fate.Fail? && rest != [] && rest[0] == Slot(!me, Says(kind)) && HeadFits(n, h, rest, !me)
    ensures var o := Receive(h, kind, env, next);
            if h.queue == [] then o == Outcome(h, ReadMessage)
            else o.wait.Ok? && TookOnly(h, o.h.(state := h.state)) && o.h.state == next
                 && o.h.finishedRead == h.finishedRead
                 && Takes(h, o.h, rest, rest[1..]) && h.queue[0].kind == kind
                 && BodyFits(n, !me, h.queue[0], h.transcript) && UnderNewKeys(kind) == h.readKeys
  {
  }

  lemma ReceivedFinished(n: Negotiated, h: Hs, env: Env, next: State, rest: seq<Slot>, me: bool)
    requires !env.fate.Fail? && rest != [] && rest[0] == Slot(!me, Says(Finished)) && HeadFits(n, h, rest, !me)
    ensures var o := ReceiveFinished(h, me, env, next);
            if h.queue == [] then o == Outcome(h, ReadMessage)
            else o.wait.Ok? && TookOnly(h, o.h.(state := h.state)) && o.h.state == next
                 && o.h.finishedRead == h.finishedRead + [true]
                 && Takes(h, o.h, rest, rest[1..]) && h.readKeys
  {
  }

  lemma ClientStarts(n: Negotiated, h: Hs, env: Env)
    requires ClientReady(n, h, env) && h.state.StartConnect?
    ensures ClientFollows(n, h, DoStartConnect(n, h, env))
  {
    hide Rank, Proceeds, Emits, HeadFits, Takes, Rest, Say, Take, ClientInv;
    ClientFacts(n, h);
    Place(n, 0);
    var rest := ClientRest(n, h);
    Said(n, h, ClientHello, Opaque(env.bytes), rest);
    Emitted(n, h, Say(h, ClientHello, Opaque(env.bytes)), After(DoStartConnect(n, h, env)), rest, rest[1..], true);
  }

  lemma ClientStartsInv(n: Negotiated, h: Hs, env: Env)
    requires ClientReady(n, h, env) && h.state.StartConnect?
    ensures ClientInv(n, After(DoStartConnect(n, h, env)))
  {
    hide Rank, Proceeds, Emits, HeadFits, Takes, Rest;
  }

  /** States that only move on. */
  lemma ClientPasses(n: Negotiated, h: Hs, env: Env)
    requires ClientReady(n, h, env) && h.state.EnterEarlyData?
    ensures ClientFollows(n, h, DoEnterEarlyData(n, h, env))
  {
    hide Rank, Proceeds, Emits, HeadFits, Takes, Rest, Say, Take, ClientInv;
    Quiet(n, h, After(DoEnterEarlyData(n, h, env)), ClientRest(n, h), true);
  }

  lemma ClientPassesInv(n: Negotiated, h: Hs, env: Env)
    requires ClientReady(n, h, env) && h.state.EnterEarlyData?
    ensures ClientInv(n, After(DoEnterEarlyData(n, h, env)))
  {
    hide Rank, Proceeds, Emits, HeadFits, Takes, Rest;
  }

  lemma ClientFinishes(n: Negotiated, h: Hs, env: Env)
    requires ClientReady(n, h, env) && h.state.FinishClient?
    ensures ClientFollows(n, h, DoFinishClient(n, h, env))
  {
    hide Rank, Proceeds, Emits, HeadFits, Takes, Rest, Say, Take, ClientInv;
    Quiet(n, h, After(DoFinishClient(n, h, env)), ClientRest(n, h), true);
  }

  lemma ClientFinishesInv(n: Negotiated, h: Hs, env: Env)
    requires ClientReady(n, h, env) && h.state.FinishClient?
    ensures ClientInv(n, After(DoFinishClient(n, h, env)))
  {
    hide Rank, Proceeds, Emits, HeadFits, Takes, Rest;
  }

  lemma ClientFinishesFlight(n: Negotiated, h: Hs, env: Env)
    requires ClientReady(n, h, env) && h.state.FinishFlight?
    ensures ClientFollows(n, h, DoFinishFlight(n, h, env))
  {
    hide Rank, Proceeds, Emits, HeadFits, Takes, Rest, Say, Take, ClientInv;
    Quiet(n, h, After(DoFinishFlight(n, h, env)), ClientRest(n, h), true);
  }

  lemma ClientFinishesFlightInv(n: Negotiated, h: Hs, env: Env)
    requires ClientReady(n, h, env) && h.state.FinishFlight?
    ensures ClientInv(n, After(DoFinishFlight(n, h, env)))
  {
    hide Rank, Proceeds, Emits, HeadFits, Takes, Rest;
  }

  lemma ClientReadsHello(n: Negotiated, h: Hs, env: Env)
    requires ClientReady(n, h, env) && h.state.ReadServerHello?
    ensures ClientFollows(n, h, DoReadServerHello(n, h, env))
  {
    hide Rank, Proceeds, Emits, HeadFits, Takes, Receive, Rest, Take, ClientInv;
    Place(n, 1);
    var rest := ClientRest(n, h);
    Received(n, h, ServerHello, env, if n.resumed then ReadSessionTicket else ReadServerCertificate, rest, true);
    if h.queue == [] {
      Quiet(n, h, h.(wait := ReadMessage), rest, true);
    }
  }

  lemma ClientReadsHelloInv(n: Negotiated, h: Hs, env: Env)
    requires ClientReady(n, h, env) && h.state.ReadServerHello?
    ensures ClientInv(n, After(DoReadServerHello(n, h, env)))
  {
    hide Rank, Proceeds, Emits, HeadFits, Takes, Receive, Rest, Take;
    Place(n, ClientPlace(n, h));
    Received(n, h, ServerHello, env, if n.resumed then ReadSessionTicket else ReadServerCertificate,
             ClientRest(n, h), true);
  }

  lemma ClientReadsCertificate(n: Negotiated, h: Hs, env: Env)
    requires ClientReady(n, h, env) && h.state.ReadServerCertificate?
    ensures ClientFollows(n, h, DoReadServerCertificate(n, h, env))
  {
    hide Rank, Proceeds, Emits, HeadFits, Takes, Receive, Rest, Take, ClientInv;
    ClientFacts(n, h);
    Place(n, 2);
    var rest := ClientRest(n, h);
    if n.certAuth {
      Received(n, h, Certificate, env, ReadCertificateStatus, rest, true);
      if h.queue == [] {
        Quiet(n, h, h.(wait := ReadMessage), rest, true);
      }
    } else {
      Quiet(n, h, After(DoReadServerCertificate(n, h, env)), rest, true);
    }
  }

  lemma ClientReadsCertificateInv(n: Negotiated, h: Hs, env: Env)
    requires ClientReady(n, h, env) && h.state.ReadServerCertificate?
    ensures ClientInv(n, After(DoReadServerCertificate(n, h, env)))
  {
    hide Rank, Proceeds, Emits, HeadFits, Takes, Receive, Rest, Take;
    Place(n, ClientPlace(n, h));
    if n.certAuth {
      Received(n, h, Certificate, env, ReadCertificateStatus, ClientRest(n, h), true);
    }
  }

  lemma ClientReadsStatus(n: Negotiated, h: Hs, env: Env)
    requires ClientReady(n, h, env) && h.state.ReadCertificateStatus?
    ensures ClientFollows(n, h, DoReadCertificateStatus(n, h, env))
  {
    hide Rank, Proceeds, Emits, HeadFits, Takes, Receive, Rest, Take, ClientInv;
    ClientFacts(n, h);
    Place(n, 3);
    var rest := ClientRest(n, h);
    if n.status {
      Received(n, h, CertificateStatus, env, VerifyServerCertificate, rest, true);
      if h.queue == [] {
        Quiet(n, h, h.(wait := ReadMessage), rest, true);
      }
    } else {
      Quiet(n, h, After(DoReadCertificateStatus(n, h, env)), rest, true);
    }
  }

  lemma ClientReadsStatusInv(n: Negotiated, h: Hs, env: Env)
    requires ClientReady(n, h, env) && h.state.ReadCertificateStatus?
    ensures ClientInv(n, After(DoReadCertificateStatus(n, h, env)))
  {
    hide Rank, Proceeds, Emits, HeadFits, Takes, Receive, Rest, Take;
    Place(n, ClientPlace(n, h));
    if n.status {
      Received(n, h, CertificateStatus, env, VerifyServerCertificate, ClientRest(n, h), true);
    }
  }

  lemma ClientVerifies(n: Negotiated, h: Hs, env: Env)
    requires ClientReady(n, h, env) && h.state.VerifyServerCertificate?
    ensures ClientFollows(n, h, DoVerifyServerCertificate(n, h, env))
  {
    hide Rank, Proceeds, Emits, HeadFits, Takes, Rest, Say, Take, ClientInv;
    ClientFacts(n, h);
    Quiet(n, h, After(DoVerifyServerCertificate(n, h, env)), ClientRest(n, h), true);
  }

  lemma ClientVerifiesInv(n: Negotiated, h: Hs, env: Env)
    requires ClientReady(n, h, env) && h.state.VerifyServerCertificate?
    ensures ClientInv(n, After(DoVerifyServerCertificate(n, h, env)))
  {
    hide Rank, Proceeds, Emits, HeadFits, Takes, Rest;
  }

  /** The client peeks: whether a ServerKeyExchange comes shows from the message at hand. */
  lemma ClientReadsKeyExchange(n: Negotiated, h: Hs, env: Env)
    requires ClientReady(n, h, env) && h.state.ReadServerKeyExchange?
    ensures ClientFollows(n, h, DoReadServerKeyExchange(n, h, env))
  {
    hide Rank, Proceeds, Emits, Takes, Receive, Rest, HeadFits, Take, ClientInv;
    ClientFacts(n, h);
    Place(n, 4);
    var rest := ClientRest(n, h);
    if h.queue == [] {
      NothingToReceive(h, ServerKeyExchange, env, ReadCertificateRequest);
      if h.queue == [] {
        Quiet(n, h, h.(wait := ReadMessage), rest, true);
      }
    } else if n.SendsKeyExchange() {
      Received(n, h, ServerKeyExchange, env, ReadCertificateRequest, rest, true);
    } else {
      NotExpected(n, h, ServerKeyExchange);
      Quiet(n, h, h.(state := ReadCertificateRequest), rest, true);
    }
  }

  lemma ClientReadsKeyExchangeInv(n: Negotiated, h: Hs, env: Env)
    requires ClientReady(n, h, env) && h.state.ReadServerKeyExchange?
    ensures ClientInv(n, After(DoReadServerKeyExchange(n, h, env)))
  {
    hide Rank, Proceeds, Emits, Takes, Receive, Rest, HeadFits, Take;
    Place(n, 4);
    if h.queue == [] {
      NothingToReceive(h, ServerKeyExchange, env, ReadCertificateRequest);
    } else if n.SendsKeyExchange() {
      Received(n, h, ServerKeyExchange, env, ReadCertificateRequest, ClientRest(n, h), true);
    } else {
      NotExpected(n, h, ServerKeyExchange);
    }
  }

  lemma NothingToReceive(h: Hs, kind: Kind, env: Env, next: State)
    requires h.queue == []
    ensures Receive(h, kind, env, next) == Outcome(h, ReadMessage)
  {
  }

  /** Where the script has neither a ServerKeyExchange nor, later, a CertificateRequest, the message at
      hand is a later one. */
  lemma NotExpected(n: Negotiated, h: Hs, kind: Kind)
    requires HeadFits(n, h, ClientRest(n, h), false) && h.queue != [] && !n.resumed
    requires (h.state.ReadServerKeyExchange? && kind == ServerKeyExchange && !n.SendsKeyExchange())
             || (h.state.ReadCertificateRequest? && kind == CertificateRequest && !n.certRequest)
    ensures h.queue[0].kind != kind
    ensures h.state.ReadCertificateRequest? ==> h.queue[0].kind == ServerHelloDone
  {
    hide BodyFits, Rest;
    Place(n, 4);
    Place(n, 5);
    Place(n, 6);
  }

  lemma ClientReadsRequest(n: Negotiated, h: Hs, env: Env)
    requires ClientReady(n, h, env) && h.state.ReadCertificateRequest?
    ensures ClientFollows(n, h, DoReadCertificateRequest(n, h, env))
  {
    hide Rank, Proceeds, Emits, Takes, Receive, Rest, HeadFits, Take, ClientInv;
    ClientFacts(n, h);
    Place(n, 5);
    var rest := ClientRest(n, h);
    if !n.certAuth {
      Quiet(n, h, h.(state := ReadServerHelloDone), rest, true);
    } else if h.queue == [] {
      NothingToReceive(h, CertificateRequest, env, ReadServerHelloDone);
      if h.queue == [] {
        Quiet(n, h, h.(wait := ReadMessage), rest, true);
      }
    } else if n.certRequest {
      Received(n, h, CertificateRequest, env, ReadServerHelloDone, rest, true);
      var t := Receive(h, CertificateRequest, env, ReadServerHelloDone).h;
      Took(n, h, t, t.(learned := true), rest, true);
    } else {
      NotExpected(n, h, CertificateRequest);
      Quiet(n, h, h.(state := ReadServerHelloDone), rest, true);
    }
  }

  lemma ClientReadsRequestInv(n: Negotiated, h: Hs, env: Env)
    requires ClientReady(n, h, env) && h.state.ReadCertificateRequest?
    ensures ClientInv(n, After(DoReadCertificateRequest(n, h, env)))
  {
    hide Rank, Proceeds, Emits, Takes, Receive, Rest, HeadFits, Take;
    Place(n, 5);
    if h.queue == [] {
      NothingToReceive(h, CertificateRequest, env, ReadServerHelloDone);
    } else if n.certRequest {
      Received(n, h, CertificateRequest, env, ReadServerHelloDone, ClientRest(n, h), true);
    } else if n.certAuth {
      NotExpected(n, h, CertificateRequest);
    }
  }

  lemma ClientReadsDone(n: Negotiated, h: Hs, env: Env)
    requires ClientReady(n, h, env) && h.state.ReadServerHelloDone?
    ensures ClientFollows(n, h, DoReadServerHelloDone(n, h, env))
  {
    hide Rank, Proceeds, Emits, HeadFits, Takes, Receive, Rest, Take, ClientInv;
    ClientFacts(n, h);
    Place(n, 6);
    var rest := ClientRest(n, h);
    Received(n, h, ServerHelloDone, env, SendClientCertificate, rest, true);
    if h.queue == [] {
      Quiet(n, h, h.(wait := ReadMessage), rest, true);
    }
  }

  lemma ClientReadsDoneInv(n: Negotiated, h: Hs, env: Env)
    requires ClientReady(n, h, env) && h.state.ReadServerHelloDone?
    ensures ClientInv(n, After(DoReadServerHelloDone(n, h, env)))
  {
    hide Rank, Proceeds, Emits, HeadFits, Takes, Receive, Rest, Take;
    Place(n, ClientPlace(n, h));
    Received(n, h, ServerHelloDone, env, SendClientCertificate, ClientRest(n, h), true);
  }

  lemma ClientSendsCertificate(n: Negotiated, h: Hs, env: Env)
    requires ClientReady(n, h, env) && h.state.SendClientCertificate?
    ensures ClientFollows(n, h, DoSendClientCertificate(n, h, env))
  {
    hide Rank, Proceeds, Emits, HeadFits, Takes, Rest, Say, Take, ClientInv;
    ClientFacts(n, h);
    Place(n, 7);
    var rest := ClientRest(n, h);
    var t := After(DoSendClientCertificate(n, h, env));
    if !h.learned || env.fate.Retry? {
      Quiet(n, h, t, rest, true);
    } else {
      Said(n, h, Certificate, Chain(n.clientCert), rest);
      Emitted(n, h, Say(h, Certificate, Chain(n.clientCert)), t, rest, rest[1..], true);
    }
  }

  lemma ClientSendsCertificateInv(n: Negotiated, h: Hs, env: Env)
    requires ClientReady(n, h, env) && h.state.SendClientCertificate?
    ensures ClientInv(n, After(DoSendClientCertificate(n, h, env)))
  {
    hide Rank, Proceeds, Emits, HeadFits, Takes, Rest;
  }

  lemma ClientSendsKeyExchange(n: Negotiated, h: Hs, env: Env)
    requires ClientReady(n, h, env) && h.state.SendClientKeyExchange?
    ensures ClientFollows(n, h, DoSendClientKeyExchange(n, h, env))
  {
    hide Rank, Proceeds, Emits, HeadFits, Takes, Rest, Say, Take, ClientInv;
    ClientFacts(n, h);
    Place(n, 8);
    var rest := ClientRest(n, h);
    Said(n, h, ClientKeyExchange, Opaque(env.bytes), rest);
    Emitted(n, h, Say(h, ClientKeyExchange, Opaque(env.bytes)), After(DoSendClientKeyExchange(n, h, env)),
            rest, rest[1..], true);
  }

  lemma ClientSendsKeyExchangeInv(n: Negotiated, h: Hs, env: Env)
    requires ClientReady(n, h, env) && h.state.SendClientKeyExchange?
    ensures ClientInv(n, After(DoSendClientKeyExchange(n, h, env)))
  {
    hide Rank, Proceeds, Emits, HeadFits, Takes, Rest;
  }

  lemma ClientSendsVerify(n: Negotiated, h: Hs, env: Env)
    requires ClientReady(n, h, env) && h.state.SendClientCertificateVerify?
    ensures ClientFollows(n, h, DoSendClientCertificateVerify(n, h, env))
  {
    hide Rank, Proceeds, Emits, HeadFits, Takes, Rest, Say, Take, ClientInv;
    ClientFacts(n, h);
    Place(n, 9);
    var rest := ClientRest(n, h);
    var t := After(DoSendClientCertificateVerify(n, h, env));
    if !h.learned || !n.clientCert || env.fate.Retry? {
      Quiet(n, h, t, rest, true);
    } else {
      Said(n, h, CertificateVerify, Opaque(env.bytes), rest);
      Emitted(n, h, Say(h, CertificateVerify, Opaque(env.bytes)), t, rest, rest[1..], true);
    }
  }

  lemma ClientSendsVerifyInv(n: Negotiated, h: Hs, env: Env)
    requires ClientReady(n, h, env) && h.state.SendClientCertificateVerify?
    ensures ClientInv(n, After(DoSendClientCertificateVerify(n, h, env)))
  {
    hide Rank, Proceeds, Emits, HeadFits, Takes, Rest;
  }

  /** The client's last flight in the script. */
  lemma ClientLastPlaces(n: Negotiated, i: nat)
    requires i == if n.resumed then 5 else 10
    ensures Rest(n, i) != [] && Rest(n, i)[0] == Slot(true, Ccs) && Rest(n, i)[1..] == Rest(n, i + 1)
    ensures Rest(n, i + 1) == If(n.nextProto, C(NextProto)) + Rest(n, i + 2)
    ensures Rest(n, i + 2) == If(n.channelId, C(ChannelId)) + Rest(n, i + 3)
    ensures Rest(n, i + 3) != [] && Rest(n, i + 3)[0] == C(Finished) && Rest(n, i + 3)[1..] == Rest(n, i + 4)
  {
    hide Rest;
    Place(n, i);
    PlaceAsSum(n, i + 1);
    PlaceAsSum(n, i + 2);
    Place(n, i + 3);
  }

  /** ChangeCipherSpec, the optional messages and Finished fill four places. */
  lemma ClientFinishedEmits(n: Negotiated, h: Hs, bytes: nat, i: nat)
    requires i == if n.resumed then 5 else 10
    ensures Emits(n, h, SayClientFinished(n, h, bytes), Rest(n, i), Rest(n, i + 4), true)
  {
    hide Emits, Rest, InFlight, If;
    ClientLastPlaces(n, i);
    var a := SayCcs(h);
    var b := if n.nextProto then Say(a, NextProto, Opaque(bytes)) else a;
    var c := if n.channelId then Say(b, ChannelId, Opaque(bytes)) else b;
    SayCcsEmits(n, h, Rest(n, i));
    SayIfEmits(n, a, n.nextProto, NextProto, Opaque(bytes), Rest(n, i + 2), true);
    SayIfEmits(n, b, n.channelId, ChannelId, Opaque(bytes), Rest(n, i + 3), true);
    SayEmits(n, c, Finished, Mac(false, c.transcript), Rest(n, i + 3));
    FinishedEmits(n, c, false, Rest(n, i + 3), Rest(n, i + 4), true);
    EmitsAll(n, h, a, b, c, SayFinished(c, false), i, true);
  }

  lemma EmitsAll(n: Negotiated, h: Hs, a: Hs, b: Hs, c: Hs, d: Hs, i: nat, me: bool)
    requires Emits(n, h, a, Rest(n, i), Rest(n, i + 1), me) && Emits(n, a, b, Rest(n, i + 1), Rest(n, i + 2), me)
    requires Emits(n, b, c, Rest(n, i + 2), Rest(n, i + 3), me) && Emits(n, c, d, Rest(n, i + 3), Rest(n, i + 4), me)
    ensures Emits(n, h, d, Rest(n, i), Rest(n, i + 4), me)
  {
    hide Emits, Rest;
    EmitsBoth(n, h, a, b, Rest(n, i), Rest(n, i + 1), Rest(n, i + 2), me);
    EmitsBoth(n, h, b, c, Rest(n, i), Rest(n, i + 2), Rest(n, i + 3), me);
    EmitsBoth(n, h, c, d, Rest(n, i), Rest(n, i + 3), Rest(n, i + 4), me);
  }

  lemma PlaceAsSum(n: Negotiated, i: nat)
    requires i < Length(n)
    ensures Rest(n, i) == At(n, i) + Rest(n, i + 1)
  {
  }

  lemma FinishedEmits(n: Negotiated, h: Hs, byServer: bool, rest: seq<Slot>, later: seq<Slot>, fromClient: bool)
    requires Emits(n, h, Say(h, Finished, Mac(byServer, h.transcript)), rest, later, fromClient)
    ensures Emits(n, h, SayFinished(h, byServer), rest, later, fromClient)
  {
    hide InFlight, Messages;
  }

  lemma SaidClientFinished(n: Negotiated, h: Hs, bytes: nat)
    ensures var t := SayClientFinished(n, h, bytes);
            && t.state == h.state && t.wait == h.wait && t.queue == h.queue && t.writeKeys
            && t.readKeys == h.readKeys && t.learned == h.learned && t.finishedRead == h.finishedRead
            && t.finishedSent == h.finishedSent + [true]
  {
  }

  lemma ClientSendsFinished(n: Negotiated, h: Hs, env: Env)
    requires ClientReady(n, h, env) && h.state.SendClientFinished?
    ensures ClientFollows(n, h, DoSendClientFinished(n, h, env))
  {
    hide Rank, Proceeds, Emits, HeadFits, Takes, Rest, SayClientFinished, ClientInv;
    var rest := ClientRest(n, h);
    var t := After(DoSendClientFinished(n, h, env));
    if n.channelId && env.fate.Retry? {
      Quiet(n, h, t, rest, true);
    } else {
      var u := SayClientFinished(n, h, env.bytes);
      SaidClientFinished(n, h, env.bytes);
      ClientFinishedEmits(n, h, env.bytes, ClientPlace(n, h));
      Emitted(n, h, u, t, rest, ClientRest(n, t), true);
    }
  }

  lemma ClientSendsFinishedInv(n: Negotiated, h: Hs, env: Env)
    requires ClientReady(n, h, env) && h.state.SendClientFinished?
    ensures ClientInv(n, After(DoSendClientFinished(n, h, env)))
  {
    hide Rank, Proceeds, Emits, HeadFits, Takes, Rest, SayClientFinished;
    SaidClientFinished(n, h, env.bytes);
  }

  lemma ClientReadsTicket(n: Negotiated, h: Hs, env: Env)
    requires ClientReady(n, h, env) && h.state.ReadSessionTicket?
    ensures ClientFollows(n, h, DoReadSessionTicket(n, h, env))
  {
    hide Rank, Proceeds, Emits, Takes, Receive, Rest, HeadFits, Take, ClientInv;
    if n.ticket {
      ClientTakesTicket(n, h, env);
    } else {
      Place(n, ClientPlace(n, h));
      NoMessageBeforeCcs(n, h, false);
      Quiet(n, h, After(DoReadSessionTicket(n, h, env)), ClientRest(n, h), true);
    }
  }

  lemma ClientTakesTicket(n: Negotiated, h: Hs, env: Env)
    requires ClientReady(n, h, env) && h.state.ReadSessionTicket? && n.ticket
    ensures ClientFollows(n, h, DoReadSessionTicket(n, h, env))
  {
    hide Rank, Proceeds, Emits, Takes, Receive, Rest, HeadFits, Take, ClientInv;
    Place(n, ClientPlace(n, h));
    var rest := ClientRest(n, h);
    Received(n, h, NewSessionTicket, env, ProcessServerCcs, rest, true);
    if h.queue == [] {
      Quiet(n, h, h.(wait := ReadMessage), rest, true);
    } else {
      var t := Receive(h, NewSessionTicket, env, ProcessServerCcs).h;
      Took(n, h, t, t.(wait := ReadCcs), rest, true);
    }
  }

  lemma ClientReadsTicketInv(n: Negotiated, h: Hs, env: Env)
    requires ClientReady(n, h, env) && h.state.ReadSessionTicket?
    ensures ClientInv(n, After(DoReadSessionTicket(n, h, env)))
  {
    hide Rank, Proceeds, Emits, Takes, Receive, Rest, HeadFits, Take;
    Place(n, ClientPlace(n, h));
    if n.ticket {
      Received(n, h, NewSessionTicket, env, ProcessServerCcs, ClientRest(n, h), true);
    } else {
      NoMessageBeforeCcs(n, h, false);
    }
  }

  /** Where the script has a ChangeCipherSpec next, no message can be at hand. */
  lemma NoMessageBeforeCcs(n: Negotiated, h: Hs, fromClient: bool)
    requires HeadFits(n, h, ClientRest(n, h), fromClient) && h.state.ReadSessionTicket? && !n.ticket
    ensures h.queue == []
  {
    hide Rest;
    Place(n, ClientPlace(n, h));
    Place(n, ClientPlace(n, h) + 1);
  }

  lemma ClientKeysChanged(n: Negotiated, h: Hs)
    requires ClientInv(n, h) && h.state.ProcessServerCcs? && h.wait.Ok?
    ensures h.queue == [] && ClientInv(n, h.(readKeys := true, state := ReadServerFinished))
    ensures ClientPlace(n, h.(readKeys := true, state := ReadServerFinished)) == ClientPlace(n, h)
  {
  }

  lemma ClientChangesKeys(n: Negotiated, h: Hs, env: Env)
    requires ClientReady(n, h, env) && h.state.ProcessServerCcs?
    ensures ClientFollows(n, h, DoProcessServerCcs(n, h, env))
  {
    hide Rank, Proceeds, Emits, HeadFits, Takes, Rest, Follows, ClientInv, ClientPlace;
    ClientKeysChanged(n, h);
    QuietKeys(n, h, h.(readKeys := true, state := ReadServerFinished), ClientRest(n, h), true);
  }

  lemma ClientChangesKeysInv(n: Negotiated, h: Hs, env: Env)
    requires ClientReady(n, h, env) && h.state.ProcessServerCcs?
    ensures ClientInv(n, After(DoProcessServerCcs(n, h, env)))
  {
    hide Rank, Proceeds, Emits, HeadFits, Takes, Rest;
  }

  lemma ClientReadsFinished(n: Negotiated, h: Hs, env: Env)
    requires ClientReady(n, h, env) && h.state.ReadServerFinished?
    ensures ClientFollows(n, h, DoReadServerFinished(n, h, env))
  {
    hide Rank, Proceeds, Emits, HeadFits, Takes, ReceiveFinished, Rest, Take, ClientInv;
    Place(n, ClientPlace(n, h));
    var rest := ClientRest(n, h);
    ReceivedFinished(n, h, env, if n.resumed then SendClientFinished else FinishClient, rest, true);
    if h.queue == [] {
      Quiet(n, h, h.(wait := ReadMessage), rest, true);
    }
  }

  lemma ClientReadsFinishedInv(n: Negotiated, h: Hs, env: Env)
    requires ClientReady(n, h, env) && h.state.ReadServerFinished?
    ensures ClientInv(n, After(DoReadServerFinished(n, h, env)))
  {
    hide Rank, Proceeds, Emits, HeadFits, Takes, ReceiveFinished, Rest, Take;
    Place(n, ClientPlace(n, h));
    ReceivedFinished(n, h, env, if n.resumed then SendClientFinished else FinishClient, ClientRest(n, h), true);
  }

  /** Every step of the client keeps to the script. */
  lemma ClientKeepsToScript(n: Negotiated, h: Hs, env: Env)
    requires ClientReady(n, h, env)
    ensures ClientGood(n, h, ClientStep(n, h, env))
  {
    assert ClientMachine(h.state) && !h.state.ClientDone?;
    hide ClientReady, ClientInv, ClientFollows;
    match h.state
    case StartConnect => ClientStarts(n, h, env); ClientStartsInv(n, h, env);
    case EnterEarlyData => ClientPasses(n, h, env); ClientPassesInv(n, h, env);
    case ReadServerHello => ClientReadsHello(n, h, env); ClientReadsHelloInv(n, h, env);
    case ReadServerCertificate => ClientReadsCertificate(n, h, env); ClientReadsCertificateInv(n, h, env);
    case ReadCertificateStatus => ClientReadsStatus(n, h, env); ClientReadsStatusInv(n, h, env);
    case VerifyServerCertificate => ClientVerifies(n, h, env); ClientVerifiesInv(n, h, env);
    case ReadServerKeyExchange => ClientReadsKeyExchange(n, h, env); ClientReadsKeyExchangeInv(n, h, env);
    case ReadCertificateRequest => ClientReadsRequest(n, h, env); ClientReadsRequestInv(n, h, env);
    case ReadServerHelloDone => ClientReadsDone(n, h, env); ClientReadsDoneInv(n, h, env);
    case SendClientCertificate => ClientSendsCertificate(n, h, env); ClientSendsCertificateInv(n, h, env);
    case SendClientKeyExchange => ClientSendsKeyExchange(n, h, env); ClientSendsKeyExchangeInv(n, h, env);
    case SendClientCertificateVerify => ClientSendsVerify(n, h, env); ClientSendsVerifyInv(n, h, env);
    case SendClientFinished => ClientSendsFinished(n, h, env); ClientSendsFinishedInv(n, h, env);
    case FinishFlight => ClientFinishesFlight(n, h, env); ClientFinishesFlightInv(n, h, env);
    case ReadSessionTicket => ClientReadsTicket(n, h, env); ClientReadsTicketInv(n, h, env);
    case ProcessServerCcs => ClientChangesKeys(n, h, env); ClientChangesKeysInv(n, h, env);
    case ReadServerFinished => ClientReadsFinished(n, h, env); ClientReadsFinishedInv(n, h, env);
    case FinishClient => ClientFinishes(n, h, env); ClientFinishesInv(n, h, env);
    case _ =>
  }
}
