/** The server's steps keep to the script: in every state the server sends the messages that are its own to
    send next, in order and under the keys they belong under, or takes in the one message that is due from
    the client, and it does not fail as long as the message at hand is that one. The optional messages are
    those the two hellos have settled. */
module TlsServerSide {
  import opened Common
  import opened TlsHandshake
  import opened TlsScript
  import opened TlsSides

  predicate ServerReads(n: Negotiated, h: Hs) {
    match h.state
    case ReadClientHello => true
    case ReadClientCertificate => n.certRequest
    case ReadClientKeyExchange => true
    case ReadClientCertificateVerify => h.learned
    case ReadNextProto => n.nextProto
    case ReadChannelId => n.channelId
    case ReadClientFinished => true
    case _ => false
  }

  predicate ServerSends(s: State) {
    s.SendServerHello? || s.SendServerCertificate? || s.SendServerKeyExchange? || s.SendServerHelloDone?
    || s.SendServerFinished?
  }

  /** The states an abbreviated handshake goes through. */
  predicate ShortServer(s: State) {
    !(s.SendServerCertificate? || s.SendServerKeyExchange? || s.SendServerHelloDone?
      || s.ReadClientCertificate? || s.VerifyClientCertificate? || s.ReadClientKeyExchange?
      || s.ReadClientCertificateVerify?)
  }

  predicate AfterCcs(s: State) {
    s.ReadNextProto? || s.ReadChannelId? || s.ReadClientFinished? || s.FinishServer? || s.ServerDone?
  }

  /** The server has sent its ChangeCipherSpec. */
  predicate ServerWritesNew(n: Negotiated, s: State) {
    if n.resumed then AfterCcs(s) || s.ReadClientCcs? || s.ProcessClientCcs?
    else s.FinishServer? || s.ServerDone?
  }

  /** The server has taken in the client's ChangeCipherSpec. */
  predicate ServerReadsNew(n: Negotiated, s: State) {
    AfterCcs(s) || (!n.resumed && s.SendServerFinished?)
  }

  /** The server knows whether the client has a certificate. */
  predicate ServerKnows(s: State) {
    s.VerifyClientCertificate? || s.ReadClientKeyExchange? || s.ReadClientCertificateVerify?
    || s.ReadClientCcs? || s.ProcessClientCcs? || AfterCcs(s) || s.SendServerFinished?
  }

  predicate ServerInv(n: Negotiated, h: Hs) {
    && !h.wait.Error? && !ClientMachine(h.state) && |h.queue| <= 1
    && (n.resumed ==> ShortServer(h.state))
    && (h.wait.Flush? ==> h.state.ReadClientCertificate? || h.state.ReadClientCcs? || h.state.FinishServer?)
    && (h.wait.ReadCcs? ==> h.state.ProcessClientCcs?)
    && (h.wait.ReadMessage? ==> h.queue == [] && ServerReads(n, h))
    && (h.state.SelectCertificate? || h.state.SelectParameters? ==> h.queue != [])
    && (h.state.ProcessClientCcs? ==> h.queue == [])
    && (h.flight != [] ==> h.wait.Flush? || ServerSends(h.state))
    && (h.writeKeys <==> ServerWritesNew(n, h.state))
    && (h.readKeys <==> ServerReadsNew(n, h.state))
    && (h.learned <==> !n.resumed && n.certRequest && n.clientCert && ServerKnows(h.state))
  }

  predicate ServerReady(n: Negotiated, h: Hs, env: Env) {
    && n.Valid() && ServerInv(n, h) && h.wait.Ok? && !h.state.ServerDone? && !env.fate.Fail?
    && HeadFits(n, h, ServerRest(n, h), true)
  }

  predicate ServerFollows(n: Negotiated, h: Hs, o: Outcome) {
    Follows(n, h, After(o), ServerRest(n, h), ServerRest(n, After(o)), false)
  }

  lemma ServerFacts(n: Negotiated, h: Hs)
    requires ServerInv(n, h)
    ensures n.resumed ==> ShortServer(h.state)
    ensures h.writeKeys <==> ServerWritesNew(n, h.state)
    ensures h.learned <==> !n.resumed && n.certRequest && n.clientCert && ServerKnows(h.state)
    ensures h.state.SelectParameters? ==> h.queue != []
  {
  }

  /** The outcome of a step keeps to the script. */
  predicate ServerGood(n: Negotiated, h: Hs, o: Outcome) {
    ServerInv(n, After(o)) && ServerFollows(n, h, o)
  }

  lemma ServerStarts(n: Negotiated, h: Hs, env: Env)
    requires ServerReady(n, h, env) && h.state.StartAccept?
    ensures ServerFollows(n, h, DoStartAccept(n, h, env))
  {
    hide Rank, Proceeds, Emits, HeadFits, Takes, Rest, ServerInv;
    Quiet(n, h, After(DoStartAccept(n, h, env)), ServerRest(n, h), false);
  }

  lemma ServerStartsInv(n: Negotiated, h: Hs, env: Env)
    requires ServerReady(n, h, env) && h.state.StartAccept?
    ensures ServerInv(n, After(DoStartAccept(n, h, env)))
  {
    hide Rank, Proceeds, Emits, HeadFits, Takes, Rest;
  }

  lemma ServerFinishes(n: Negotiated, h: Hs, env: Env)
    requires ServerReady(n, h, env) && h.state.FinishServer?
    ensures ServerFollows(n, h, DoFinishServer(n, h, env))
  {
    hide Rank, Proceeds, Emits, HeadFits, Takes, Rest, ServerInv;
    Quiet(n, h, After(DoFinishServer(n, h, env)), ServerRest(n, h), false);
  }

  lemma ServerFinishesInv(n: Negotiated, h: Hs, env: Env)
    requires ServerReady(n, h, env) && h.state.FinishServer?
    ensures ServerInv(n, After(DoFinishServer(n, h, env)))
  {
    hide Rank, Proceeds, Emits, HeadFits, Takes, Rest;
  }

  /** The ClientHello is looked at twice before it is taken in. */
  lemma ServerPeeks(n: Negotiated, h: Hs, env: Env)
    requires ServerReady(n, h, env) && h.state.ReadClientHello?
    ensures ServerFollows(n, h, DoReadClientHello(n, h, env))
  {
    hide Rank, Proceeds, Emits, Takes, Rest, ServerInv;
    Place(n, 0);
    Quiet(n, h, After(DoReadClientHello(n, h, env)), ServerRest(n, h), false);
  }

  lemma HelloAtHand(n: Negotiated, h: Hs)
    requires HeadFits(n, h, ServerRest(n, h), true) && h.state.ReadClientHello? && h.queue != []
    ensures h.queue[0].kind == ClientHello
  {
    hide Rest, BodyFits;
    Place(n, 0);
  }

  lemma ServerPeeksInv(n: Negotiated, h: Hs, env: Env)
    requires ServerReady(n, h, env) && h.state.ReadClientHello?
    ensures ServerInv(n, After(DoReadClientHello(n, h, env)))
  {
    hide Rank, Proceeds, Emits, HeadFits, Takes, Rest;
    if h.queue != [] {
      HelloAtHand(n, h);
    }
  }

  lemma ServerPeeksAgain(n: Negotiated, h: Hs, env: Env)
    requires ServerReady(n, h, env) && h.state.SelectCertificate?
    ensures ServerFollows(n, h, DoSelectCertificate(n, h, env))
  {
    hide Rank, Proceeds, Emits, Takes, Rest, ServerInv;
    ServerFacts(n, h);
    Place(n, 0);
    Quiet(n, h, After(DoSelectCertificate(n, h, env)), ServerRest(n, h), false);
  }

  lemma ServerPeeksAgainInv(n: Negotiated, h: Hs, env: Env)
    requires ServerReady(n, h, env) && h.state.SelectCertificate?
    ensures ServerInv(n, After(DoSelectCertificate(n, h, env)))
  {
    hide Rank, Proceeds, Emits, HeadFits, Takes, Rest;
  }

  lemma ServerReadsHello(n: Negotiated, h: Hs, env: Env)
    requires ServerReady(n, h, env) && h.state.SelectParameters?
    ensures ServerFollows(n, h, DoSelectParameters(n, h, env))
  {
    hide Rank, Proceeds, Emits, HeadFits, Takes, Rest, ServerInv;
    ServerFacts(n, h);
    Place(n, 0);
    var rest := ServerRest(n, h);
    var t := After(DoSelectParameters(n, h, env));
    if env.fate.Retry? {
      Quiet(n, h, t, rest, false);
    } else {
      Taken(n, h, rest, true);
      Took(n, h, Take(h), t, rest, false);
    }
  }

  lemma ServerReadsHelloInv(n: Negotiated, h: Hs, env: Env)
    requires ServerReady(n, h, env) && h.state.SelectParameters?
    ensures ServerInv(n, After(DoSelectParameters(n, h, env)))
  {
    hide Rank, Proceeds, Emits, HeadFits, Takes, Rest;
  }

  lemma Taken(n: Negotiated, h: Hs, rest: seq<Slot>, peer: bool)
    requires HeadFits(n, h, rest, peer) && h.queue != []
    ensures rest != [] && Takes(h, Take(h), rest, rest[1..])
  {
  }

  lemma ServerSendsHello(n: Negotiated, h: Hs, env: Env)
    requires ServerReady(n, h, env) && h.state.SendServerHello?
    ensures ServerFollows(n, h, DoSendServerHello(n, h, env))
  {
    hide Rank, Proceeds, Emits, HeadFits, Takes, Rest, Say, ServerInv;
    ServerFacts(n, h);
    Place(n, 1);
    var rest := ServerRest(n, h);
    Said(n, h, ServerHello, Opaque(env.bytes), rest);
    Emitted(n, h, Say(h, ServerHello, Opaque(env.bytes)), After(DoSendServerHello(n, h, env)), rest, rest[1..], false);
  }

  lemma ServerSendsHelloInv(n: Negotiated, h: Hs, env: Env)
    requires ServerReady(n, h, env) && h.state.SendServerHello?
    ensures ServerInv(n, After(DoSendServerHello(n, h, env)))
  {
    hide Rank, Proceeds, Emits, HeadFits, Takes, Rest;
  }

  lemma ServerCertificateEmits(n: Negotiated, h: Hs, bytes: nat)
    requires n.Valid() && !n.resumed && !h.writeKeys
    ensures Emits(n, h, SayCertificate(n, h, bytes), Rest(n, 2), Rest(n, 4), false)
  {
    hide Emits, Rest;
    var a := if n.certAuth then Say(h, Certificate, Chain(true)) else h;
    PlaceAsSum(n, 2);
    PlaceAsSum(n, 3);
    SayIfEmits(n, h, n.certAuth, Certificate, Chain(true), Rest(n, 3), false);
    SayIfEmits(n, a, n.status, CertificateStatus, Opaque(bytes), Rest(n, 4), false);
    EmitsBoth(n, h, a, SayCertificate(n, h, bytes), Rest(n, 2), Rest(n, 3), Rest(n, 4), false);
  }

  lemma SaidCertificate(n: Negotiated, h: Hs, bytes: nat)
    ensures SaidOnly(h, SayCertificate(n, h, bytes))
  {
  }

  lemma SaidHelloDone(n: Negotiated, h: Hs, bytes: nat)
    ensures SaidOnly(h, SayHelloDone(n, h, bytes))
  {
  }

  lemma ServerSendsCertificate(n: Negotiated, h: Hs, env: Env)
    requires ServerReady(n, h, env) && h.state.SendServerCertificate?
    ensures ServerFollows(n, h, DoSendServerCertificate(n, h, env))
  {
    hide Rank, Proceeds, Emits, HeadFits, Takes, Rest, ServerInv;
    ServerFacts(n, h);
    var t := SayCertificate(n, h, env.bytes);
    SaidCertificate(n, h, env.bytes);
    hide SayCertificate;
    ServerCertificateEmits(n, h, env.bytes);
    Emitted(n, h, t, After(DoSendServerCertificate(n, h, env)), Rest(n, 2), Rest(n, 4), false);
  }

  lemma ServerSendsCertificateInv(n: Negotiated, h: Hs, env: Env)
    requires ServerReady(n, h, env) && h.state.SendServerCertificate?
    ensures ServerInv(n, After(DoSendServerCertificate(n, h, env)))
  {
    hide Rank, Proceeds, Emits, HeadFits, Takes, Rest, SayCertificate;
    SaidCertificate(n, h, env.bytes);
  }

  lemma ServerSendsKeyExchange(n: Negotiated, h: Hs, env: Env)
    requires ServerReady(n, h, env) && h.state.SendServerKeyExchange?
    ensures ServerFollows(n, h, DoSendServerKeyExchange(n, h, env))
  {
    hide Rank, Proceeds, Emits, HeadFits, Takes, Rest, Say, ServerInv;
    ServerFacts(n, h);
    Place(n, 4);
    var rest := ServerRest(n, h);
    var t := After(DoSendServerKeyExchange(n, h, env));
    if !n.SendsKeyExchange() || (n.certAuth && env.fate.Retry?) {
      Quiet(n, h, t, rest, false);
    } else {
      Said(n, h, ServerKeyExchange, Opaque(env.bytes), rest);
      Emitted(n, h, Say(h, ServerKeyExchange, Opaque(env.bytes)), t, rest, rest[1..], false);
    }
  }

  lemma ServerSendsKeyExchangeInv(n: Negotiated, h: Hs, env: Env)
    requires ServerReady(n, h, env) && h.state.SendServerKeyExchange?
    ensures ServerInv(n, After(DoSendServerKeyExchange(n, h, env)))
  {
    hide Rank, Proceeds, Emits, HeadFits, Takes, Rest;
  }

  lemma HelloDoneEmits(n: Negotiated, h: Hs, bytes: nat)
    requires !n.resumed && !h.writeKeys
    ensures Emits(n, h, SayHelloDone(n, h, bytes), Rest(n, 5), Rest(n, 7), false)
  {
    hide Emits, Rest;
    var a := if n.certRequest then Say(h, CertificateRequest, Opaque(bytes)) else h;
    PlaceAsSum(n, 5);
    Place(n, 6);
    SayIfEmits(n, h, n.certRequest, CertificateRequest, Opaque(bytes), Rest(n, 6), false);
    SayEmits(n, a, ServerHelloDone, Opaque(bytes), Rest(n, 6));
    EmitsBoth(n, h, a, SayHelloDone(n, h, bytes), Rest(n, 5), Rest(n, 6), Rest(n, 7), false);
  }

  lemma ServerSendsDone(n: Negotiated, h: Hs, env: Env)
    requires ServerReady(n, h, env) && h.state.SendServerHelloDone?
    ensures ServerFollows(n, h, DoSendServerHelloDone(n, h, env))
  {
    hide Rank, Proceeds, Emits, HeadFits, Takes, Rest, ServerInv;
    ServerFacts(n, h);
    var t := SayHelloDone(n, h, env.bytes);
    SaidHelloDone(n, h, env.bytes);
    hide SayHelloDone;
    HelloDoneEmits(n, h, env.bytes);
    Emitted(n, h, t, After(DoSendServerHelloDone(n, h, env)), Rest(n, 5), Rest(n, 7), false);
  }

  lemma ServerSendsDoneInv(n: Negotiated, h: Hs, env: Env)
    requires ServerReady(n, h, env) && h.state.SendServerHelloDone?
    ensures ServerInv(n, After(DoSendServerHelloDone(n, h, env)))
  {
    hide Rank, Proceeds, Emits, HeadFits, Takes, Rest, SayHelloDone;
    SaidHelloDone(n, h, env.bytes);
  }

  lemma ServerReadsCertificate(n: Negotiated, h: Hs, env: Env)
    requires ServerReady(n, h, env) && h.state.ReadClientCertificate?
    ensures ServerFollows(n, h, DoReadClientCertificate(n, h, env))
  {
    hide Rank, Proceeds, Emits, HeadFits, Takes, Receive, Rest, Take, ServerInv;
    ServerFacts(n, h);
    Place(n, 7);
    var rest := ServerRest(n, h);
    if !n.certRequest {
      Quiet(n, h, h.(state := VerifyClientCertificate), rest, false);
    } else {
      Received(n, h, Certificate, env, VerifyClientCertificate, rest, false);
      if h.queue == [] {
        Quiet(n, h, h.(wait := ReadMessage), rest, false);
      } else {
        var t := Receive(h, Certificate, env, VerifyClientCertificate).h;
        Took(n, h, t, t.(learned := h.queue[0].body.nonEmpty), rest, false);
      }
    }
  }

  lemma ServerReadsCertificateInv(n: Negotiated, h: Hs, env: Env)
    requires ServerReady(n, h, env) && h.state.ReadClientCertificate?
    ensures ServerInv(n, After(DoReadClientCertificate(n, h, env)))
  {
    hide Rank, Proceeds, Emits, HeadFits, Takes, Receive, Rest, Take;
    Place(n, ServerPlace(n, h));
    if n.certRequest {
      Received(n, h, Certificate, env, VerifyClientCertificate, ServerRest(n, h), false);
    }
  }

  lemma ServerVerifies(n: Negotiated, h: Hs, env: Env)
    requires ServerReady(n, h, env) && h.state.VerifyClientCertificate?
    ensures ServerFollows(n, h, DoVerifyClientCertificate(n, h, env))
  {
    hide Rank, Proceeds, Emits, HeadFits, Takes, Rest, ServerInv;
    ServerFacts(n, h);
    Quiet(n, h, After(DoVerifyClientCertificate(n, h, env)), ServerRest(n, h), false);
  }

  lemma ServerVerifiesInv(n: Negotiated, h: Hs, env: Env)
    requires ServerReady(n, h, env) && h.state.VerifyClientCertificate?
    ensures ServerInv(n, After(DoVerifyClientCertificate(n, h, env)))
  {
    hide Rank, Proceeds, Emits, HeadFits, Takes, Rest;
  }

  lemma ServerReadsKeyExchange(n: Negotiated, h: Hs, env: Env)
    requires ServerReady(n, h, env) && h.state.ReadClientKeyExchange?
    ensures ServerFollows(n, h, DoReadClientKeyExchange(n, h, env))
  {
    hide Rank, Proceeds, Emits, HeadFits, Takes, Receive, Rest, Take, ServerInv;
    ServerFacts(n, h);
    Place(n, 8);
    var rest := ServerRest(n, h);
    Received(n, h, ClientKeyExchange, env, ReadClientCertificateVerify, rest, false);
    if h.queue == [] {
      Quiet(n, h, h.(wait := ReadMessage), rest, false);
    }
    Quiet(n, h, h.(wait := Suspended), rest, false);
  }

  lemma ServerReadsKeyExchangeInv(n: Negotiated, h: Hs, env: Env)
    requires ServerReady(n, h, env) && h.state.ReadClientKeyExchange?
    ensures ServerInv(n, After(DoReadClientKeyExchange(n, h, env)))
  {
    hide Rank, Proceeds, Emits, HeadFits, Takes, Receive, Rest, Take;
    Place(n, ServerPlace(n, h));
    Received(n, h, ClientKeyExchange, env, ReadClientCertificateVerify, ServerRest(n, h), false);
  }

  lemma ServerReadsVerify(n: Negotiated, h: Hs, env: Env)
    requires ServerReady(n, h, env) && h.state.ReadClientCertificateVerify?
    ensures ServerFollows(n, h, DoReadClientCertificateVerify(n, h, env))
  {
    hide Rank, Proceeds, Emits, HeadFits, Takes, Receive, Rest, Take, ServerInv;
    ServerFacts(n, h);
    Place(n, 9);
    var rest := ServerRest(n, h);
    if h.learned {
      Received(n, h, CertificateVerify, env, ReadClientCcs, rest, false);
      if h.queue == [] {
        Quiet(n, h, h.(wait := ReadMessage), rest, false);
      }
    } else {
      Quiet(n, h, h.(state := ReadClientCcs), rest, false);
    }
  }

  lemma ServerReadsVerifyInv(n: Negotiated, h: Hs, env: Env)
    requires ServerReady(n, h, env) && h.state.ReadClientCertificateVerify?
    ensures ServerInv(n, After(DoReadClientCertificateVerify(n, h, env)))
  {
    hide Rank, Proceeds, Emits, HeadFits, Takes, Receive, Rest, Take;
    Place(n, ServerPlace(n, h));
    if h.learned {
      Received(n, h, CertificateVerify, env, ReadClientCcs, ServerRest(n, h), false);
    }
  }

  lemma ServerAwaitsCcs(n: Negotiated, h: Hs, env: Env)
    requires ServerReady(n, h, env) && h.state.ReadClientCcs?
    ensures ServerFollows(n, h, DoReadClientCcs(n, h, env))
  {
    hide Rank, Proceeds, Emits, Takes, Rest, ServerInv;
    Place(n, ServerPlace(n, h));
    Quiet(n, h, After(DoReadClientCcs(n, h, env)), ServerRest(n, h), false);
  }

  lemma NoMessageAtCcs(n: Negotiated, h: Hs)
    requires HeadFits(n, h, ServerRest(n, h), true) && h.state.ReadClientCcs?
    ensures h.queue == []
  {
    hide Rest, BodyFits;
    Place(n, ServerPlace(n, h));
  }

  lemma ServerAwaitsCcsInv(n: Negotiated, h: Hs, env: Env)
    requires ServerReady(n, h, env) && h.state.ReadClientCcs?
    ensures ServerInv(n, After(DoReadClientCcs(n, h, env)))
  {
    hide Rank, Proceeds, Emits, HeadFits, Takes, Rest;
    NoMessageAtCcs(n, h);
  }

  lemma ServerKeysChanged(n: Negotiated, h: Hs)
    requires ServerInv(n, h) && h.state.ProcessClientCcs? && h.wait.Ok?
    ensures h.queue == [] && ServerInv(n, h.(readKeys := true, state := ReadNextProto))
    ensures ServerPlace(n, h.(readKeys := true, state := ReadNextProto)) == ServerPlace(n, h)
  {
  }

  lemma ServerChangesKeys(n: Negotiated, h: Hs, env: Env)
    requires ServerReady(n, h, env) && h.state.ProcessClientCcs?
    ensures ServerFollows(n, h, DoProcessClientCcs(n, h, env))
  {
    hide Rank, Proceeds, Emits, HeadFits, Takes, Rest, Follows, ServerInv, ServerPlace;
    ServerKeysChanged(n, h);
    QuietKeys(n, h, h.(readKeys := true, state := ReadNextProto), ServerRest(n, h), false);
  }

  lemma ServerChangesKeysInv(n: Negotiated, h: Hs, env: Env)
    requires ServerReady(n, h, env) && h.state.ProcessClientCcs?
    ensures ServerInv(n, After(DoProcessClientCcs(n, h, env)))
  {
    hide Rank, Proceeds, Emits, HeadFits, Takes, Rest;
  }

  /** What the script has next for the two optional messages before Finished. */
  lemma OptionalDue(n: Negotiated, h: Hs)
    requires ServerInv(n, h) && (h.state.ReadNextProto? || h.state.ReadChannelId?)
    ensures var due := if h.state.ReadNextProto? then n.nextProto else n.channelId;
            var kind := if h.state.ReadNextProto? then NextProto else ChannelId;
            var later := Rest(n, ServerPlace(n, h) + 1);
            if due
            then ServerRest(n, h) != [] && ServerRest(n, h)[0] == Slot(true, Says(kind))
                 && ServerRest(n, h)[1..] == later
            else ServerRest(n, h) == later
  {
    hide Rest;
    Place(n, ServerPlace(n, h));
  }

  lemma ServerReadsNextProto(n: Negotiated, h: Hs, env: Env)
    requires ServerReady(n, h, env) && h.state.ReadNextProto?
    ensures ServerFollows(n, h, DoReadNextProto(n, h, env))
  {
    hide Rank, Proceeds, Emits, HeadFits, Takes, Receive, Rest, Take, ServerInv;
    OptionalDue(n, h);
    var rest := ServerRest(n, h);
    if !n.nextProto {
      Quiet(n, h, h.(state := ReadChannelId), rest, false);
    } else {
      Received(n, h, NextProto, env, ReadChannelId, rest, false);
      if h.queue == [] {
        Quiet(n, h, h.(wait := ReadMessage), rest, false);
      }
    }
  }

  lemma ServerReadsNextProtoInv(n: Negotiated, h: Hs, env: Env)
    requires ServerReady(n, h, env) && h.state.ReadNextProto?
    ensures ServerInv(n, After(DoReadNextProto(n, h, env)))
  {
    hide Rank, Proceeds, Emits, HeadFits, Takes, Receive, Rest, Take;
    OptionalDue(n, h);
    if n.nextProto {
      Received(n, h, NextProto, env, ReadChannelId, ServerRest(n, h), false);
    }
  }

  lemma ServerReadsChannelId(n: Negotiated, h: Hs, env: Env)
    requires ServerReady(n, h, env) && h.state.ReadChannelId?
    ensures ServerFollows(n, h, DoReadChannelId(n, h, env))
  {
    hide Rank, Proceeds, Emits, HeadFits, Takes, Receive, Rest, Take, ServerInv;
    OptionalDue(n, h);
    var rest := ServerRest(n, h);
    if !n.channelId {
      Quiet(n, h, h.(state := ReadClientFinished), rest, false);
    } else {
      Received(n, h, ChannelId, env, ReadClientFinished, rest, false);
      if h.queue == [] {
        Quiet(n, h, h.(wait := ReadMessage), rest, false);
      }
    }
  }

  lemma ServerReadsChannelIdInv(n: Negotiated, h: Hs, env: Env)
    requires ServerReady(n, h, env) && h.state.ReadChannelId?
    ensures ServerInv(n, After(DoReadChannelId(n, h, env)))
  {
    hide Rank, Proceeds, Emits, HeadFits, Takes, Receive, Rest, Take;
    OptionalDue(n, h);
    if n.channelId {
      Received(n, h, ChannelId, env, ReadClientFinished, ServerRest(n, h), false);
    }
  }

  lemma ServerReadsFinished(n: Negotiated, h: Hs, env: Env)
    requires ServerReady(n, h, env) && h.state.ReadClientFinished?
    ensures ServerFollows(n, h, DoReadClientFinished(n, h, env))
  {
    hide Rank, Proceeds, Emits, HeadFits, Takes, ReceiveFinished, Rest, Take, ServerInv;
    Place(n, ServerPlace(n, h));
    var rest := ServerRest(n, h);
    ReceivedFinished(n, h, env, if n.resumed then FinishServer else SendServerFinished, rest, false);
    if h.queue == [] {
      Quiet(n, h, h.(wait := ReadMessage), rest, false);
    }
  }

  lemma ServerReadsFinishedInv(n: Negotiated, h: Hs, env: Env)
    requires ServerReady(n, h, env) && h.state.ReadClientFinished?
    ensures ServerInv(n, After(DoReadClientFinished(n, h, env)))
  {
    hide Rank, Proceeds, Emits, HeadFits, Takes, ReceiveFinished, Rest, Take;
    Place(n, ServerPlace(n, h));
    ReceivedFinished(n, h, env, if n.resumed then FinishServer else SendServerFinished, ServerRest(n, h), false);
  }

  /** A ticket, perhaps, ChangeCipherSpec and Finished fill three places. */
  lemma ServerFinishedEmits(n: Negotiated, h: Hs, bytes: nat, i: nat)
    requires i == (if n.resumed then 2 else 14) && !h.writeKeys
    ensures Emits(n, h, SayServerFinished(n, h, bytes), Rest(n, i), Rest(n, i + 3), false)
  {
    hide Emits, Rest, InFlight, If;
    ServerLastPlaces(n, i);
    var a := if n.ticket then Say(h, NewSessionTicket, Opaque(bytes)) else h;
    var b := SayCcs(a);
    SayIfEmits(n, h, n.ticket, NewSessionTicket, Opaque(bytes), Rest(n, i + 1), false);
    SayCcsEmits(n, a, Rest(n, i + 1));
    SayEmits(n, b, Finished, Mac(true, b.transcript), Rest(n, i + 2));
    FinishedEmits(n, b, true, Rest(n, i + 2), Rest(n, i + 3), false);
    EmitsBoth(n, h, a, b, Rest(n, i), Rest(n, i + 1), Rest(n, i + 2), false);
    EmitsBoth(n, h, b, SayFinished(b, true), Rest(n, i), Rest(n, i + 2), Rest(n, i + 3), false);
  }

  lemma ServerLastPlaces(n: Negotiated, i: nat)
    requires i == if n.resumed then 2 else 14
    ensures Rest(n, i) == If(n.ticket, S(NewSessionTicket)) + Rest(n, i + 1)
    ensures Rest(n, i + 1) != [] && Rest(n, i + 1)[0] == Slot(false, Ccs) && Rest(n, i + 1)[1..] == Rest(n, i + 2)
    ensures Rest(n, i + 2) != [] && Rest(n, i + 2)[0] == S(Finished) && Rest(n, i + 2)[1..] == Rest(n, i + 3)
  {
    hide Rest;
    PlaceAsSum(n, i);
    Place(n, i + 1);
    Place(n, i + 2);
  }

  lemma SaidServerFinished(n: Negotiated, h: Hs, bytes: nat)
    ensures var t := SayServerFinished(n, h, bytes);
            && t.state == h.state && t.wait == h.wait && t.queue == h.queue && t.writeKeys
            && t.readKeys == h.readKeys && t.learned == h.learned && t.finishedRead == h.finishedRead
            && t.finishedSent == h.finishedSent + [true]
  {
  }

  lemma ServerSendsFinished(n: Negotiated, h: Hs, env: Env)
    requires ServerReady(n, h, env) && h.state.SendServerFinished?
    ensures ServerFollows(n, h, DoSendServerFinished(n, h, env))
  {
    hide Rank, Proceeds, Emits, HeadFits, Takes, Rest, SayServerFinished, ServerInv;
    ServerFacts(n, h);
    var t := After(DoSendServerFinished(n, h, env));
    SaidServerFinished(n, h, env.bytes);
    ServerFinishedEmits(n, h, env.bytes, ServerPlace(n, h));
    Emitted(n, h, SayServerFinished(n, h, env.bytes), t, ServerRest(n, h), ServerRest(n, t), false);
  }

  lemma ServerSendsFinishedInv(n: Negotiated, h: Hs, env: Env)
    requires ServerReady(n, h, env) && h.state.SendServerFinished?
    ensures ServerInv(n, After(DoSendServerFinished(n, h, env)))
  {
    hide Rank, Proceeds, Emits, HeadFits, Takes, Rest, SayServerFinished;
    SaidServerFinished(n, h, env.bytes);
  }

  /** Every step of the server keeps to the script. */
  lemma ServerKeepsToScript(n: Negotiated, h: Hs, env: Env)
    requires ServerReady(n, h, env)
    ensures ServerGood(n, h, ServerStep(n, h, env))
  {
    assert !ClientMachine(h.state) && !h.state.ServerDone?;
    hide ServerReady, ServerInv, ServerFollows;
    match h.state
    case StartAccept => ServerStarts(n, h, env); ServerStartsInv(n, h, env);
    case ReadClientHello => ServerPeeks(n, h, env); ServerPeeksInv(n, h, env);
    case SelectCertificate => ServerPeeksAgain(n, h, env); ServerPeeksAgainInv(n, h, env);
    case SelectParameters => ServerReadsHello(n, h, env); ServerReadsHelloInv(n, h, env);
    case SendServerHello => ServerSendsHello(n, h, env); ServerSendsHelloInv(n, h, env);
    case SendServerCertificate => ServerSendsCertificate(n, h, env); ServerSendsCertificateInv(n, h, env);
    case SendServerKeyExchange => ServerSendsKeyExchange(n, h, env); ServerSendsKeyExchangeInv(n, h, env);
    case SendServerHelloDone => ServerSendsDone(n, h, env); ServerSendsDoneInv(n, h, env);
    case ReadClientCertificate => ServerReadsCertificate(n, h, env); ServerReadsCertificateInv(n, h, env);
    case VerifyClientCertificate => ServerVerifies(n, h, env); ServerVerifiesInv(n, h, env);
    case ReadClientKeyExchange => ServerReadsKeyExchange(n, h, env); ServerReadsKeyExchangeInv(n, h, env);
    case ReadClientCertificateVerify => ServerReadsVerify(n, h, env); ServerReadsVerifyInv(n, h, env);
    case ReadClientCcs => ServerAwaitsCcs(n, h, env); ServerAwaitsCcsInv(n, h, env);
    case ProcessClientCcs => ServerChangesKeys(n, h, env); ServerChangesKeysInv(n, h, env);
    case ReadNextProto => ServerReadsNextProto(n, h, env); ServerReadsNextProtoInv(n, h, env);
    case ReadChannelId => ServerReadsChannelId(n, h, env); ServerReadsChannelIdInv(n, h, env);
    case ReadClientFinished => ServerReadsFinished(n, h, env); ServerReadsFinishedInv(n, h, env);
    case SendServerFinished => ServerSendsFinished(n, h, env); ServerSendsFinishedInv(n, h, env);
    case FinishServer => ServerFinishes(n, h, env); ServerFinishesInv(n, h, env);
    case _ =>
  }
}
