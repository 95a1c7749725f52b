/** Exactly when a step goes on, whatever the peer sent: what has to be at hand, when a side waits for it, when it
    waits for a decision, and what a failure ends. */
module TlsReady {
  import opened Common
  import opened TlsHandshake
  import opened TlsPassage

  /** The message at hand is of the kind. */
  predicate At(h: Hs, kind: Kind) {
    h.queue != [] && h.queue[0].kind == kind
  }

  predicate AtFinished(h: Hs, byServer: bool) {
    h.queue != [] && h.queue[0] == Message(Finished, Mac(byServer, h.transcript))
  }

  // The client.

  /** States that look at a message. */
  predicate ClientLooks(n: Negotiated, s: State) {
    match s
    case ReadServerHello => true
    case ReadServerCertificate => n.certAuth
    case ReadCertificateStatus => n.status
    case ReadServerKeyExchange => true
    case ReadCertificateRequest => n.certAuth
    case ReadServerHelloDone => true
    case ReadSessionTicket => n.ticket
    case ReadServerFinished => true
    case _ => false
  }

  /** What has to be at hand. A CertificateStatus, a ServerKeyExchange without ECDHE and a CertificateRequest may be
      missing: another message at hand is then left for the next state. */
  predicate ClientReady(n: Negotiated, h: Hs) {
    match h.state
    case ReadServerHello => At(h, ServerHello)
    case ReadServerCertificate => n.certAuth ==> h.queue != [] && h.queue[0] == Message(Certificate, Chain(true))
    case ReadCertificateStatus => n.status ==> h.queue != []
    case ReadServerKeyExchange => h.queue != [] && if At(h, ServerKeyExchange) then n.ecdhe || !n.certAuth else !n.ecdhe
    case ReadCertificateRequest => n.certAuth ==> At(h, CertificateRequest) || At(h, ServerHelloDone)
    case ReadServerHelloDone => At(h, ServerHelloDone)
    case ReadSessionTicket => n.ticket ==> At(h, NewSessionTicket)
    case ProcessServerCcs => h.queue == []
    case ReadServerFinished => AtFinished(h, true)
    case _ => true
  }

  /** States that may be told to come back later. */
  predicate ClientAsks(n: Negotiated, h: Hs) {
    match h.state
    case VerifyServerCertificate => n.certAuth
    case SendClientCertificate => h.learned
    case SendClientCertificateVerify => h.learned && n.clientCert
    case SendClientFinished => n.channelId
    case _ => false
  }

  /** With every check and callback going well, a client goes on exactly when it has what it needs at hand, waits
      exactly when it looks for a message and has none, and fails otherwise. */
  lemma ClientGoesOnExactly(n: Negotiated, h: Hs, env: Env)
    requires ClientMachine(h.state) && !h.state.ClientDone? && env.fate.Proceed?
    ensures var o := ClientStep(n, h, env);
            && (WentOn(o) <==> ClientReady(n, h))
            && (o.wait.ReadMessage? <==> h.queue == [] && ClientLooks(n, h.state))
            && (o.wait.Error? <==> !WentOn(o) && !o.wait.ReadMessage?)
  {
    hide Rank, Proceeds, SayClientFinished, Take;
  }

  /** A decision that is not there yet suspends the handshake exactly where one is asked for, and makes no
      difference anywhere else. */
  lemma ClientSuspendsExactly(n: Negotiated, h: Hs, bytes: nat)
    requires ClientMachine(h.state)
    ensures ClientStep(n, h, Env(Retry, bytes)) ==
            if ClientAsks(n, h) then Outcome(h, Suspended) else ClientStep(n, h, Env(Proceed, bytes))
  {
    hide Rank, Proceeds, SayClientFinished, Take;
  }

  /** States that, with what is at hand, go on without taking in, saying or checking anything. */
  predicate ClientPassesBy(n: Negotiated, h: Hs) {
    match h.state
    case EnterEarlyData => true
    case ReadServerCertificate => !n.certAuth
    case ReadCertificateStatus => !n.status || (h.queue != [] && !At(h, CertificateStatus))
    case VerifyServerCertificate => !n.certAuth
    case ReadServerKeyExchange => h.queue != [] && !At(h, ServerKeyExchange) && !n.ecdhe
    case ReadCertificateRequest => !n.certAuth || At(h, ServerHelloDone)
    case SendClientCertificate => !h.learned
    case SendClientCertificateVerify => !h.learned || !n.clientCert
    case ReadSessionTicket => !n.ticket
    case _ => false
  }

  /** A check or callback that fails ends the handshake where it is, wherever there is one. */
  lemma ClientFailsExactly(n: Negotiated, h: Hs, bytes: nat)
    requires ClientMachine(h.state) && !h.state.ClientDone?
    ensures ClientStep(n, h, Env(Fail, bytes)) ==
            if ClientPassesBy(n, h) then ClientStep(n, h, Env(Proceed, bytes))
            else Outcome(h, if h.queue == [] && ClientLooks(n, h.state) then ReadMessage else Error)
  {
    hide Rank, Proceeds, SayClientFinished, Take;
  }

  // The server.

  predicate ServerLooks(n: Negotiated, h: Hs) {
    match h.state
    case ReadClientHello => true
    case SelectCertificate => true
    case SelectParameters => true
    case ReadClientCertificate => n.certRequest
    case ReadClientKeyExchange => true
    case ReadClientCertificateVerify => h.learned
    case ReadNextProto => n.nextProto
    case ReadChannelId => n.channelId
    case ReadClientFinished => true
    case _ => false
  }

  predicate ServerReady(n: Negotiated, h: Hs) {
    match h.state
    case ReadClientHello => At(h, ClientHello)
    case SelectCertificate => h.queue != []
    case SelectParameters => h.queue != []
    case ReadClientCertificate => n.certRequest ==> At(h, Certificate) && h.queue[0].body.Chain?
    case ReadClientKeyExchange => At(h, ClientKeyExchange)
    case ReadClientCertificateVerify => h.learned ==> At(h, CertificateVerify)
    case ProcessClientCcs => h.queue == []
    case ReadNextProto => n.nextProto ==> At(h, NextProto)
    case ReadChannelId => n.channelId ==> At(h, ChannelId)
    case ReadClientFinished => AtFinished(h, false)
    case _ => true
  }

  /** With RSA key exchange the private key may be somewhere else, and so may the key that signs. */
  predicate ServerAsks(n: Negotiated, h: Hs) {
    match h.state
    case ReadClientHello => At(h, ClientHello)
    case SelectCertificate => h.queue != []
    case SelectParameters => h.queue != []
    case SendServerKeyExchange => n.certAuth && n.ecdhe
    case VerifyClientCertificate => h.learned
    case ReadClientKeyExchange => At(h, ClientKeyExchange) && n.certAuth && !n.ecdhe
    case _ => false
  }

  /** The outcome is the one that what is at hand calls for. */
  predicate ServerExactly(n: Negotiated, h: Hs, o: Outcome) {
    && (WentOn(o) <==> ServerReady(n, h))
    && (o.wait.ReadMessage? <==> h.queue == [] && ServerLooks(n, h))
    && (o.wait.Error? <==> !WentOn(o) && !o.wait.ReadMessage?)
  }

  /** The same of a server. */
  lemma ServerGoesOnExactly(n: Negotiated, h: Hs, env: Env)
    requires !ClientMachine(h.state) && !h.state.ServerDone? && env.fate.Proceed?
    ensures ServerExactly(n, h, ServerStep(n, h, env))
  {
    hide ServerStep, ServerExactly;
    if h.state in {ReadClientKeyExchange, ReadClientCertificateVerify, ReadNextProto, ReadChannelId,
                   ReadClientFinished} {
      ServerReadsExactly(n, h, env);
    } else {
      ServerOthersExactly(n, h, env);
    }
  }

  lemma ServerReadsExactly(n: Negotiated, h: Hs, env: Env)
    requires env.fate.Proceed?
    requires h.state in {ReadClientKeyExchange, ReadClientCertificateVerify, ReadNextProto, ReadChannelId,
                         ReadClientFinished}
    ensures ServerExactly(n, h, ServerStep(n, h, env))
  {
    hide Rank, Proceeds, Take;
  }

  lemma ServerOthersExactly(n: Negotiated, h: Hs, env: Env)
    requires !ClientMachine(h.state) && !h.state.ServerDone? && env.fate.Proceed?
    requires h.state !in {ReadClientKeyExchange, ReadClientCertificateVerify, ReadNextProto, ReadChannelId,
                          ReadClientFinished}
    ensures ServerExactly(n, h, ServerStep(n, h, env))
  {
    hide Rank, Proceeds, SayCertificate, SayHelloDone, SayServerFinished, Take;
  }

  lemma ServerSuspendsExactly(n: Negotiated, h: Hs, bytes: nat)
    requires !ClientMachine(h.state)
    ensures ServerStep(n, h, Env(Retry, bytes)) ==
            if ServerAsks(n, h) then Outcome(h, Suspended) else ServerStep(n, h, Env(Proceed, bytes))
  {
    hide Rank, Proceeds, SayCertificate, SayHelloDone, SayServerFinished, Take;
  }

  predicate ServerPassesBy(n: Negotiated, h: Hs) {
    match h.state
    case StartAccept => true
    case SendServerKeyExchange => !n.ecdhe && (n.certAuth || !n.pskHint)
    case ReadClientCertificate => !n.certRequest
    case VerifyClientCertificate => !h.learned
    case ReadClientCertificateVerify => !h.learned
    case ReadClientCcs => true
    case ReadNextProto => !n.nextProto
    case ReadChannelId => !n.channelId
    case _ => false
  }

  lemma ServerFailsExactly(n: Negotiated, h: Hs, bytes: nat)
    requires !ClientMachine(h.state) && !h.state.ServerDone?
    ensures ServerStep(n, h, Env(Fail, bytes)) ==
            if ServerPassesBy(n, h) then ServerStep(n, h, Env(Proceed, bytes))
            else Outcome(h, if h.queue == [] && ServerLooks(n, h) then ReadMessage else Error)
  {
    hide Rank, Proceeds, SayCertificate, SayHelloDone, SayServerFinished, Take;
  }
}
