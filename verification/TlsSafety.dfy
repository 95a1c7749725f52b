/** One side against any peer: whatever arrives, a side is done only after one Finished of its own
    under new keys and one Finished of the peer, checked, under new keys; and every message is hashed
    exactly when it is released or sent. */
module TlsSafety {
  import opened Common
  import opened TlsHandshake
  import opened TlsScript
  import opened TlsSides
  import opened TlsServerSide

  /** What was said since `h`: the flight and the transcript have grown by the same messages. */
  predicate Spoke(h: Hs, t: Hs) {
    h.flight <= t.flight && t.transcript == h.transcript + Messages(t.flight[|h.flight|..])
  }

  /** Between `h` and `t` the message at hand was released and hashed, or nothing was released and
      exactly what joined the flight was hashed. */
  predicate HashedOnce(h: Hs, t: Hs) {
    || (t.queue == h.queue && Spoke(h, t))
    || (h.queue != [] && t.queue == h.queue[1..] && t.flight == h.flight && t.transcript == h.transcript + [h.queue[0]])
  }

  /** A Finished is accepted only if it is at hand and its MAC is the peer's over the transcript before it. */
  predicate Checked(h: Hs, t: Hs, byServer: bool) {
    t.finishedRead != h.finishedRead ==>
      && h.queue != [] && h.queue[0] == Message(Finished, Mac(byServer, h.transcript))
      && t.finishedRead == h.finishedRead + [h.readKeys]
  }

  /** A step checks the Finished it accepts, and if it does not fail it hashes once. */
  predicate StepHashes(h: Hs, o: Outcome, byServer: bool) {
    Checked(h, o.h, byServer) && (!o.wait.Error? ==> HashedOnce(h, o.h))
  }

  lemma SaidNothing(h: Hs, t: Hs)
    requires t.queue == h.queue && t.flight == h.flight && t.transcript == h.transcript
    ensures Spoke(h, t)
  {
    assert h.transcript + [] == h.transcript;
  }

  /** A step that releases nothing and says nothing hashes once, and so does one that only takes the
      message at hand. */
  lemma QuietOrTaking(h: Hs)
    ensures forall t: Hs | t.queue == h.queue && t.flight == h.flight && t.transcript == h.transcript ::
              HashedOnce(h, t)
    ensures h.queue != [] ==> forall t: Hs | Took(h, t) :: HashedOnce(h, t)
  {
    hide Messages;
    SaidNothing(h, h);
  }

  predicate Took(h: Hs, t: Hs)
    requires h.queue != []
  {
    t.queue == h.queue[1..] && t.flight == h.flight && t.transcript == h.transcript + [h.queue[0]]
  }

  lemma Speaks(h: Hs, item: Item, t: Hs)
    requires t.flight == h.flight + [item] && t.transcript == h.transcript + Heard(item)
    ensures Spoke(h, t)
  {
    assert t.flight[|h.flight|..] == [item];
    assert [item][1..] == [];
    assert Messages([item]) == Heard(item) + [];
  }

  lemma SpeaksOn(h: Hs, t: Hs, u: Hs)
    requires Spoke(h, t) && Spoke(t, u)
    ensures Spoke(h, u)
  {
    hide Messages;
    var x, y := t.flight[|h.flight|..], u.flight[|t.flight|..];
    assert u.flight[|h.flight|..] == x + y;
    MessagesAppend(x, y);
    assert h.transcript + Messages(x) + Messages(y) == h.transcript + (Messages(x) + Messages(y));
  }

  lemma SaySpeaks(h: Hs, kind: Kind, body: Body)
    ensures Spoke(h, Say(h, kind, body))
  {
    hide Spoke;
    Speaks(h, Carry(Message(kind, body), h.writeKeys), Say(h, kind, body));
  }

  lemma SayIfSpeaks(h: Hs, b: bool, kind: Kind, body: Body)
    ensures Spoke(h, if b then Say(h, kind, body) else h)
  {
    hide Spoke;
    SaySpeaks(h, kind, body);
    SaidNothing(h, h);
  }

  /** ChangeCipherSpec and Finished. */
  lemma FinishedSpeaks(h: Hs, byServer: bool)
    ensures Spoke(h, SayCcs(h)) && Spoke(h, SayFinished(h, byServer))
  {
    hide Spoke;
    Speaks(h, ChangeCipherSpec, SayCcs(h));
    Speaks(h, Carry(Message(Finished, Mac(byServer, h.transcript)), h.writeKeys), SayFinished(h, byServer));
  }

  lemma ClientFinishedSpeaks(n: Negotiated, h: Hs, bytes: nat)
    ensures Spoke(h, SayClientFinished(n, h, bytes))
  {
    hide Spoke;
    var a := SayCcs(h);
    var b := if n.nextProto then Say(a, NextProto, Opaque(bytes)) else a;
    var c := if n.channelId then Say(b, ChannelId, Opaque(bytes)) else b;
    FinishedSpeaks(h, false);
    SayIfSpeaks(a, n.nextProto, NextProto, Opaque(bytes));
    SayIfSpeaks(b, n.channelId, ChannelId, Opaque(bytes));
    FinishedSpeaks(c, false);
    SpeaksOn(h, a, b);
    SpeaksOn(h, b, c);
    SpeaksOn(h, c, SayFinished(c, false));
  }

  // The client.

  /** The client has accepted the server's Finished. */
  predicate ClientHeardFinished(n: Negotiated, s: State) {
    s.FinishClient? || s.ClientDone? || (n.resumed && (s.SendClientFinished? || s.FinishFlight?))
  }

  /** The states, the keys and the Finished messages go together. */
  predicate ClientSafe(n: Negotiated, h: Hs) {
    && ClientMachine(h.state) && (n.resumed ==> ShortClient(h.state))
    && (h.writeKeys <==> ClientWritesNew(n, h.state))
    && (h.readKeys <==> ClientReadsNew(n, h.state))
    && h.finishedSent == (if ClientWritesNew(n, h.state) then [true] else [])
    && h.finishedRead == (if ClientHeardFinished(n, h.state) then [true] else [])
  }

  predicate ClientStepSafe(n: Negotiated, h: Hs, o: Outcome) {
    ClientSafe(n, After(o)) && StepHashes(h, o, true)
  }

  lemma ClientOpeningSafe(n: Negotiated, h: Hs, env: Env)
    requires ClientSafe(n, h)
    requires h.state.StartConnect? || h.state.EnterEarlyData? || h.state.ReadServerHello?
             || h.state.ReadServerCertificate?
    ensures h.state.StartConnect? ==> ClientSafe(n, After(DoStartConnect(n, h, env)))
    ensures h.state.EnterEarlyData? ==> ClientSafe(n, After(DoEnterEarlyData(n, h, env)))
    ensures h.state.ReadServerHello? ==> ClientSafe(n, After(DoReadServerHello(n, h, env)))
    ensures h.state.ReadServerCertificate? ==> ClientSafe(n, After(DoReadServerCertificate(n, h, env)))
  {
    hide Rank, Proceeds;
  }

  lemma ClientServerKeysSafe(n: Negotiated, h: Hs, env: Env)
    requires ClientSafe(n, h)
    requires h.state.ReadCertificateStatus? || h.state.VerifyServerCertificate? || h.state.ReadServerKeyExchange?
    ensures h.state.ReadCertificateStatus? ==> ClientSafe(n, After(DoReadCertificateStatus(n, h, env)))
    ensures h.state.VerifyServerCertificate? ==> ClientSafe(n, After(DoVerifyServerCertificate(n, h, env)))
    ensures h.state.ReadServerKeyExchange? ==> ClientSafe(n, After(DoReadServerKeyExchange(n, h, env)))
  {
    hide Rank, Proceeds;
  }

  lemma ClientCertificateSafe(n: Negotiated, h: Hs, env: Env)
    requires ClientSafe(n, h)
    requires h.state.ReadCertificateRequest? || h.state.ReadServerHelloDone? || h.state.SendClientCertificate?
    ensures h.state.ReadCertificateRequest? ==> ClientSafe(n, After(DoReadCertificateRequest(n, h, env)))
    ensures h.state.ReadServerHelloDone? ==> ClientSafe(n, After(DoReadServerHelloDone(n, h, env)))
    ensures h.state.SendClientCertificate? ==> ClientSafe(n, After(DoSendClientCertificate(n, h, env)))
  {
    hide Rank, Proceeds;
  }

  lemma ClientKeyExchangeSafe(n: Negotiated, h: Hs, env: Env)
    requires ClientSafe(n, h)
    requires h.state.SendClientKeyExchange? || h.state.SendClientCertificateVerify?
    ensures h.state.SendClientKeyExchange? ==> ClientSafe(n, After(DoSendClientKeyExchange(n, h, env)))
    ensures h.state.SendClientCertificateVerify? ==> ClientSafe(n, After(DoSendClientCertificateVerify(n, h, env)))
  {
    hide Rank, Proceeds;
  }

  lemma ClientFinishingSafe(n: Negotiated, h: Hs, env: Env)
    requires ClientSafe(n, h)
    requires h.state.SendClientFinished? || h.state.FinishFlight?
    ensures h.state.SendClientFinished? ==> ClientSafe(n, After(DoSendClientFinished(n, h, env)))
    ensures h.state.FinishFlight? ==> ClientSafe(n, After(DoFinishFlight(n, h, env)))
  {
    hide Rank, Proceeds, SayClientFinished;
    SaidClientFinished(n, h, env.bytes);
  }

  lemma ClientTicketAndCcsSafe(n: Negotiated, h: Hs, env: Env)
    requires ClientSafe(n, h)
    requires h.state.ReadSessionTicket? || h.state.ProcessServerCcs?
    ensures h.state.ReadSessionTicket? ==> ClientSafe(n, After(DoReadSessionTicket(n, h, env)))
    ensures h.state.ProcessServerCcs? ==> ClientSafe(n, After(DoProcessServerCcs(n, h, env)))
  {
    hide Rank, Proceeds;
  }

  lemma ClientClosingSafe(n: Negotiated, h: Hs, env: Env)
    requires ClientSafe(n, h)
    requires h.state.ReadServerFinished? || h.state.FinishClient?
    ensures h.state.ReadServerFinished? ==> ClientSafe(n, After(DoReadServerFinished(n, h, env)))
    ensures h.state.FinishClient? ==> ClientSafe(n, After(DoFinishClient(n, h, env)))
  {
    hide Rank, Proceeds;
  }

  lemma ClientReadingHashes(n: Negotiated, h: Hs, env: Env)
    ensures StepHashes(h, DoEnterEarlyData(n, h, env), true)
    ensures StepHashes(h, DoReadServerHello(n, h, env), true)
    ensures StepHashes(h, DoReadServerCertificate(n, h, env), true)
  {
    hide Rank, Proceeds, HashedOnce;
    QuietOrTaking(h);
  }

  lemma ClientVerifyingHashes(n: Negotiated, h: Hs, env: Env)
    ensures StepHashes(h, DoReadCertificateStatus(n, h, env), true)
    ensures StepHashes(h, DoVerifyServerCertificate(n, h, env), true)
  {
    hide Rank, Proceeds, HashedOnce;
    QuietOrTaking(h);
  }

  lemma ClientReadingOnHashes(n: Negotiated, h: Hs, env: Env)
    ensures StepHashes(h, DoReadServerKeyExchange(n, h, env), true)
    ensures StepHashes(h, DoReadCertificateRequest(n, h, env), true)
    ensures StepHashes(h, DoReadServerHelloDone(n, h, env), true)
  {
    hide Rank, Proceeds, HashedOnce;
    QuietOrTaking(h);
  }

  lemma ClientChangingHashes(n: Negotiated, h: Hs, env: Env)
    ensures StepHashes(h, DoReadSessionTicket(n, h, env), true)
    ensures StepHashes(h, DoProcessServerCcs(n, h, env), true)
  {
    hide Rank, Proceeds, HashedOnce;
    QuietOrTaking(h);
  }

  lemma ClientSpeakingHashes(n: Negotiated, h: Hs, env: Env)
    ensures StepHashes(h, DoStartConnect(n, h, env), true)
    ensures StepHashes(h, DoSendClientCertificate(n, h, env), true)
    ensures StepHashes(h, DoSendClientKeyExchange(n, h, env), true)
    ensures StepHashes(h, DoSendClientCertificateVerify(n, h, env), true)
  {
    hide Rank, Proceeds, Messages;
    SaidNothing(h, h);
    SaySpeaks(h, ClientHello, Opaque(env.bytes));
    SaySpeaks(h, Certificate, Chain(n.clientCert));
    SaySpeaks(h, ClientKeyExchange, Opaque(env.bytes));
    SaySpeaks(h, CertificateVerify, Opaque(env.bytes));
  }

  lemma ClientFinishingHashes(n: Negotiated, h: Hs, env: Env)
    ensures StepHashes(h, DoSendClientFinished(n, h, env), true)
    ensures StepHashes(h, DoFinishFlight(n, h, env), true)
  {
    hide Rank, Proceeds, Messages, SayClientFinished;
    SaidNothing(h, h);
    ClientFinishedSpeaks(n, h, env.bytes);
    SaidClientFinished(n, h, env.bytes);
  }

  lemma ClientClosingHashes(n: Negotiated, h: Hs, env: Env)
    ensures StepHashes(h, DoReadServerFinished(n, h, env), true)
    ensures StepHashes(h, DoFinishClient(n, h, env), true)
  {
    hide Rank, Proceeds, HashedOnce;
    QuietOrTaking(h);
  }

  lemma ClientStepHashes(n: Negotiated, h: Hs, env: Env)
    requires ClientMachine(h.state) && !h.state.ClientDone?
    ensures StepHashes(h, ClientStep(n, h, env), true)
  {
    hide StepHashes;
    ClientReadingHashes(n, h, env);
    ClientVerifyingHashes(n, h, env);
    ClientReadingOnHashes(n, h, env);
    ClientChangingHashes(n, h, env);
    ClientSpeakingHashes(n, h, env);
    ClientFinishingHashes(n, h, env);
    ClientClosingHashes(n, h, env);
  }

  lemma ClientRuns(n: Negotiated, h: Hs)
    requires ClientSafe(n, h)
    ensures ClientMachine(h.state)
  {
  }

  /** Every step of the client, whatever is at hand, is safe. */
  lemma ClientStepsSafely(n: Negotiated, h: Hs, env: Env)
    requires ClientSafe(n, h) && !h.state.ClientDone?
    ensures ClientStepSafe(n, h, ClientStep(n, h, env))
  {
    hide ClientSafe, Proceeds, StepHashes;
    ClientRuns(n, h);
    ClientStepHashes(n, h, env);
    if h.state.StartConnect? || h.state.EnterEarlyData? || h.state.ReadServerHello? || h.state.ReadServerCertificate? {
      ClientOpeningSafe(n, h, env);
    } else if h.state.ReadCertificateStatus? || h.state.VerifyServerCertificate? || h.state.ReadServerKeyExchange? {
      ClientServerKeysSafe(n, h, env);
    } else if h.state.ReadCertificateRequest? || h.state.ReadServerHelloDone? || h.state.SendClientCertificate? {
      ClientCertificateSafe(n, h, env);
    } else if h.state.SendClientKeyExchange? || h.state.SendClientCertificateVerify? {
      ClientKeyExchangeSafe(n, h, env);
    } else if h.state.SendClientFinished? || h.state.FinishFlight? {
      ClientFinishingSafe(n, h, env);
    } else if h.state.ReadSessionTicket? || h.state.ProcessServerCcs? {
      ClientTicketAndCcsSafe(n, h, env);
    } else {
      ClientClosingSafe(n, h, env);
    }
  }

  // The server.

  lemma CertificateSpeaks(n: Negotiated, h: Hs, bytes: nat)
    ensures Spoke(h, SayCertificate(n, h, bytes))
  {
    hide Spoke;
    var a := Say(h, Certificate, Chain(true));
    SaidNothing(h, h);
    SaySpeaks(h, Certificate, Chain(true));
    SayIfSpeaks(a, n.status, CertificateStatus, Opaque(bytes));
    SpeaksOn(h, a, if n.status then Say(a, CertificateStatus, Opaque(bytes)) else a);
  }

  lemma HelloDoneSpeaks(n: Negotiated, h: Hs, bytes: nat)
    ensures Spoke(h, SayHelloDone(n, h, bytes))
  {
    hide Spoke;
    var a := if n.certRequest then Say(h, CertificateRequest, Opaque(bytes)) else h;
    SayIfSpeaks(h, n.certRequest, CertificateRequest, Opaque(bytes));
    SaySpeaks(a, ServerHelloDone, Opaque(bytes));
    SpeaksOn(h, a, Say(a, ServerHelloDone, Opaque(bytes)));
  }

  lemma ServerFinishedSpeaks(n: Negotiated, h: Hs, bytes: nat)
    ensures Spoke(h, SayServerFinished(n, h, bytes))
  {
    hide Spoke;
    var a := if n.ticket then Say(h, NewSessionTicket, Opaque(bytes)) else h;
    var b := SayCcs(a);
    SayIfSpeaks(h, n.ticket, NewSessionTicket, Opaque(bytes));
    FinishedSpeaks(a, true);
    FinishedSpeaks(b, true);
    SpeaksOn(h, a, b);
    SpeaksOn(h, b, SayFinished(b, true));
  }

  /** The server has accepted the client's Finished. */
  predicate ServerHeardFinished(n: Negotiated, s: State) {
    s.FinishServer? || s.ServerDone? || (!n.resumed && s.SendServerFinished?)
  }

  /** In an abbreviated handshake the server's Finished comes first. */
  predicate ServerFinishesEarly(n: Negotiated, s: State) {
    s.FinishServer? || s.ServerDone?
    || (n.resumed && (s.ReadClientCcs? || s.ProcessClientCcs? || s.ReadNextProto? || s.ReadChannelId?
                      || s.ReadClientFinished?))
  }

  predicate ServerSafe(n: Negotiated, h: Hs) {
    && !ClientMachine(h.state) && (n.resumed ==> ShortServer(h.state))
    && (h.writeKeys <==> ServerWritesNew(n, h.state))
    && (h.readKeys <==> ServerReadsNew(n, h.state))
    && h.finishedSent == (if ServerFinishesEarly(n, h.state) then [true] else [])
    && h.finishedRead == (if ServerHeardFinished(n, h.state) then [true] else [])
  }

  predicate ServerStepSafe(n: Negotiated, h: Hs, o: Outcome) {
    ServerSafe(n, After(o)) && StepHashes(h, o, false)
  }

  lemma ServerStartSafe(n: Negotiated, h: Hs, env: Env)
    requires ServerSafe(n, h) && h.state.StartAccept?
    ensures ServerSafe(n, After(DoStartAccept(n, h, env)))
  {
    hide Rank, Proceeds;
    assert After(DoStartAccept(n, h, env)) == h.(state := ReadClientHello, wait := Ok);
  }

  lemma ServerOpeningSafe(n: Negotiated, h: Hs, env: Env)
    requires ServerSafe(n, h) && h.state.ReadClientHello?
    ensures ServerSafe(n, After(DoReadClientHello(n, h, env)))
  {
    hide Rank, Proceeds;
  }

  lemma ServerParametersSafe(n: Negotiated, h: Hs, env: Env)
    requires ServerSafe(n, h)
    requires h.state.SelectCertificate? || h.state.SelectParameters?
    ensures h.state.SelectCertificate? ==> ServerSafe(n, After(DoSelectCertificate(n, h, env)))
    ensures h.state.SelectParameters? ==> ServerSafe(n, After(DoSelectParameters(n, h, env)))
  {
    hide Rank, Proceeds;
  }

  lemma ServerHelloSafe(n: Negotiated, h: Hs, env: Env)
    requires ServerSafe(n, h)
    requires h.state.SendServerHello? || h.state.SendServerCertificate?
    ensures h.state.SendServerHello? ==> ServerSafe(n, After(DoSendServerHello(n, h, env)))
    ensures h.state.SendServerCertificate? ==> ServerSafe(n, After(DoSendServerCertificate(n, h, env)))
  {
    hide Rank, Proceeds, SayCertificate;
    SaidCertificate(n, h, env.bytes);
  }

  lemma ServerHelloDoneSafe(n: Negotiated, h: Hs, env: Env)
    requires ServerSafe(n, h)
    requires h.state.SendServerKeyExchange? || h.state.SendServerHelloDone?
    ensures h.state.SendServerKeyExchange? ==> ServerSafe(n, After(DoSendServerKeyExchange(n, h, env)))
    ensures h.state.SendServerHelloDone? ==> ServerSafe(n, After(DoSendServerHelloDone(n, h, env)))
  {
    hide Rank, Proceeds, SayHelloDone;
    SaidHelloDone(n, h, env.bytes);
  }

  lemma ServerClientCertificateSafe(n: Negotiated, h: Hs, env: Env)
    requires ServerSafe(n, h)
    requires h.state.ReadClientCertificate? || h.state.VerifyClientCertificate?
    ensures h.state.ReadClientCertificate? ==> ServerSafe(n, After(DoReadClientCertificate(n, h, env)))
    ensures h.state.VerifyClientCertificate? ==> ServerSafe(n, After(DoVerifyClientCertificate(n, h, env)))
  {
    hide Rank, Proceeds;
  }

  lemma ServerKeyExchangeSafe(n: Negotiated, h: Hs, env: Env)
    requires ServerSafe(n, h)
    requires h.state.ReadClientKeyExchange? || h.state.ReadClientCertificateVerify?
    ensures h.state.ReadClientKeyExchange? ==> ServerSafe(n, After(DoReadClientKeyExchange(n, h, env)))
    ensures h.state.ReadClientCertificateVerify? ==> ServerSafe(n, After(DoReadClientCertificateVerify(n, h, env)))
  {
    hide Rank, Proceeds;
  }

  lemma ServerCcsSafe(n: Negotiated, h: Hs, env: Env)
    requires ServerSafe(n, h)
    requires h.state.ReadClientCcs? || h.state.ProcessClientCcs?
    ensures h.state.ReadClientCcs? ==> ServerSafe(n, After(DoReadClientCcs(n, h, env)))
    ensures h.state.ProcessClientCcs? ==> ServerSafe(n, After(DoProcessClientCcs(n, h, env)))
  {
    hide Rank, Proceeds;
  }

  lemma ServerNextProtoSafe(n: Negotiated, h: Hs, env: Env)
    requires ServerSafe(n, h)
    requires h.state.ReadNextProto? || h.state.ReadChannelId?
    ensures h.state.ReadNextProto? ==> ServerSafe(n, After(DoReadNextProto(n, h, env)))
    ensures h.state.ReadChannelId? ==> ServerSafe(n, After(DoReadChannelId(n, h, env)))
  {
    hide Rank, Proceeds;
  }

  lemma ServerReadsFinishedSafe(n: Negotiated, h: Hs, env: Env)
    requires ServerSafe(n, h)
    requires h.state.ReadClientFinished?
    ensures ServerSafe(n, After(DoReadClientFinished(n, h, env)))
  {
    hide Rank, Proceeds;
  }

  lemma ServerFinishingSafe(n: Negotiated, h: Hs, env: Env)
    requires ServerSafe(n, h)
    requires h.state.SendServerFinished? || h.state.FinishServer?
    ensures h.state.SendServerFinished? ==> ServerSafe(n, After(DoSendServerFinished(n, h, env)))
    ensures h.state.FinishServer? ==> ServerSafe(n, After(DoFinishServer(n, h, env)))
  {
    hide Rank, Proceeds, SayServerFinished;
    SaidServerFinished(n, h, env.bytes);
  }

  lemma ServerOpeningHashes(n: Negotiated, h: Hs, env: Env)
    ensures StepHashes(h, DoStartAccept(n, h, env), false)
    ensures StepHashes(h, DoReadClientHello(n, h, env), false)
    ensures StepHashes(h, DoSelectCertificate(n, h, env), false)
    ensures StepHashes(h, DoSelectParameters(n, h, env), false)
  {
    hide Rank, Proceeds, HashedOnce;
    QuietOrTaking(h);
  }

  lemma ServerSpeakingHashes(n: Negotiated, h: Hs, env: Env)
    ensures StepHashes(h, DoSendServerHello(n, h, env), false)
    ensures StepHashes(h, DoSendServerCertificate(n, h, env), false)
    ensures StepHashes(h, DoSendServerKeyExchange(n, h, env), false)
    ensures StepHashes(h, DoSendServerHelloDone(n, h, env), false)
  {
    hide Rank, Proceeds, Messages, SayCertificate, SayHelloDone;
    SaidNothing(h, h);
    SaySpeaks(h, ServerHello, Opaque(env.bytes));
    CertificateSpeaks(n, h, env.bytes);
    SaidCertificate(n, h, env.bytes);
    SaySpeaks(h, ServerKeyExchange, Opaque(env.bytes));
    HelloDoneSpeaks(n, h, env.bytes);
    SaidHelloDone(n, h, env.bytes);
  }

  lemma ServerReadingHashes(n: Negotiated, h: Hs, env: Env)
    ensures StepHashes(h, DoReadClientCertificate(n, h, env), false)
    ensures StepHashes(h, DoVerifyClientCertificate(n, h, env), false)
  {
    hide Rank, Proceeds, HashedOnce;
    QuietOrTaking(h);
  }

  lemma ServerKeyExchangeHashes(n: Negotiated, h: Hs, env: Env)
    ensures StepHashes(h, DoReadClientKeyExchange(n, h, env), false)
    ensures StepHashes(h, DoReadClientCertificateVerify(n, h, env), false)
  {
    hide Rank, Proceeds, HashedOnce;
    QuietOrTaking(h);
  }

  lemma ServerReadingOnHashes(n: Negotiated, h: Hs, env: Env)
    ensures StepHashes(h, DoReadClientCcs(n, h, env), false)
    ensures StepHashes(h, DoProcessClientCcs(n, h, env), false)
    ensures StepHashes(h, DoReadNextProto(n, h, env), false)
    ensures StepHashes(h, DoReadChannelId(n, h, env), false)
  {
    hide Rank, Proceeds, HashedOnce;
    QuietOrTaking(h);
  }

  lemma ServerFinishedReadHashes(n: Negotiated, h: Hs, env: Env)
    ensures StepHashes(h, DoReadClientFinished(n, h, env), false)
    ensures StepHashes(h, DoFinishServer(n, h, env), false)
  {
    hide Rank, Proceeds, Messages, SayServerFinished;
    SaidNothing(h, h);
  }

  lemma ServerFinishedSentHashes(n: Negotiated, h: Hs, env: Env)
    ensures StepHashes(h, DoSendServerFinished(n, h, env), false)
  {
    hide Rank, Proceeds, Messages, SayServerFinished;
    ServerFinishedSpeaks(n, h, env.bytes);
    SaidServerFinished(n, h, env.bytes);
  }

  lemma ServerStepHashes(n: Negotiated, h: Hs, env: Env)
    requires !ClientMachine(h.state) && !h.state.ServerDone?
    ensures StepHashes(h, ServerStep(n, h, env), false)
  {
    hide StepHashes;
    ServerOpeningHashes(n, h, env);
    ServerSpeakingHashes(n, h, env);
    ServerReadingHashes(n, h, env);
    ServerKeyExchangeHashes(n, h, env);
    ServerReadingOnHashes(n, h, env);
    ServerFinishedReadHashes(n, h, env);
    ServerFinishedSentHashes(n, h, env);
  }

  lemma ServerRuns(n: Negotiated, h: Hs)
    requires ServerSafe(n, h)
    ensures !ClientMachine(h.state)
  {
  }

  /** Every step of the server, whatever is at hand, is safe. */
  lemma ServerStepsSafely(n: Negotiated, h: Hs, env: Env)
    requires ServerSafe(n, h) && !h.state.ServerDone?
    ensures ServerStepSafe(n, h, ServerStep(n, h, env))
  {
    hide ServerSafe, Proceeds, StepHashes;
    ServerRuns(n, h);
    ServerStepHashes(n, h, env);
    if h.state.StartAccept? {
      ServerStartSafe(n, h, env);
    } else if h.state.ReadClientHello? {
      ServerOpeningSafe(n, h, env);
    } else if h.state.SelectCertificate? || h.state.SelectParameters? {
      ServerParametersSafe(n, h, env);
    } else if h.state.SendServerHello? || h.state.SendServerCertificate? {
      ServerHelloSafe(n, h, env);
    } else if h.state.SendServerKeyExchange? || h.state.SendServerHelloDone? {
      ServerHelloDoneSafe(n, h, env);
    } else if h.state.ReadClientCertificate? || h.state.VerifyClientCertificate? {
      ServerClientCertificateSafe(n, h, env);
    } else if h.state.ReadClientKeyExchange? || h.state.ReadClientCertificateVerify? {
      ServerKeyExchangeSafe(n, h, env);
    } else if h.state.ReadClientCcs? || h.state.ProcessClientCcs? {
      ServerCcsSafe(n, h, env);
    } else if h.state.ReadNextProto? || h.state.ReadChannelId? {
      ServerNextProtoSafe(n, h, env);
    } else if h.state.ReadClientFinished? {
      ServerReadsFinishedSafe(n, h, env);
    } else {
      ServerFinishingSafe(n, h, env);
    }
  }

  lemma ResolvingIsSafe(n: Negotiated, h: Hs, incoming: seq<Item>)
    requires Resolve(h, incoming).Some?
    ensures ClientSafe(n, h) ==> ClientSafe(n, Resolve(h, incoming).value.h)
    ensures ServerSafe(n, h) ==> ServerSafe(n, Resolve(h, incoming).value.h)
  {
    hide Resolve, ClientMachine, ShortClient, ShortServer, ClientWritesNew, ClientReadsNew, ServerWritesNew,
         ServerReadsNew, ClientHeardFinished, ServerHeardFinished, ServerFinishesEarly;
    ResolvedSame(h, incoming);
  }

  lemma ResolvedSame(h: Hs, incoming: seq<Item>)
    requires Resolve(h, incoming).Some?
    ensures var t := Resolve(h, incoming).value.h; t == h.(wait := t.wait, queue := t.queue, flight := t.flight)
  {
  }

  lemma FreshSidesAreSafe(n: Negotiated)
    ensures ClientSafe(n, Initial(StartConnect)) && ServerSafe(n, Initial(StartAccept))
  {
  }
}
