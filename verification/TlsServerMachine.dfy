/** The server's steps as they run, each proved to compute its step function. */
module TlsServerMachine {
  import opened Common
  import opened TlsHandshake
  import opened TlsState
  import opened TlsSafety
  import opened TlsRuns

  method PerformStartAccept(hs: Handshake, n: Negotiated, env: Env) returns (w: Wait)
    modifies hs
    ensures Outcome(hs.View(), w) == DoStartAccept(n, old(hs.View()), env)
  {
    hs.state := ReadClientHello;
    return Ok;
  }

  method PerformReadClientHello(hs: Handshake, n: Negotiated, env: Env) returns (w: Wait)
    modifies hs
    ensures Outcome(hs.View(), w) == DoReadClientHello(n, old(hs.View()), env)
  {
    var msg := hs.GetMessage();
    if msg.None? {
      return ReadMessage;
    }
    if msg.value.kind != ClientHello {
      return Error;
    }
    if env.fate.Retry? {
      return Suspended;
    }
    if env.fate.Fail? {
      return Error;
    }
    hs.state := SelectCertificate;
    return Ok;
  }

  method PerformSelectCertificate(hs: Handshake, n: Negotiated, env: Env) returns (w: Wait)
    modifies hs
    ensures Outcome(hs.View(), w) == DoSelectCertificate(n, old(hs.View()), env)
  {
    var msg := hs.GetMessage();
    if msg.None? {
      return ReadMessage;
    }
    if env.fate.Retry? {
      return Suspended;
    }
    if env.fate.Fail? {
      return Error;
    }
    hs.state := SelectParameters;
    return Ok;
  }

  method PerformSelectParameters(hs: Handshake, n: Negotiated, env: Env) returns (w: Wait)
    modifies hs
    ensures Outcome(hs.View(), w) == DoSelectParameters(n, old(hs.View()), env)
  {
    var msg := hs.GetMessage();
    if msg.None? {
      return ReadMessage;
    }
    if env.fate.Retry? {
      return Suspended;
    }
    if env.fate.Fail? {
      return Error;
    }
    hs.HashAndRelease();
    hs.state := SendServerHello;
    return Ok;
  }

  method PerformSendServerHello(hs: Handshake, n: Negotiated, env: Env) returns (w: Wait)
    modifies hs
    ensures Outcome(hs.View(), w) == DoSendServerHello(n, old(hs.View()), env)
  {
    if env.fate.Fail? {
      return Error;
    }
    hs.AddMessage(ServerHello, Opaque(env.bytes));
    hs.state := if n.resumed then SendServerFinished else SendServerCertificate;
    return Ok;
  }

  method PerformSendServerCertificate(hs: Handshake, n: Negotiated, env: Env) returns (w: Wait)
    modifies hs
    ensures Outcome(hs.View(), w) == DoSendServerCertificate(n, old(hs.View()), env)
  {
    if env.fate.Fail? {
      return Error;
    }
    if n.certAuth {
      hs.AddMessage(Certificate, Chain(true));
      if n.status {
        hs.AddMessage(CertificateStatus, Opaque(env.bytes));
      }
    }
    hs.state := SendServerKeyExchange;
    return Ok;
  }

  method PerformSendServerKeyExchange(hs: Handshake, n: Negotiated, env: Env) returns (w: Wait)
    modifies hs
    ensures Outcome(hs.View(), w) == DoSendServerKeyExchange(n, old(hs.View()), env)
  {
    if !n.SendsKeyExchange() {
      hs.state := SendServerHelloDone;
      return Ok;
    }
    if n.certAuth && env.fate.Retry? {
      return Suspended;
    }
    if env.fate.Fail? {
      return Error;
    }
    hs.AddMessage(ServerKeyExchange, Opaque(env.bytes));
    hs.state := SendServerHelloDone;
    return Ok;
  }

  method PerformSendServerHelloDone(hs: Handshake, n: Negotiated, env: Env) returns (w: Wait)
    modifies hs
    ensures Outcome(hs.View(), w) == DoSendServerHelloDone(n, old(hs.View()), env)
  {
    if env.fate.Fail? {
      return Error;
    }
    if n.certRequest {
      hs.AddMessage(CertificateRequest, Opaque(env.bytes));
    }
    hs.AddMessage(ServerHelloDone, Opaque(env.bytes));
    hs.state := ReadClientCertificate;
    return Flush;
  }

  method PerformReadClientCertificate(hs: Handshake, n: Negotiated, env: Env) returns (w: Wait)
    modifies hs
    ensures Outcome(hs.View(), w) == DoReadClientCertificate(n, old(hs.View()), env)
  {
    if !n.certRequest {
      hs.state := VerifyClientCertificate;
      return Ok;
    }
    var msg := hs.GetMessage();
    if msg.Some? && !msg.value.body.Chain? {
      return Error;
    }
    w := hs.ReadKind(Certificate, env, VerifyClientCertificate);
    if w.Ok? {
      hs.learned := msg.value.body.nonEmpty;
    }
  }

  method PerformVerifyClientCertificate(hs: Handshake, n: Negotiated, env: Env) returns (w: Wait)
    modifies hs
    ensures Outcome(hs.View(), w) == DoVerifyClientCertificate(n, old(hs.View()), env)
  {
    if hs.learned {
      if env.fate.Retry? {
        return Suspended;
      }
      if env.fate.Fail? {
        return Error;
      }
    }
    hs.state := ReadClientKeyExchange;
    return Ok;
  }

  method PerformReadClientKeyExchange(hs: Handshake, n: Negotiated, env: Env) returns (w: Wait)
    modifies hs
    ensures Outcome(hs.View(), w) == DoReadClientKeyExchange(n, old(hs.View()), env)
  {
    var msg := hs.GetMessage();
    if msg.Some? && msg.value.kind == ClientKeyExchange && n.certAuth && !n.ecdhe && env.fate.Retry? {
      return Suspended;
    }
    w := hs.ReadKind(ClientKeyExchange, env, ReadClientCertificateVerify);
  }

  method PerformReadClientCertificateVerify(hs: Handshake, n: Negotiated, env: Env) returns (w: Wait)
    modifies hs
    ensures Outcome(hs.View(), w) == DoReadClientCertificateVerify(n, old(hs.View()), env)
  {
    if !hs.learned {
      hs.state := ReadClientCcs;
      return Ok;
    }
    w := hs.ReadKind(CertificateVerify, env, ReadClientCcs);
  }

  method PerformReadClientCcs(hs: Handshake, n: Negotiated, env: Env) returns (w: Wait)
    modifies hs
    ensures Outcome(hs.View(), w) == DoReadClientCcs(n, old(hs.View()), env)
  {
    hs.state := ProcessClientCcs;
    return ReadCcs;
  }

  method PerformProcessClientCcs(hs: Handshake, n: Negotiated, env: Env) returns (w: Wait)
    modifies hs
    ensures Outcome(hs.View(), w) == DoProcessClientCcs(n, old(hs.View()), env)
  {
    w := hs.ChangeKeysForReading(env, ReadNextProto);
  }

  method PerformReadNextProto(hs: Handshake, n: Negotiated, env: Env) returns (w: Wait)
    modifies hs
    ensures Outcome(hs.View(), w) == DoReadNextProto(n, old(hs.View()), env)
  {
    if !n.nextProto {
      hs.state := ReadChannelId;
      return Ok;
    }
    w := hs.ReadKind(NextProto, env, ReadChannelId);
  }

  method PerformReadChannelId(hs: Handshake, n: Negotiated, env: Env) returns (w: Wait)
    modifies hs
    ensures Outcome(hs.View(), w) == DoReadChannelId(n, old(hs.View()), env)
  {
    if !n.channelId {
      hs.state := ReadClientFinished;
      return Ok;
    }
    w := hs.ReadKind(ChannelId, env, ReadClientFinished);
  }

  method PerformReadClientFinished(hs: Handshake, n: Negotiated, env: Env) returns (w: Wait)
    modifies hs
    ensures Outcome(hs.View(), w) == DoReadClientFinished(n, old(hs.View()), env)
  {
    w := hs.GetFinished(false, env, if n.resumed then FinishServer else SendServerFinished);
  }

  method PerformSendServerFinished(hs: Handshake, n: Negotiated, env: Env) returns (w: Wait)
    modifies hs
    ensures Outcome(hs.View(), w) == DoSendServerFinished(n, old(hs.View()), env)
  {
    if env.fate.Fail? {
      return Error;
    }
    if n.ticket {
      hs.AddMessage(NewSessionTicket, Opaque(env.bytes));
    }
    hs.ChangeWriteKeys();
    hs.SendFinished(true);
    hs.state := if n.resumed then ReadClientCcs else FinishServer;
    return Flush;
  }

  method PerformFinishServer(hs: Handshake, n: Negotiated, env: Env) returns (w: Wait)
    modifies hs
    ensures Outcome(hs.View(), w) == DoFinishServer(n, old(hs.View()), env)
  {
    if env.fate.Fail? {
      return Error;
    }
    hs.state := ServerDone;
    return Ok;
  }

  /** The dispatch of ssl_server_handshake. */
  method PerformServerStep(hs: Handshake, n: Negotiated, env: Env) returns (w: Wait)
    modifies hs
    ensures Outcome(hs.View(), w) == ServerStep(n, old(hs.View()), env)
  {
    hide Rank, Proceeds, DoStartAccept, DoReadClientHello, DoSelectCertificate, DoSelectParameters, DoSendServerHello,
         DoSendServerCertificate, DoSendServerKeyExchange, DoSendServerHelloDone, DoReadClientCertificate,
         DoVerifyClientCertificate, DoReadClientKeyExchange, DoReadClientCertificateVerify, DoReadClientCcs,
         DoProcessClientCcs, DoReadNextProto, DoReadChannelId, DoReadClientFinished, DoSendServerFinished,
         DoFinishServer;
    match hs.state
    case StartAccept => w := PerformStartAccept(hs, n, env);
    case ReadClientHello => w := PerformReadClientHello(hs, n, env);
    case SelectCertificate => w := PerformSelectCertificate(hs, n, env);
    case SelectParameters => w := PerformSelectParameters(hs, n, env);
    case SendServerHello => w := PerformSendServerHello(hs, n, env);
    case SendServerCertificate => w := PerformSendServerCertificate(hs, n, env);
    case SendServerKeyExchange => w := PerformSendServerKeyExchange(hs, n, env);
    case SendServerHelloDone => w := PerformSendServerHelloDone(hs, n, env);
    case ReadClientCertificate => w := PerformReadClientCertificate(hs, n, env);
    case VerifyClientCertificate => w := PerformVerifyClientCertificate(hs, n, env);
    case ReadClientKeyExchange => w := PerformReadClientKeyExchange(hs, n, env);
    case ReadClientCertificateVerify => w := PerformReadClientCertificateVerify(hs, n, env);
    case ReadClientCcs => w := PerformReadClientCcs(hs, n, env);
    case ProcessClientCcs => w := PerformProcessClientCcs(hs, n, env);
    case ReadNextProto => w := PerformReadNextProto(hs, n, env);
    case ReadChannelId => w := PerformReadChannelId(hs, n, env);
    case ReadClientFinished => w := PerformReadClientFinished(hs, n, env);
    case SendServerFinished => w := PerformSendServerFinished(hs, n, env);
    case FinishServer => w := PerformFinishServer(hs, n, env);
    case _ => w := Ok;
  }

  /** ssl_server_handshake: steps are run until one does not return Ok or the server is done; every one that
      returns Ok brings it nearer to the end. Ok means done, with one Finished each way under new keys; a
      wait leaves exactly the state whose step waits, and each message released or said was hashed once. */
  method RunServer(hs: Handshake, n: Negotiated, envs: seq<Env>) returns (w: Wait)
    requires ServerSafe(n, hs.View())
    modifies hs
    ensures Outcome(hs.View(), w) == ServerLoop(n, old(hs.View()), envs)
    ensures ServerSafe(n, hs.View())
    ensures w.Ok? ==> hs.state.ServerDone? && hs.finishedSent == [true] && hs.finishedRead == [true]
    ensures w.ReadMessage? || w.Suspended? ==> exists env: Env :: ServerStep(n, hs.View(), env) == Outcome(hs.View(), w)
    ensures !w.Error? ==> KeepsHashed(old(hs.View()), hs.View())
  {
    hide ServerStep, ServerSafe, KeepsHashed;
    ghost var start := hs.View();
    ghost var o := ServerLoop(n, start, envs);
    ServerLoopIsSafe(n, start, envs);
    ServerDoneFinished(n, start);
    OkAside(n, o);
    var rest := envs;
    while !hs.state.ServerDone?
      invariant !ClientMachine(hs.state) && ServerLoop(n, hs.View(), rest) == o
      decreases Rank(n, hs.state)
    {
      w := PerformServerStep(hs, n, NextEnv(rest));
      if !w.Ok? {
        return;
      }
      rest := Later(rest);
    }
    return Ok;
  }
}
