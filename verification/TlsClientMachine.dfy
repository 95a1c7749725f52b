/** The client's steps as they run, each proved to compute its step function. */
module TlsClientMachine {
  import opened Common
  import opened TlsHandshake
  import opened TlsState
  import opened TlsSafety
  import opened TlsRuns

  method PerformStartConnect(hs: Handshake, n: Negotiated, env: Env) returns (w: Wait)
    modifies hs
    ensures Outcome(hs.View(), w) == DoStartConnect(n, old(hs.View()), env)
  {
    if env.fate.Fail? {
      return Error;
    }
    hs.AddMessage(ClientHello, Opaque(env.bytes));
    hs.state := EnterEarlyData;
    return Flush;
  }

  method PerformEnterEarlyData(hs: Handshake, n: Negotiated, env: Env) returns (w: Wait)
    modifies hs
    ensures Outcome(hs.View(), w) == DoEnterEarlyData(n, old(hs.View()), env)
  {
    hs.state := ReadServerHello;
    return Ok;
  }

  method PerformReadServerHello(hs: Handshake, n: Negotiated, env: Env) returns (w: Wait)
    modifies hs
    ensures Outcome(hs.View(), w) == DoReadServerHello(n, old(hs.View()), env)
  {
    w := hs.ReadKind(ServerHello, env, if n.resumed then ReadSessionTicket else ReadServerCertificate);
  }

  method PerformReadServerCertificate(hs: Handshake, n: Negotiated, env: Env) returns (w: Wait)
    modifies hs
    ensures Outcome(hs.View(), w) == DoReadServerCertificate(n, old(hs.View()), env)
  {
    if !n.certAuth {
      hs.state := ReadCertificateStatus;
      return Ok;
    }
    var msg := hs.GetMessage();
    if msg.Some? && msg.value.body != Chain(true) {
      return Error;
    }
    w := hs.ReadKind(Certificate, env, ReadCertificateStatus);
  }

  method PerformReadCertificateStatus(hs: Handshake, n: Negotiated, env: Env) returns (w: Wait)
    modifies hs
    ensures Outcome(hs.View(), w) == DoReadCertificateStatus(n, old(hs.View()), env)
  {
    if !n.status {
      hs.state := VerifyServerCertificate;
      return Ok;
    }
    var msg := hs.GetMessage();
    if msg.Some? && msg.value.kind != CertificateStatus {
      // The server may change its mind about sending a status.
      hs.state := VerifyServerCertificate;
      return Ok;
    }
    w := hs.ReadKind(CertificateStatus, env, VerifyServerCertificate);
  }

  method PerformVerifyServerCertificate(hs: Handshake, n: Negotiated, env: Env) returns (w: Wait)
    modifies hs
    ensures Outcome(hs.View(), w) == DoVerifyServerCertificate(n, old(hs.View()), env)
  {
    if n.certAuth {
      if env.fate.Retry? {
        return Suspended;
      }
      if env.fate.Fail? {
        return Error;
      }
    }
    hs.state := ReadServerKeyExchange;
    return Ok;
  }

  method PerformReadServerKeyExchange(hs: Handshake, n: Negotiated, env: Env) returns (w: Wait)
    modifies hs
    ensures Outcome(hs.View(), w) == DoReadServerKeyExchange(n, old(hs.View()), env)
  {
    var msg := hs.GetMessage();
    if msg.Some? && msg.value.kind != ServerKeyExchange {
      if n.ecdhe {
        return Error;
      }
      hs.state := ReadCertificateRequest;
      return Ok;
    }
    if msg.Some? && !n.ecdhe && n.certAuth {
      return Error;
    }
    w := hs.ReadKind(ServerKeyExchange, env, ReadCertificateRequest);
  }

  method PerformReadCertificateRequest(hs: Handshake, n: Negotiated, env: Env) returns (w: Wait)
    modifies hs
    ensures Outcome(hs.View(), w) == DoReadCertificateRequest(n, old(hs.View()), env)
  {
    if !n.certAuth {
      hs.state := ReadServerHelloDone;
      return Ok;
    }
    var msg := hs.GetMessage();
    if msg.Some? && msg.value.kind == ServerHelloDone {
      hs.state := ReadServerHelloDone;
      return Ok;
    }
    w := hs.ReadKind(CertificateRequest, env, ReadServerHelloDone);
    if w.Ok? {
      hs.learned := true;
    }
  }

  method PerformReadServerHelloDone(hs: Handshake, n: Negotiated, env: Env) returns (w: Wait)
    modifies hs
    ensures Outcome(hs.View(), w) == DoReadServerHelloDone(n, old(hs.View()), env)
  {
    w := hs.ReadKind(ServerHelloDone, env, SendClientCertificate);
  }

  method PerformSendClientCertificate(hs: Handshake, n: Negotiated, env: Env) returns (w: Wait)
    modifies hs
    ensures Outcome(hs.View(), w) == DoSendClientCertificate(n, old(hs.View()), env)
  {
    if hs.learned {
      if env.fate.Retry? {
        return Suspended;
      }
      if env.fate.Fail? {
        return Error;
      }
      hs.AddMessage(Certificate, Chain(n.clientCert));
    }
    hs.state := SendClientKeyExchange;
    return Ok;
  }

  method PerformSendClientKeyExchange(hs: Handshake, n: Negotiated, env: Env) returns (w: Wait)
    modifies hs
    ensures Outcome(hs.View(), w) == DoSendClientKeyExchange(n, old(hs.View()), env)
  {
    if env.fate.Fail? {
      return Error;
    }
    hs.AddMessage(ClientKeyExchange, Opaque(env.bytes));
    hs.state := SendClientCertificateVerify;
    return Ok;
  }

  method PerformSendClientCertificateVerify(hs: Handshake, n: Negotiated, env: Env) returns (w: Wait)
    modifies hs
    ensures Outcome(hs.View(), w) == DoSendClientCertificateVerify(n, old(hs.View()), env)
  {
    if hs.learned && n.clientCert {
      if env.fate.Retry? {
        return Suspended;
      }
      if env.fate.Fail? {
        return Error;
      }
      hs.AddMessage(CertificateVerify, Opaque(env.bytes));
    }
    hs.state := SendClientFinished;
    return Ok;
  }

  method PerformSendClientFinished(hs: Handshake, n: Negotiated, env: Env) returns (w: Wait)
    modifies hs
    ensures Outcome(hs.View(), w) == DoSendClientFinished(n, old(hs.View()), env)
  {
    if n.channelId && env.fate.Retry? {
      return Suspended;
    }
    if env.fate.Fail? {
      return Error;
    }
    hs.ChangeWriteKeys();
    if n.nextProto {
      hs.AddMessage(NextProto, Opaque(env.bytes));
    }
    if n.channelId {
      hs.AddMessage(ChannelId, Opaque(env.bytes));
    }
    hs.SendFinished(false);
    hs.state := FinishFlight;
    return Flush;
  }

  method PerformFinishFlight(hs: Handshake, n: Negotiated, env: Env) returns (w: Wait)
    modifies hs
    ensures Outcome(hs.View(), w) == DoFinishFlight(n, old(hs.View()), env)
  {
    if env.fate.Fail? {
      return Error;
    }
    hs.state := if n.resumed then FinishClient else ReadSessionTicket;
    return Ok;
  }

  method PerformReadSessionTicket(hs: Handshake, n: Negotiated, env: Env) returns (w: Wait)
    modifies hs
    ensures Outcome(hs.View(), w) == DoReadSessionTicket(n, old(hs.View()), env)
  {
    if !n.ticket {
      hs.state := ProcessServerCcs;
      return ReadCcs;
    }
    w := hs.ReadKind(NewSessionTicket, env, ProcessServerCcs);
    if w.Ok? {
      w := ReadCcs;
    }
  }

  method PerformProcessServerCcs(hs: Handshake, n: Negotiated, env: Env) returns (w: Wait)
    modifies hs
    ensures Outcome(hs.View(), w) == DoProcessServerCcs(n, old(hs.View()), env)
  {
    w := hs.ChangeKeysForReading(env, ReadServerFinished);
  }

  method PerformReadServerFinished(hs: Handshake, n: Negotiated, env: Env) returns (w: Wait)
    modifies hs
    ensures Outcome(hs.View(), w) == DoReadServerFinished(n, old(hs.View()), env)
  {
    w := hs.GetFinished(true, env, if n.resumed then SendClientFinished else FinishClient);
  }

  method PerformFinishClient(hs: Handshake, n: Negotiated, env: Env) returns (w: Wait)
    modifies hs
    ensures Outcome(hs.View(), w) == DoFinishClient(n, old(hs.View()), env)
  {
    if env.fate.Fail? {
      return Error;
    }
    hs.state := ClientDone;
    return Ok;
  }

  /** The dispatch of ssl_client_handshake. */
  method PerformClientStep(hs: Handshake, n: Negotiated, env: Env) returns (w: Wait)
    modifies hs
    ensures Outcome(hs.View(), w) == ClientStep(n, old(hs.View()), env)
  {
    hide Rank, Proceeds, DoStartConnect, DoEnterEarlyData, DoReadServerHello, DoReadServerCertificate,
         DoReadCertificateStatus, DoVerifyServerCertificate, DoReadServerKeyExchange, DoReadCertificateRequest,
         DoReadServerHelloDone, DoSendClientCertificate, DoSendClientKeyExchange, DoSendClientCertificateVerify,
         DoSendClientFinished, DoFinishFlight, DoReadSessionTicket, DoProcessServerCcs, DoReadServerFinished,
         DoFinishClient;
    match hs.state
    case StartConnect => w := PerformStartConnect(hs, n, env);
    case EnterEarlyData => w := PerformEnterEarlyData(hs, n, env);
    case ReadServerHello => w := PerformReadServerHello(hs, n, env);
    case ReadServerCertificate => w := PerformReadServerCertificate(hs, n, env);
    case ReadCertificateStatus => w := PerformReadCertificateStatus(hs, n, env);
    case VerifyServerCertificate => w := PerformVerifyServerCertificate(hs, n, env);
    case ReadServerKeyExchange => w := PerformReadServerKeyExchange(hs, n, env);
    case ReadCertificateRequest => w := PerformReadCertificateRequest(hs, n, env);
    case ReadServerHelloDone => w := PerformReadServerHelloDone(hs, n, env);
    case SendClientCertificate => w := PerformSendClientCertificate(hs, n, env);
    case SendClientKeyExchange => w := PerformSendClientKeyExchange(hs, n, env);
    case SendClientCertificateVerify => w := PerformSendClientCertificateVerify(hs, n, env);
    case SendClientFinished => w := PerformSendClientFinished(hs, n, env);
    case FinishFlight => w := PerformFinishFlight(hs, n, env);
    case ReadSessionTicket => w := PerformReadSessionTicket(hs, n, env);
    case ProcessServerCcs => w := PerformProcessServerCcs(hs, n, env);
    case ReadServerFinished => w := PerformReadServerFinished(hs, n, env);
    case FinishClient => w := PerformFinishClient(hs, n, env);
    case _ => w := Ok;
  }

  /** ssl_client_handshake: steps are run until one does not return Ok or the client is done; every one that
      returns Ok brings it nearer to the end. Ok means done, with one Finished each way under new keys; a
      wait leaves exactly the state whose step waits, and each message released or said was hashed once. */
  method RunClient(hs: Handshake, n: Negotiated, envs: seq<Env>) returns (w: Wait)
    requires ClientSafe(n, hs.View())
    modifies hs
    ensures Outcome(hs.View(), w) == ClientLoop(n, old(hs.View()), envs)
    ensures ClientSafe(n, hs.View())
    ensures w.Ok? ==> hs.state.ClientDone? && hs.finishedSent == [true] && hs.finishedRead == [true]
    ensures w.ReadMessage? || w.Suspended? ==> exists env: Env :: ClientStep(n, hs.View(), env) == Outcome(hs.View(), w)
    ensures !w.Error? ==> KeepsHashed(old(hs.View()), hs.View())
  {
    hide ClientStep, ClientSafe, KeepsHashed;
    ghost var start := hs.View();
    ghost var o := ClientLoop(n, start, envs);
    ClientLoopIsSafe(n, start, envs);
    ClientDoneFinished(n, start);
    OkAside(n, o);
    var rest := envs;
    while !hs.state.ClientDone?
      invariant ClientMachine(hs.state) && ClientLoop(n, hs.View(), rest) == o
      decreases Rank(n, hs.state)
    {
      w := PerformClientStep(hs, n, NextEnv(rest));
      if !w.Ok? {
        return;
      }
      rest := Later(rest);
    }
    return Ok;
  }
}
