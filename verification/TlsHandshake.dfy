/** The TLS 1.0-1.2 handshake as each side runs it: messages, the transcript, and one step of either
    state machine. What the hellos negotiate is taken as given. Each handler of the source is a function
    from the side's state to its next state and to what it waits for: a message, a ChangeCipherSpec, its
    flight to be flushed, its caller, or nothing. A step that has to wait leaves everything as it was, and
    can be run again. */
module TlsHandshake {
  import opened Common

  datatype Kind =
    | ClientHello | ServerHello | Certificate | CertificateStatus | ServerKeyExchange | CertificateRequest
    | ServerHelloDone | ClientKeyExchange | CertificateVerify | NextProto | ChannelId | NewSessionTicket | Finished

  /** A certificate message's chain may be empty; a Finished carries a MAC that stands for the sender
      and the transcript it covers; other contents do not matter here. */
  datatype Body = Opaque(bytes: nat) | Chain(nonEmpty: bool) | Mac(byServer: bool, over: seq<Message>)

  datatype Message = Message(kind: Kind, body: Body)

  /** What a connection carries: handshake messages, under the sender's new keys or not, and
      ChangeCipherSpec. */
  datatype Item = Carry(m: Message, newKeys: bool) | ChangeCipherSpec

  /** What the two hellos settle. */
  datatype Negotiated = Negotiated(
    resumed: bool, certAuth: bool, ecdhe: bool, pskHint: bool, status: bool, certRequest: bool,
    clientCert: bool, nextProto: bool, channelId: bool, ticket: bool)
  {
    /** Certificate requests and statuses go with certificate-authenticated ciphers only. */
    predicate Valid() {
      (certRequest ==> certAuth) && (status ==> certAuth)
    }

    predicate SendsKeyExchange() {
      ecdhe || (!certAuth && pskHint)
    }
  }

  /** ssl_hs_wait_t. A suspension returns to the caller, who runs the step again. */
  datatype Wait = Ok | Flush | ReadMessage | ReadCcs | Suspended | Error

  /** The states of the two machines, the client's and then the server's. */
  datatype State =
    | StartConnect | EnterEarlyData | ReadServerHello | ReadServerCertificate | ReadCertificateStatus
    | VerifyServerCertificate | ReadServerKeyExchange | ReadCertificateRequest | ReadServerHelloDone
    | SendClientCertificate | SendClientKeyExchange | SendClientCertificateVerify | SendClientFinished
    | FinishFlight | ReadSessionTicket | ProcessServerCcs | ReadServerFinished | FinishClient | ClientDone
    | StartAccept | ReadClientHello | SelectCertificate | SelectParameters | SendServerHello
    | SendServerCertificate | SendServerKeyExchange | SendServerHelloDone | ReadClientCertificate
    | VerifyClientCertificate | ReadClientKeyExchange | ReadClientCertificateVerify | ReadClientCcs
    | ProcessClientCcs | ReadNextProto | ReadChannelId | ReadClientFinished | SendServerFinished
    | FinishServer | ServerDone

  /** One side of a handshake: hs->state, the wait to be resolved, the transcript, the complete
      messages of the handshake buffer, the pending flight, the key states, what it has learned of the
      client's certificate (that one is wanted, or that one was sent), and for each Finished sent and
      accepted whether it was under new keys. */
  datatype Hs = Hs(state: State, wait: Wait, transcript: seq<Message>, queue: seq<Message>, flight: seq<Item>,
                      writeKeys: bool, readKeys: bool, learned: bool,
                      finishedSent: seq<bool>, finishedRead: seq<bool>)

  function Initial(state: State): Hs {
    Hs(state, Ok, [], [], [], false, false, false, [], [])
  }

  /** What the outside contributes to a step: whether its callbacks and checks go on, ask to be run
      again, or fail, and the contents of a message it sends. */
  datatype Fate = Proceed | Retry | Fail
  datatype Env = Env(fate: Fate, bytes: nat)

  datatype Outcome = Outcome(h: Hs, wait: Wait)

  /** The side once the step's wait is noted. */
  function After(o: Outcome): Hs {
    o.h.(wait := o.wait)
  }

  /** The state is one of the client's. */
  predicate ClientMachine(s: State) {
    match s
    case StartAccept => false
    case ReadClientHello => false
    case SelectCertificate => false
    case SelectParameters => false
    case SendServerHello => false
    case SendServerCertificate => false
    case SendServerKeyExchange => false
    case SendServerHelloDone => false
    case ReadClientCertificate => false
    case VerifyClientCertificate => false
    case ReadClientKeyExchange => false
    case ReadClientCertificateVerify => false
    case ReadClientCcs => false
    case ProcessClientCcs => false
    case ReadNextProto => false
    case ReadChannelId => false
    case ReadClientFinished => false
    case SendServerFinished => false
    case FinishServer => false
    case ServerDone => false
    case _ => true
  }

  /** How far a state is from the end. An abbreviated handshake visits some states in another order. */
  function Rank(n: Negotiated, s: State): nat {
    match s
    case StartConnect => 20
    case EnterEarlyData => 19
    case ReadServerHello => 18
    case ReadServerCertificate => 17
    case ReadCertificateStatus => 16
    case VerifyServerCertificate => 15
    case ReadServerKeyExchange => 14
    case ReadCertificateRequest => 13
    case ReadServerHelloDone => 12
    case SendClientCertificate => 11
    case SendClientKeyExchange => 10
    case SendClientCertificateVerify => 9
    case SendClientFinished => 8
    case FinishFlight => 7
    case ReadSessionTicket => if n.resumed then 17 else 6
    case ProcessServerCcs => if n.resumed then 16 else 5
    case ReadServerFinished => if n.resumed then 15 else 4
    case FinishClient => 3
    case ClientDone => 0
    case StartAccept => 20
    case ReadClientHello => 19
    case SelectCertificate => 18
    case SelectParameters => 17
    case SendServerHello => 16
    case SendServerCertificate => 15
    case SendServerKeyExchange => 14
    case SendServerHelloDone => 13
    case ReadClientCertificate => 12
    case VerifyClientCertificate => 11
    case ReadClientKeyExchange => 10
    case ReadClientCertificateVerify => 9
    case ReadClientCcs => 8
    case ProcessClientCcs => 7
    case ReadNextProto => 6
    case ReadChannelId => 5
    case ReadClientFinished => 4
    case SendServerFinished => if n.resumed then 12 else 3
    case FinishServer => 2
    case ServerDone => 0
  }

  /** A step that has no message yet, or that asks to be run again, leaves the state, the transcript,
      the buffered messages and everything else as they were; any other step fails or brings its side
      nearer to the end. */
  predicate Proceeds(n: Negotiated, h: Hs, env: Env, o: Outcome) {
    || (o.wait.ReadMessage? && o.h == h)
    || (o.wait.Suspended? && o.h == h && env.fate.Retry?)
    || o.wait.Error?
    || (!o.wait.ReadMessage? && !o.wait.Suspended?
        && Rank(n, o.h.state) < Rank(n, h.state) && ClientMachine(o.h.state) == ClientMachine(h.state))
  }

  // The pieces steps are made of.

  function Go(h: Hs, next: State): Outcome {
    Outcome(h.(state := next), Ok)
  }

  /** ssl_add_message_cbb: the message joins the flight, under the current write keys, and the
      transcript. */
  function Say(h: Hs, kind: Kind, body: Body): Hs {
    var m := Message(kind, body);
    h.(transcript := h.transcript + [m], flight := h.flight + [Carry(m, h.writeKeys)])
  }

  /** add_change_cipher_spec and tls1_change_cipher_state for writing. */
  function SayCcs(h: Hs): Hs {
    h.(flight := h.flight + [ChangeCipherSpec], writeKeys := true)
  }

  /** ssl_send_finished: the MAC covers the transcript so far. */
  function SayFinished(h: Hs, byServer: bool): Hs {
    Say(h, Finished, Mac(byServer, h.transcript)).(finishedSent := h.finishedSent + [h.writeKeys])
  }

  /** ssl_hash_message and next_message for the message at hand. */
  function Take(h: Hs): Hs
    requires h.queue != []
  {
    h.(transcript := h.transcript + [h.queue[0]], queue := h.queue[1..])
  }

  /** get_message, ssl_check_message_type, and then the message is hashed and released. A message that
      is not there yet leaves everything as it was. */
  function Receive(h: Hs, kind: Kind, env: Env, next: State): (o: Outcome)
    ensures (o.wait.Ok? && o.h.state == next) || ((o.wait.ReadMessage? || o.wait.Error?) && o.h == h)
  {
    if h.queue == [] then Outcome(h, ReadMessage)
    else if h.queue[0].kind != kind || env.fate.Fail? then Outcome(h, Error)
    else Go(Take(h), next)
  }

  /** ssl_get_finished: the MAC is compared with one over the transcript before the message. */
  function ReceiveFinished(h: Hs, byServer: bool, env: Env, next: State): (o: Outcome)
    ensures (o.wait.Ok? && o.h.state == next) || (o.wait.ReadMessage? && o.h == h)
            || (o.wait.Error? && o.h.state == h.state)
    ensures o.h.finishedRead != h.finishedRead ==>
              o.wait.Ok? && h.queue != [] && h.queue[0] == Message(Finished, Mac(byServer, h.transcript))
  {
    if h.queue == [] then Outcome(h, ReadMessage)
    else if h.queue[0].kind != Finished || env.fate.Fail? then Outcome(h, Error)
    else if h.queue[0].body != Mac(byServer, h.transcript) then Outcome(Take(h).(queue := h.queue), Error)
    else Go(Take(h).(finishedRead := h.finishedRead + [h.readKeys]), next)
  }

  /** tls1_change_cipher_state for reading: forbidden while messages are buffered. */
  function ChangeReadKeys(h: Hs, env: Env, next: State): Outcome {
    if h.queue != [] || env.fate.Fail? then Outcome(h, Error) else Go(h.(readKeys := true), next)
  }

  function Unless(env: Env, h: Hs, o: Outcome): Outcome {
    if env.fate.Fail? then Outcome(h, Error) else o
  }

  /** A step that asks a callback, and is run again when the callback has no answer yet. */
  function Asking(env: Env, h: Hs, o: Outcome): Outcome {
    if env.fate.Retry? then Outcome(h, Suspended) else Unless(env, h, o)
  }

  // The client.

  /** do_send_client_finished after the Channel ID has been resolved. */
  function SayClientFinished(n: Negotiated, h: Hs, bytes: nat): Hs {
    var a := SayCcs(h);
    var b := if n.nextProto then Say(a, NextProto, Opaque(bytes)) else a;
    var c := if n.channelId then Say(b, ChannelId, Opaque(bytes)) else b;
    SayFinished(c, false)
  }

  function DoStartConnect(n: Negotiated, h: Hs, env: Env): (o: Outcome)
    ensures h.state.StartConnect? ==> Proceeds(n, h, env, o)
  {
    Unless(env, h, Outcome(Say(h, ClientHello, Opaque(env.bytes)).(state := EnterEarlyData), Flush))
  }

  function DoEnterEarlyData(n: Negotiated, h: Hs, env: Env): (o: Outcome)
    ensures h.state.EnterEarlyData? ==> Proceeds(n, h, env, o)
  {
    Go(h, ReadServerHello)
  }

  function DoReadServerHello(n: Negotiated, h: Hs, env: Env): (o: Outcome)
    ensures h.state.ReadServerHello? ==> Proceeds(n, h, env, o)
  {
    Receive(h, ServerHello, env, if n.resumed then ReadSessionTicket else ReadServerCertificate)
  }

  function DoReadServerCertificate(n: Negotiated, h: Hs, env: Env): (o: Outcome)
    ensures h.state.ReadServerCertificate? ==> Proceeds(n, h, env, o)
  {
    if !n.certAuth then Go(h, ReadCertificateStatus)
    else if h.queue != [] && h.queue[0].body != Chain(true) then Outcome(h, Error)
    else Receive(h, Certificate, env, ReadCertificateStatus)
  }

  function DoReadCertificateStatus(n: Negotiated, h: Hs, env: Env): (o: Outcome)
    ensures h.state.ReadCertificateStatus? ==> Proceeds(n, h, env, o)
  {
    if !n.status then Go(h, VerifyServerCertificate)
    else if h.queue != [] && h.queue[0].kind != CertificateStatus then Go(h, VerifyServerCertificate)
    else Receive(h, CertificateStatus, env, VerifyServerCertificate)
  }

  function DoVerifyServerCertificate(n: Negotiated, h: Hs, env: Env): (o: Outcome)
    ensures h.state.VerifyServerCertificate? ==> Proceeds(n, h, env, o)
  {
    if !n.certAuth then Go(h, ReadServerKeyExchange) else Asking(env, h, Go(h, ReadServerKeyExchange))
  }

  function DoReadServerKeyExchange(n: Negotiated, h: Hs, env: Env): (o: Outcome)
    ensures h.state.ReadServerKeyExchange? ==> Proceeds(n, h, env, o)
  {
    if h.queue != [] && h.queue[0].kind != ServerKeyExchange then
      if n.ecdhe then Outcome(h, Error) else Go(h, ReadCertificateRequest)
    else if h.queue != [] && !n.ecdhe && n.certAuth then Outcome(h, Error)
    else Receive(h, ServerKeyExchange, env, ReadCertificateRequest)
  }

  function DoReadCertificateRequest(n: Negotiated, h: Hs, env: Env): (o: Outcome)
    ensures h.state.ReadCertificateRequest? ==> Proceeds(n, h, env, o)
  {
    if !n.certAuth then Go(h, ReadServerHelloDone)
    else if h.queue != [] && h.queue[0].kind == ServerHelloDone then Go(h, ReadServerHelloDone)
    else
      var o := Receive(h, CertificateRequest, env, ReadServerHelloDone);
      if o.wait.Ok? then o.(h := o.h.(learned := true)) else o
  }

  function DoReadServerHelloDone(n: Negotiated, h: Hs, env: Env): (o: Outcome)
    ensures h.state.ReadServerHelloDone? ==> Proceeds(n, h, env, o)
  {
    Receive(h, ServerHelloDone, env, SendClientCertificate)
  }

  function DoSendClientCertificate(n: Negotiated, h: Hs, env: Env): (o: Outcome)
    ensures h.state.SendClientCertificate? ==> Proceeds(n, h, env, o)
  {
    if !h.learned then Go(h, SendClientKeyExchange)
    else Asking(env, h, Go(Say(h, Certificate, Chain(n.clientCert)), SendClientKeyExchange))
  }

  function DoSendClientKeyExchange(n: Negotiated, h: Hs, env: Env): (o: Outcome)
    ensures h.state.SendClientKeyExchange? ==> Proceeds(n, h, env, o)
  {
    Unless(env, h, Go(Say(h, ClientKeyExchange, Opaque(env.bytes)), SendClientCertificateVerify))
  }

  function DoSendClientCertificateVerify(n: Negotiated, h: Hs, env: Env): (o: Outcome)
    ensures h.state.SendClientCertificateVerify? ==> Proceeds(n, h, env, o)
  {
    if !h.learned || !n.clientCert then Go(h, SendClientFinished)
    else Asking(env, h, Go(Say(h, CertificateVerify, Opaque(env.bytes)), SendClientFinished))
  }

  function DoSendClientFinished(n: Negotiated, h: Hs, env: Env): (o: Outcome)
    ensures h.state.SendClientFinished? ==> Proceeds(n, h, env, o)
  {
    if n.channelId && env.fate.Retry? then Outcome(h, Suspended)
    else Unless(env, h, Outcome(SayClientFinished(n, h, env.bytes).(state := FinishFlight), Flush))
  }

  function DoFinishFlight(n: Negotiated, h: Hs, env: Env): (o: Outcome)
    ensures h.state.FinishFlight? ==> Proceeds(n, h, env, o)
  {
    Unless(env, h, Go(h, if n.resumed then FinishClient else ReadSessionTicket))
  }

  function DoReadSessionTicket(n: Negotiated, h: Hs, env: Env): (o: Outcome)
    ensures h.state.ReadSessionTicket? ==> Proceeds(n, h, env, o)
  {
    if !n.ticket then Outcome(h.(state := ProcessServerCcs), ReadCcs)
    else
      var o := Receive(h, NewSessionTicket, env, ProcessServerCcs);
      if o.wait.Ok? then o.(wait := ReadCcs) else o
  }

  function DoProcessServerCcs(n: Negotiated, h: Hs, env: Env): (o: Outcome)
    ensures h.state.ProcessServerCcs? ==> Proceeds(n, h, env, o)
  {
    ChangeReadKeys(h, env, ReadServerFinished)
  }

  function DoReadServerFinished(n: Negotiated, h: Hs, env: Env): (o: Outcome)
    ensures h.state.ReadServerFinished? ==> Proceeds(n, h, env, o)
  {
    ReceiveFinished(h, true, env, if n.resumed then SendClientFinished else FinishClient)
  }

  function DoFinishClient(n: Negotiated, h: Hs, env: Env): (o: Outcome)
    ensures h.state.FinishClient? ==> Proceeds(n, h, env, o)
  {
    Unless(env, h, Go(h, ClientDone))
  }

  /** One turn of ssl_client_handshake's loop. */
  function ClientStep(n: Negotiated, h: Hs, env: Env): (o: Outcome)
    ensures ClientMachine(h.state) && !h.state.ClientDone? ==> Proceeds(n, h, env, o)
  {
    match h.state
    case StartConnect => DoStartConnect(n, h, env)
    case EnterEarlyData => DoEnterEarlyData(n, h, env)
    case ReadServerHello => DoReadServerHello(n, h, env)
    case ReadServerCertificate => DoReadServerCertificate(n, h, env)
    case ReadCertificateStatus => DoReadCertificateStatus(n, h, env)
    case VerifyServerCertificate => DoVerifyServerCertificate(n, h, env)
    case ReadServerKeyExchange => DoReadServerKeyExchange(n, h, env)
    case ReadCertificateRequest => DoReadCertificateRequest(n, h, env)
    case ReadServerHelloDone => DoReadServerHelloDone(n, h, env)
    case SendClientCertificate => DoSendClientCertificate(n, h, env)
    case SendClientKeyExchange => DoSendClientKeyExchange(n, h, env)
    case SendClientCertificateVerify => DoSendClientCertificateVerify(n, h, env)
    case SendClientFinished => DoSendClientFinished(n, h, env)
    case FinishFlight => DoFinishFlight(n, h, env)
    case ReadSessionTicket => DoReadSessionTicket(n, h, env)
    case ProcessServerCcs => DoProcessServerCcs(n, h, env)
    case ReadServerFinished => DoReadServerFinished(n, h, env)
    case FinishClient => DoFinishClient(n, h, env)
    case _ => Outcome(h, Ok)
  }

  // The server.

  /** A step that looks at the message at hand and leaves it for the next step. */
  function Peek(h: Hs, env: Env, next: State): Outcome {
    if h.queue == [] then Outcome(h, ReadMessage) else Asking(env, h, Go(h, next))
  }

  /** do_send_server_certificate. */
  function SayCertificate(n: Negotiated, h: Hs, bytes: nat): Hs {
    if !n.certAuth then h
    else
      var a := Say(h, Certificate, Chain(true));
      if n.status then Say(a, CertificateStatus, Opaque(bytes)) else a
  }

  /** do_send_server_hello_done. */
  function SayHelloDone(n: Negotiated, h: Hs, bytes: nat): Hs {
    var a := if n.certRequest then Say(h, CertificateRequest, Opaque(bytes)) else h;
    Say(a, ServerHelloDone, Opaque(bytes))
  }

  /** do_send_server_finished. */
  function SayServerFinished(n: Negotiated, h: Hs, bytes: nat): Hs {
    var a := if n.ticket then Say(h, NewSessionTicket, Opaque(bytes)) else h;
    SayFinished(SayCcs(a), true)
  }

  function DoStartAccept(n: Negotiated, h: Hs, env: Env): (o: Outcome)
    ensures h.state.StartAccept? ==> Proceeds(n, h, env, o)
  {
    Go(h, ReadClientHello)
  }

  function DoReadClientHello(n: Negotiated, h: Hs, env: Env): (o: Outcome)
    ensures h.state.ReadClientHello? ==> Proceeds(n, h, env, o)
  {
    if h.queue != [] && h.queue[0].kind != ClientHello then Outcome(h, Error)
    else Peek(h, env, SelectCertificate)
  }

  function DoSelectCertificate(n: Negotiated, h: Hs, env: Env): (o: Outcome)
    ensures h.state.SelectCertificate? ==> Proceeds(n, h, env, o)
  {
    Peek(h, env, SelectParameters)
  }

  function DoSelectParameters(n: Negotiated, h: Hs, env: Env): (o: Outcome)
    ensures h.state.SelectParameters? ==> Proceeds(n, h, env, o)
  {
    if h.queue == [] then Outcome(h, ReadMessage)
    else Asking(env, h, Go(Take(h), SendServerHello))
  }

  function DoSendServerHello(n: Negotiated, h: Hs, env: Env): (o: Outcome)
    ensures h.state.SendServerHello? ==> Proceeds(n, h, env, o)
  {
    Unless(env, h, Go(Say(h, ServerHello, Opaque(env.bytes)),
                      if n.resumed then SendServerFinished else SendServerCertificate))
  }

  function DoSendServerCertificate(n: Negotiated, h: Hs, env: Env): (o: Outcome)
    ensures h.state.SendServerCertificate? ==> Proceeds(n, h, env, o)
  {
    Unless(env, h, Go(SayCertificate(n, h, env.bytes), SendServerKeyExchange))
  }

  function DoSendServerKeyExchange(n: Negotiated, h: Hs, env: Env): (o: Outcome)
    ensures h.state.SendServerKeyExchange? ==> Proceeds(n, h, env, o)
  {
    if !n.SendsKeyExchange() then Go(h, SendServerHelloDone)
    else if n.certAuth && env.fate.Retry? then Outcome(h, Suspended)
    else Unless(env, h, Go(Say(h, ServerKeyExchange, Opaque(env.bytes)), SendServerHelloDone))
  }

  function DoSendServerHelloDone(n: Negotiated, h: Hs, env: Env): (o: Outcome)
    ensures h.state.SendServerHelloDone? ==> Proceeds(n, h, env, o)
  {
    Unless(env, h, Outcome(SayHelloDone(n, h, env.bytes).(state := ReadClientCertificate), Flush))
  }

  function DoReadClientCertificate(n: Negotiated, h: Hs, env: Env): (o: Outcome)
    ensures h.state.ReadClientCertificate? ==> Proceeds(n, h, env, o)
  {
    if !n.certRequest then Go(h, VerifyClientCertificate)
    else if h.queue != [] && !h.queue[0].body.Chain? then Outcome(h, Error)
    else
      var o := Receive(h, Certificate, env, VerifyClientCertificate);
      if o.wait.Ok? then o.(h := o.h.(learned := h.queue[0].body.nonEmpty)) else o
  }

  function DoVerifyClientCertificate(n: Negotiated, h: Hs, env: Env): (o: Outcome)
    ensures h.state.VerifyClientCertificate? ==> Proceeds(n, h, env, o)
  {
    if !h.learned then Go(h, ReadClientKeyExchange) else Asking(env, h, Go(h, ReadClientKeyExchange))
  }

  function DoReadClientKeyExchange(n: Negotiated, h: Hs, env: Env): (o: Outcome)
    ensures h.state.ReadClientKeyExchange? ==> Proceeds(n, h, env, o)
  {
    if h.queue != [] && h.queue[0].kind == ClientKeyExchange && n.certAuth && !n.ecdhe && env.fate.Retry? then
      Outcome(h, Suspended)
    else Receive(h, ClientKeyExchange, env, ReadClientCertificateVerify)
  }

  function DoReadClientCertificateVerify(n: Negotiated, h: Hs, env: Env): (o: Outcome)
    ensures h.state.ReadClientCertificateVerify? ==> Proceeds(n, h, env, o)
  {
    if !h.learned then Go(h, ReadClientCcs) else Receive(h, CertificateVerify, env, ReadClientCcs)
  }

  function DoReadClientCcs(n: Negotiated, h: Hs, env: Env): (o: Outcome)
    ensures h.state.ReadClientCcs? ==> Proceeds(n, h, env, o)
  {
    Outcome(h.(state := ProcessClientCcs), ReadCcs)
  }

  function DoProcessClientCcs(n: Negotiated, h: Hs, env: Env): (o: Outcome)
    ensures h.state.ProcessClientCcs? ==> Proceeds(n, h, env, o)
  {
    ChangeReadKeys(h, env, ReadNextProto)
  }

  function DoReadNextProto(n: Negotiated, h: Hs, env: Env): (o: Outcome)
    ensures h.state.ReadNextProto? ==> Proceeds(n, h, env, o)
  {
    if !n.nextProto then Go(h, ReadChannelId) else Receive(h, NextProto, env, ReadChannelId)
  }

  function DoReadChannelId(n: Negotiated, h: Hs, env: Env): (o: Outcome)
    ensures h.state.ReadChannelId? ==> Proceeds(n, h, env, o)
  {
    if !n.channelId then Go(h, ReadClientFinished) else Receive(h, ChannelId, env, ReadClientFinished)
  }

  function DoReadClientFinished(n: Negotiated, h: Hs, env: Env): (o: Outcome)
    ensures h.state.ReadClientFinished? ==> Proceeds(n, h, env, o)
  {
    ReceiveFinished(h, false, env, if n.resumed then FinishServer else SendServerFinished)
  }

  function DoSendServerFinished(n: Negotiated, h: Hs, env: Env): (o: Outcome)
    ensures h.state.SendServerFinished? ==> Proceeds(n, h, env, o)
  {
    Unless(env, h, Outcome(SayServerFinished(n, h, env.bytes)
                             .(state := if n.resumed then ReadClientCcs else FinishServer), Flush))
  }

  function DoFinishServer(n: Negotiated, h: Hs, env: Env): (o: Outcome)
    ensures h.state.FinishServer? ==> Proceeds(n, h, env, o)
  {
    Unless(env, h, Go(h, ServerDone))
  }

  /** One turn of ssl_server_handshake's loop. */
  function ServerStep(n: Negotiated, h: Hs, env: Env): (o: Outcome)
    ensures !ClientMachine(h.state) && !h.state.ServerDone? ==> Proceeds(n, h, env, o)
  {
    match h.state
    case StartAccept => DoStartAccept(n, h, env)
    case ReadClientHello => DoReadClientHello(n, h, env)
    case SelectCertificate => DoSelectCertificate(n, h, env)
    case SelectParameters => DoSelectParameters(n, h, env)
    case SendServerHello => DoSendServerHello(n, h, env)
    case SendServerCertificate => DoSendServerCertificate(n, h, env)
    case SendServerKeyExchange => DoSendServerKeyExchange(n, h, env)
    case SendServerHelloDone => DoSendServerHelloDone(n, h, env)
    case ReadClientCertificate => DoReadClientCertificate(n, h, env)
    case VerifyClientCertificate => DoVerifyClientCertificate(n, h, env)
    case ReadClientKeyExchange => DoReadClientKeyExchange(n, h, env)
    case ReadClientCertificateVerify => DoReadClientCertificateVerify(n, h, env)
    case ReadClientCcs => DoReadClientCcs(n, h, env)
    case ProcessClientCcs => DoProcessClientCcs(n, h, env)
    case ReadNextProto => DoReadNextProto(n, h, env)
    case ReadChannelId => DoReadChannelId(n, h, env)
    case ReadClientFinished => DoReadClientFinished(n, h, env)
    case SendServerFinished => DoSendServerFinished(n, h, env)
    case FinishServer => DoFinishServer(n, h, env)
    case _ => Outcome(h, Ok)
  }

  // Running a side: ssl_run_handshake.

  /** One side with its incoming channel; `sent` is what this turn puts on the outgoing one. */
  datatype Turn = Turn(h: Hs, incoming: seq<Item>, sent: seq<Item>)

  /** Resolving what a side waits for, as ssl_run_handshake does before it runs the machine again: a
      flight is flushed, and one record is read. `None` when it has to wait for the transport or has
      failed. A record that is not under the current read keys cannot be opened. */
  function Resolve(h: Hs, incoming: seq<Item>): (r: Option<Turn>) {
    match h.wait
    case Flush => Some(Turn(h.(flight := [], wait := Ok), incoming, h.flight))
    case Suspended => Some(Turn(h.(wait := Ok), incoming, []))
    case ReadMessage =>
      if incoming == [] then None
      else if incoming[0].Carry? && incoming[0].newKeys == h.readKeys && h.queue == [] then
        Some(Turn(h.(queue := [incoming[0].m], wait := Ok), incoming[1..], []))
      else Some(Turn(h.(wait := Error), incoming[1..], []))
    case ReadCcs =>
      if incoming == [] then None
      else Some(Turn(h.(wait := if incoming[0].ChangeCipherSpec? then Ok else Error), incoming[1..], []))
    case _ => None
  }

  /** The next thing the client does. */
  function ClientTurn(n: Negotiated, h: Hs, incoming: seq<Item>, env: Env): (r: Option<Turn>) {
    if !h.wait.Ok? then Resolve(h, incoming)
    else if h.state.ClientDone? then None
    else
      var o := ClientStep(n, h, env);
      Some(Turn(After(o), incoming, []))
  }

  function ServerTurn(n: Negotiated, h: Hs, incoming: seq<Item>, env: Env): (r: Option<Turn>) {
    if !h.wait.Ok? then Resolve(h, incoming)
    else if h.state.ServerDone? then None
    else
      var o := ServerStep(n, h, env);
      Some(Turn(After(o), incoming, []))
  }
}
