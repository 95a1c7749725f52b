/** Whole runs against any peer: a side has passed the states of its handshake in order, each as it should, and
    has read every record under the keys it was sent under, with the ChangeCipherSpec in its place. */
module TlsPassed {
  import opened Common
  import opened TlsHandshake
  import opened TlsPassage
  import opened TlsServerPassage
  import opened TlsRuns

  // Steps, whatever the state.

  lemma ClientStepPassed(n: Negotiated, h: Hs, env: Env)
    requires ClientMachine(h.state) && !h.state.ClientDone?
    ensures ClientStepPasses(n, h, env, ClientStep(n, h, env))
  {
    hide ClientStepPasses, Rank, Proceeds;
    match h.state
    case StartConnect => ClientGreets(n, h, env);
    case EnterEarlyData => ClientGreets(n, h, env);
    case ReadServerHello => ClientHears(n, h, env);
    case ReadServerCertificate => ClientTakesCertificate(n, h, env);
    case ReadCertificateStatus => ClientTakesStatus(n, h, env);
    case VerifyServerCertificate => ClientVerifies(n, h, env);
    case ReadServerKeyExchange => ClientTakesKeyExchange(n, h, env);
    case ReadCertificateRequest => ClientTakesRequest(n, h, env);
    case ReadServerHelloDone => ClientTakesHelloDone(n, h, env);
    case SendClientCertificate => ClientShowsCertificate(n, h, env);
    case SendClientKeyExchange => ClientSaysKeyExchange(n, h, env);
    case SendClientCertificateVerify => ClientSigns(n, h, env);
    case SendClientFinished => ClientSaysFinished(n, h, env);
    case FinishFlight => ClientEndsFlight(n, h, env);
    case ReadSessionTicket => ClientTakesTicket(n, h, env);
    case ProcessServerCcs => ClientTurnsKeys(n, h, env);
    case ReadServerFinished => ClientTakesFinished(n, h, env);
    case FinishClient => ClientEnds(n, h, env);
    case _ =>
  }

  lemma ServerStepPassed(n: Negotiated, h: Hs, env: Env)
    requires !ClientMachine(h.state) && !h.state.ServerDone? && AtHello(h)
    ensures ServerStepPasses(n, h, env, ServerStep(n, h, env))
  {
    hide ServerStepPasses, Rank, Proceeds;
    match h.state
    case StartAccept => ServerOpens(n, h, env);
    case ReadClientHello => ServerHears(n, h, env);
    case SelectCertificate => ServerSelects(n, h, env);
    case SelectParameters => ServerTakesHello(n, h, env);
    case SendServerHello => ServerGreets(n, h, env);
    case SendServerCertificate => ServerShowsCertificate(n, h, env);
    case SendServerKeyExchange => ServerSaysKeyExchange(n, h, env);
    case SendServerHelloDone => ServerSaysHelloDone(n, h, env);
    case ReadClientCertificate => ServerTakesCertificate(n, h, env);
    case VerifyClientCertificate => ServerVerifies(n, h, env);
    case ReadClientKeyExchange => ServerTakesKeyExchange(n, h, env);
    case ReadClientCertificateVerify => ServerTakesVerify(n, h, env);
    case ReadClientCcs => ServerAwaitsKeys(n, h, env);
    case ProcessClientCcs => ServerTurnsKeys(n, h, env);
    case ReadNextProto => ServerTakesNextProto(n, h, env);
    case ReadChannelId => ServerTakesChannelId(n, h, env);
    case ReadClientFinished => ServerTakesFinished(n, h, env);
    case SendServerFinished => ServerSaysFinished(n, h, env);
    case FinishServer => ServerEnds(n, h, env);
    case _ =>
  }

  /** A check that fails stops a side where it is, and one that has no answer yet leaves everything: the server's
      certificate, and the client's if it has shown one. */
  lemma FailedCheckStops(n: Negotiated, h: Hs, env: Env)
    requires (h.state.VerifyServerCertificate? && n.certAuth) || (h.state.VerifyClientCertificate? && h.learned)
    ensures var o := if h.state.VerifyServerCertificate? then ClientStep(n, h, env) else ServerStep(n, h, env);
            && (env.fate.Fail? ==> o == Outcome(h, Error))
            && (env.fate.Retry? ==> o == Outcome(h, Suspended))
            && (env.fate.Proceed? ==> o.wait.Ok?)
  {
    hide Rank, Proceeds;
  }

  // Runs.

  /** A record that was read: what it carried, and after how many steps that went on. */
  datatype Opening = Opening(item: Item, at: nat)

  /** A side with its history. */
  datatype Log = Log(h: Hs, passed: seq<Passage>, openings: seq<Opening>)

  /** The history after a turn: a step that went on, or a record that was read. */
  function Logged(s: Log, incoming: seq<Item>, t: Turn, env: Env): Log {
    if s.h.wait.Ok? then
      Log(t.h, if WentOn(Outcome(t.h, t.h.wait)) then s.passed + [PassageOf(s.h, env, Outcome(t.h, t.h.wait))]
               else s.passed, s.openings)
    else
      Log(t.h, s.passed,
          if |t.incoming| < |incoming| && !t.h.wait.Error? then s.openings + [Opening(incoming[0], |s.passed|)]
          else s.openings)
  }

  function ClientHistory(n: Negotiated, s: Log, incoming: seq<Item>, acts: seq<Act>): Log
    decreases |acts|
  {
    if acts == [] then s
    else
      match acts[0]
      case Arrives(item) => ClientHistory(n, s, incoming + [item], acts[1..])
      case Turns(env) =>
        var t := ClientTurn(n, s.h, incoming, env);
        if t.None? then ClientHistory(n, s, incoming, acts[1..])
        else ClientHistory(n, Logged(s, incoming, t.value, env), t.value.incoming, acts[1..])
  }

  function ServerHistory(n: Negotiated, s: Log, incoming: seq<Item>, acts: seq<Act>): Log
    decreases |acts|
  {
    if acts == [] then s
    else
      match acts[0]
      case Arrives(item) => ServerHistory(n, s, incoming + [item], acts[1..])
      case Turns(env) =>
        var t := ServerTurn(n, s.h, incoming, env);
        if t.None? then ServerHistory(n, s, incoming, acts[1..])
        else ServerHistory(n, Logged(s, incoming, t.value, env), t.value.incoming, acts[1..])
  }

  /** It is the same side as in the run without a history. */
  lemma {:induction false} SameRun(n: Negotiated, s: Log, r: Trace, incoming: seq<Item>, acts: seq<Act>)
    requires s.h == r.h
    ensures ClientHistory(n, s, incoming, acts).h == ClientRun(n, r, incoming, acts).h
    ensures ServerHistory(n, s, incoming, acts).h == ServerRun(n, r, incoming, acts).h
    decreases |acts|
  {
    hide ClientTurn, ServerTurn, PassageOf;
    if acts != [] {
      if acts[0].Arrives? {
        SameRun(n, s, r, incoming + [acts[0].item], acts[1..]);
      } else {
        var env := acts[0].env;
        var c, t := ClientTurn(n, s.h, incoming, env), ServerTurn(n, s.h, incoming, env);
        SameRun(n, s, r, incoming, acts[1..]);
        if c.Some? {
          SameRun(n, Logged(s, incoming, c.value, env), TlsRuns.Noted(r, c.value), c.value.incoming, acts[1..]);
        }
        if t.Some? {
          SameRun(n, Logged(s, incoming, t.value, env), TlsRuns.Noted(r, t.value), t.value.incoming, acts[1..]);
        }
      }
    }
  }

  function Front<T>(s: seq<T>): seq<T>
    requires s != []
  {
    s[..|s| - 1]
  }

  /** A certificate of the client's has been asked for. */
  predicate Asked(passed: seq<Passage>) {
    passed != [] &&
    var p := passed[|passed| - 1]; Asked(Front(passed)) || (p.state.ReadCertificateRequest? && p.took != [])
  }

  /** A certificate that is not empty has been shown by the client. */
  predicate Shown(passed: seq<Passage>) {
    passed != [] &&
    var p := passed[|passed| - 1];
    if p.state.ReadClientCertificate? && p.took != [] then p.took[0].body == Chain(true) else Shown(Front(passed))
  }

  /** The read keys have been changed. */
  predicate TurnedKeys(passed: seq<Passage>) {
    passed != [] &&
    var p := passed[|passed| - 1]; TurnedKeys(Front(passed)) || p.state.ProcessServerCcs? || p.state.ProcessClientCcs?
  }

  lemma OneMorePassage(passed: seq<Passage>, p: Passage)
    ensures Front(passed + [p]) == passed && (passed + [p])[|passed + [p]| - 1] == p
    ensures forall i: nat | i <= |passed| :: (passed + [p])[..i] == passed[..i]
  {
  }

  predicate HasCcs(openings: seq<Opening>) {
    openings != [] && (openings[|openings| - 1].item.ChangeCipherSpec? || HasCcs(Front(openings)))
  }

  /** Every message was read under the keys in force when it was read, and a ChangeCipherSpec only where one was
      awaited. */
  predicate OpenedRightly(passed: seq<Passage>, openings: seq<Opening>, awaited: nat -> bool) {
    forall i: nat | i < |openings| ::
      && openings[i].at <= |passed|
      && match openings[i].item
         case Carry(_, newKeys) => newKeys == TurnedKeys(passed[..openings[i].at])
         case ChangeCipherSpec => awaited(openings[i].at)
  }

  lemma OpenedLater(passed: seq<Passage>, p: Passage, openings: seq<Opening>, awaited: nat -> bool)
    requires OpenedRightly(passed, openings, awaited)
    ensures OpenedRightly(passed + [p], openings, awaited)
  {
    hide TurnedKeys;
    OneMorePassage(passed, p);
  }

  lemma OpenedOneMore(passed: seq<Passage>, openings: seq<Opening>, awaited: nat -> bool, x: Item)
    requires OpenedRightly(passed, openings, awaited)
    requires match x
             case Carry(_, newKeys) => newKeys == TurnedKeys(passed)
             case ChangeCipherSpec => awaited(|passed|)
    ensures OpenedRightly(passed, openings + [Opening(x, |passed|)], awaited)
    ensures HasCcs(openings + [Opening(x, |passed|)]) <==> HasCcs(openings) || x.ChangeCipherSpec?
  {
    hide TurnedKeys;
    var more := openings + [Opening(x, |passed|)];
    assert Front(more) == openings;
    assert passed[..|passed|] == passed;
  }

  // The client's history.

  function ClientTurning(n: Negotiated): nat -> bool {
    (i: nat) => ClientAt(n, i).ProcessServerCcs?
  }

  /** The states passed are those of the handshake, from the first on, and each was passed as it should be. */
  predicate ClientPath(n: Negotiated, passed: seq<Passage>) {
    forall i: nat | i < |passed| ::
      passed[i].state == ClientAt(n, i) && ClientPasses(n, Asked(passed[..i]), passed[i])
  }

  predicate ClientHas(n: Negotiated, s: Log) {
    && ClientPath(n, s.passed) && s.h.state == ClientAt(n, |s.passed|) && ClientMachine(s.h.state)
    && s.h.learned == Asked(s.passed) && s.h.readKeys == TurnedKeys(s.passed)
    && OpenedRightly(s.passed, s.openings, ClientTurning(n))
    && (s.h.wait.ReadCcs? ==> s.h.state.ProcessServerCcs?)
    && (s.h.state.ProcessServerCcs? ==> s.h.wait.ReadCcs? || s.h.wait.Ok? || s.h.wait.Error?)
    && (TurnedKeys(s.passed) || (s.h.state.ProcessServerCcs? && s.h.wait.Ok?) ==> HasCcs(s.openings))
  }

  lemma ClientPathOn(n: Negotiated, passed: seq<Passage>, p: Passage)
    requires ClientPath(n, passed) && p.state == ClientAt(n, |passed|) && ClientPasses(n, Asked(passed), p)
    ensures ClientPath(n, passed + [p])
    ensures Asked(passed + [p]) == (Asked(passed) || (p.state.ReadCertificateRequest? && p.took != []))
    ensures TurnedKeys(passed + [p]) == (TurnedKeys(passed) || p.state.ProcessServerCcs? || p.state.ProcessClientCcs?)
  {
    hide ClientPasses, ClientAt;
    OneMorePassage(passed, p);
    var more := passed + [p];
    assert Front(more) == passed;
  }

  lemma ClientStays(n: Negotiated, s: State)
    requires ClientMachine(s)
    ensures ClientMachine(ClientNext(n, s))
  {
  }

  /** A step. */
  lemma ClientSteps(n: Negotiated, s: Log, incoming: seq<Item>, env: Env)
    requires ClientHas(n, s) && s.h.wait.Ok? && !s.h.state.ClientDone?
    ensures ClientHas(n, Logged(s, incoming, ClientTurn(n, s.h, incoming, env).value, env))
  {
    hide ClientPasses, ClientStep, PassageOf, OpenedRightly, ClientPath, Asked, TurnedKeys, HasCcs;
    var h, o := s.h, ClientStep(n, s.h, env);
    ClientStepPassed(n, h, env);
    WaitAsidePassage(h, env, o);
    if WentOn(o) {
      var p := PassageOf(h, env, o);
      PassageState(h, env, o);
      ClientPathOn(n, s.passed, p);
      OpenedLater(s.passed, p, s.openings, ClientTurning(n));
      ClientStays(n, h.state);
    }
  }

  lemma PassageState(h: Hs, env: Env, o: Outcome)
    ensures PassageOf(h, env, o).state == h.state && PassageOf(h, env, o).fate == env.fate
  {
  }

  lemma WaitAsidePassage(h: Hs, env: Env, o: Outcome)
    ensures PassageOf(h, env, Outcome(After(o), o.wait)) == PassageOf(h, env, o)
  {
  }

  /** Reading what is waited for, flushing, or coming back after a suspension. */
  lemma ClientReads(n: Negotiated, s: Log, incoming: seq<Item>, env: Env)
    requires ClientHas(n, s) && !s.h.wait.Ok? && Resolve(s.h, incoming).Some?
    ensures ClientHas(n, Logged(s, incoming, Resolve(s.h, incoming).value, env))
  {
    hide ClientPasses, OpenedRightly, ClientPath, Asked, TurnedKeys, HasCcs, ClientAt;
    var t := Resolve(s.h, incoming).value;
    if |t.incoming| < |incoming| && !t.h.wait.Error? {
      OpenedOneMore(s.passed, s.openings, ClientTurning(n), incoming[0]);
    }
  }

  /** In every run of a client against any peer: the states passed are those of the handshake, in order, each
      with the messages it had to take in and say and the checks it had to pass; and every record was read
      under the right keys, a ChangeCipherSpec before the keys changed. */
  lemma {:induction false} ClientHistoryHas(n: Negotiated, s: Log, incoming: seq<Item>, acts: seq<Act>)
    requires ClientHas(n, s)
    ensures ClientHas(n, ClientHistory(n, s, incoming, acts))
    decreases |acts|
  {
    hide ClientHas, Logged, Resolve, ClientStep;
    if acts != [] {
      if acts[0].Arrives? {
        ClientHistoryHas(n, s, incoming + [acts[0].item], acts[1..]);
      } else {
        var env := acts[0].env;
        var t := ClientTurn(n, s.h, incoming, env);
        if t.None? {
          ClientHistoryHas(n, s, incoming, acts[1..]);
        } else {
          if s.h.wait.Ok? {
            ClientSteps(n, s, incoming, env);
          } else {
            ClientReads(n, s, incoming, env);
          }
          ClientHistoryHas(n, Logged(s, incoming, t.value, env), t.value.incoming, acts[1..]);
        }
      }
    }
  }

  // The server's history.

  function ServerTurning(n: Negotiated): nat -> bool {
    (i: nat) => ServerAt(n, i).ProcessClientCcs?
  }

  predicate ServerPath(n: Negotiated, passed: seq<Passage>) {
    forall i: nat | i < |passed| ::
      passed[i].state == ServerAt(n, i) && ServerPasses(n, Shown(passed[..i]), passed[i])
  }

  predicate ServerHas(n: Negotiated, s: Log) {
    && ServerPath(n, s.passed) && s.h.state == ServerAt(n, |s.passed|) && !ClientMachine(s.h.state) && AtHello(s.h)
    && s.h.learned == Shown(s.passed) && s.h.readKeys == TurnedKeys(s.passed)
    && OpenedRightly(s.passed, s.openings, ServerTurning(n))
    && (s.h.wait.ReadCcs? ==> s.h.state.ProcessClientCcs?)
    && (s.h.state.ProcessClientCcs? ==> s.h.wait.ReadCcs? || s.h.wait.Ok? || s.h.wait.Error?)
    && (TurnedKeys(s.passed) || (s.h.state.ProcessClientCcs? && s.h.wait.Ok?) ==> HasCcs(s.openings))
  }

  lemma ServerPathOn(n: Negotiated, passed: seq<Passage>, p: Passage)
    requires ServerPath(n, passed) && p.state == ServerAt(n, |passed|) && ServerPasses(n, Shown(passed), p)
    ensures ServerPath(n, passed + [p])
    ensures Shown(passed + [p]) == if p.state.ReadClientCertificate? && p.took != []
                                   then p.took[0].body == Chain(true) else Shown(passed)
    ensures TurnedKeys(passed + [p]) == (TurnedKeys(passed) || p.state.ProcessServerCcs? || p.state.ProcessClientCcs?)
  {
    hide ServerPasses, ServerAt;
    OneMorePassage(passed, p);
    var more := passed + [p];
    assert Front(more) == passed;
  }

  lemma ServerStays(n: Negotiated, s: State)
    requires !ClientMachine(s)
    ensures !ClientMachine(ServerNext(n, s))
  {
  }

  lemma ServerSteps(n: Negotiated, s: Log, incoming: seq<Item>, env: Env)
    requires ServerHas(n, s) && s.h.wait.Ok? && !s.h.state.ServerDone?
    ensures ServerHas(n, Logged(s, incoming, ServerTurn(n, s.h, incoming, env).value, env))
  {
    hide ServerPasses, ServerStep, PassageOf, OpenedRightly, ServerPath, Shown, TurnedKeys, HasCcs;
    var h, o := s.h, ServerStep(n, s.h, env);
    ServerStepPassed(n, h, env);
    WaitAsidePassage(h, env, o);
    if WentOn(o) {
      var p := PassageOf(h, env, o);
      PassageState(h, env, o);
      ServerPathOn(n, s.passed, p);
      OpenedLater(s.passed, p, s.openings, ServerTurning(n));
      ServerStays(n, h.state);
    }
  }

  lemma ServerReads(n: Negotiated, s: Log, incoming: seq<Item>, env: Env)
    requires ServerHas(n, s) && !s.h.wait.Ok? && Resolve(s.h, incoming).Some?
    ensures ServerHas(n, Logged(s, incoming, Resolve(s.h, incoming).value, env))
  {
    hide ServerPasses, OpenedRightly, ServerPath, Shown, TurnedKeys, HasCcs, ServerAt;
    var t := Resolve(s.h, incoming).value;
    if |t.incoming| < |incoming| && !t.h.wait.Error? {
      OpenedOneMore(s.passed, s.openings, ServerTurning(n), incoming[0]);
    }
  }

  /** The same of every run of a server. */
  lemma {:induction false} ServerHistoryHas(n: Negotiated, s: Log, incoming: seq<Item>, acts: seq<Act>)
    requires ServerHas(n, s)
    ensures ServerHas(n, ServerHistory(n, s, incoming, acts))
    decreases |acts|
  {
    hide ServerHas, Logged, Resolve, ServerStep;
    if acts != [] {
      if acts[0].Arrives? {
        ServerHistoryHas(n, s, incoming + [acts[0].item], acts[1..]);
      } else {
        var env := acts[0].env;
        var t := ServerTurn(n, s.h, incoming, env);
        if t.None? {
          ServerHistoryHas(n, s, incoming, acts[1..]);
        } else {
          if s.h.wait.Ok? {
            ServerSteps(n, s, incoming, env);
          } else {
            ServerReads(n, s, incoming, env);
          }
          ServerHistoryHas(n, Logged(s, incoming, t.value, env), t.value.incoming, acts[1..]);
        }
      }
    }
  }

  // From the start.

  lemma FreshHistories(n: Negotiated)
    ensures ClientHas(n, Log(Initial(StartConnect), [], [])) && ServerHas(n, Log(Initial(StartAccept), [], []))
  {
  }

  lemma NotBeyond(n: Negotiated, i: nat)
    ensures !n.resumed && i <= 5 ==> Rank(n, ClientAt(n, i)) >= Rank(n, VerifyServerCertificate)
  {
    if i <= 5 {
      ClientPlaces(n);
      assert ClientAt(n, 0) == StartConnect && ClientAt(n, 1) == EnterEarlyData && ClientAt(n, 2) == ReadServerHello;
    }
  }

  lemma ClientPlaces(n: Negotiated)
    ensures !n.resumed ==> ClientAt(n, 3).ReadServerCertificate? && ClientAt(n, 5).VerifyServerCertificate?
  {
    assert ClientAt(n, 0) == StartConnect && ClientAt(n, 1) == EnterEarlyData && ClientAt(n, 2) == ReadServerHello;
    assert !n.resumed ==> ClientAt(n, 3) == ReadServerCertificate && ClientAt(n, 4) == ReadCertificateStatus;
  }

  /** Whatever the peer sends: a client of a full handshake with a certificate that has come past the check of the
      certificate has been given one that is not empty, and the check has succeeded. */
  lemma CertificateChecked(n: Negotiated, acts: seq<Act>)
    requires !n.resumed && n.certAuth
    ensures var s := ClientHistory(n, Log(Initial(StartConnect), [], []), [], acts);
            Rank(n, s.h.state) < Rank(n, VerifyServerCertificate) ==>
              && |s.passed| > 5 && s.passed[3].took == [Message(Certificate, Chain(true))]
              && s.passed[5].state.VerifyServerCertificate? && s.passed[5].fate.Proceed?
  {
    hide ClientHistory, ClientSays, ClientAt, Rank;
    FreshHistories(n);
    ClientHistoryHas(n, Log(Initial(StartConnect), [], []), [], acts);
    ClientPlaces(n);
    NotBeyond(n, |ClientHistory(n, Log(Initial(StartConnect), [], []), [], acts).passed|);
  }

  lemma ServerPlaces(n: Negotiated)
    ensures !n.resumed ==>
              && ServerAt(n, 8).ReadClientCertificate? && ServerAt(n, 9).VerifyClientCertificate?
              && ServerAt(n, 10).ReadClientKeyExchange? && ServerAt(n, 11).ReadClientCertificateVerify?
  {
    hide ServerAt, ServerNext;
    FirstPlaces(n);
    NextPlaces(n);
    PlaceAfter(n, 6);
    PlaceAfter(n, 7);
    PlaceAfter(n, 8);
    PlaceAfter(n, 9);
    PlaceAfter(n, 10);
  }

  lemma ServerNotBeyond(n: Negotiated, i: nat)
    requires !n.resumed && i <= 11
    ensures Rank(n, ServerAt(n, i)) >= Rank(n, ReadClientCertificateVerify)
  {
    hide ServerAt, ServerNext, Rank;
    StatesRank(n);
    FirstStates(n);
    FirstPlaces(n);
    if i > 6 {
      NextPlaces(n);
      PlaceAfter(n, 6);
      PlaceAfter(n, 7);
      PlaceAfter(n, 8);
      PlaceAfter(n, 9);
      PlaceAfter(n, 10);
    }
  }

  lemma FirstStates(n: Negotiated)
    ensures ServerAt(n, 0) == StartAccept && ServerAt(n, 1) == ReadClientHello
    ensures ServerAt(n, 2) == SelectCertificate && ServerAt(n, 3) == SelectParameters
    ensures !n.resumed ==> ServerAt(n, 4) == SendServerHello && ServerAt(n, 5) == SendServerCertificate
  {
  }

  lemma StatesRank(n: Negotiated)
    ensures forall s | s in {StartAccept, ReadClientHello, SelectCertificate, SelectParameters, SendServerHello,
                             SendServerCertificate, SendServerKeyExchange, SendServerHelloDone, ReadClientCertificate,
                             VerifyClientCertificate, ReadClientKeyExchange} ::
              Rank(n, s) >= Rank(n, ReadClientCertificateVerify)
  {
  }

  lemma NextPlaces(n: Negotiated)
    ensures ServerNext(n, SendServerKeyExchange) == SendServerHelloDone
    ensures ServerNext(n, SendServerHelloDone) == ReadClientCertificate
    ensures ServerNext(n, ReadClientCertificate) == VerifyClientCertificate
    ensures ServerNext(n, VerifyClientCertificate) == ReadClientKeyExchange
    ensures ServerNext(n, ReadClientKeyExchange) == ReadClientCertificateVerify
  {
  }

  lemma FirstPlaces(n: Negotiated)
    ensures !n.resumed ==> ServerAt(n, 6).SendServerKeyExchange?
  {
    assert ServerAt(n, 0) == StartAccept && ServerAt(n, 1) == ReadClientHello && ServerAt(n, 2) == SelectCertificate;
    assert ServerAt(n, 3) == SelectParameters && ServerAt(n, 4) == SendServerHello;
    assert !n.resumed ==> ServerAt(n, 5) == SendServerCertificate;
  }

  lemma PlaceAfter(n: Negotiated, i: nat)
    ensures ServerAt(n, i + 1) == ServerNext(n, ServerAt(n, i))
  {
  }

  /** A server that has come past the client's CertificateVerify has been shown a certificate only if the check of it
      has succeeded and the CertificateVerify has come. */
  lemma ClientCertificateChecked(n: Negotiated, acts: seq<Act>)
    requires !n.resumed && n.certRequest
    ensures var s := ServerHistory(n, Log(Initial(StartAccept), [], []), [], acts);
            Rank(n, s.h.state) < Rank(n, ReadClientCertificateVerify) ==>
              && |s.passed| > 11 && Kinds(s.passed[8].took) == [Certificate]
              && (s.passed[8].took[0].body == Chain(true) ==>
                    && s.passed[9].state.VerifyClientCertificate? && s.passed[9].fate.Proceed?
                    && Kinds(s.passed[11].took) == [CertificateVerify])
  {
    hide ServerHistory, ServerPath, ServerAt, Shown, OpenedRightly, Rank;
    FreshHistories(n);
    ServerHistoryHas(n, Log(Initial(StartAccept), [], []), [], acts);
    var s := ServerHistory(n, Log(Initial(StartAccept), [], []), [], acts);
    if |s.passed| > 11 {
      ClientShown(n, s.passed);
    } else {
      ServerNotBeyond(n, |s.passed|);
    }
  }

  lemma ClientShown(n: Negotiated, passed: seq<Passage>)
    requires !n.resumed && n.certRequest && ServerPath(n, passed) && |passed| > 11
    ensures Kinds(passed[8].took) == [Certificate]
    ensures passed[8].took[0].body == Chain(true) ==>
              && passed[9].state.VerifyClientCertificate? && passed[9].fate.Proceed?
              && Kinds(passed[11].took) == [CertificateVerify]
  {
    hide ServerPasses, ServerAt, Shown;
    ServerPlaces(n);
    ShownGrows(passed, 8);
    ShownGrows(passed, 9);
    ShownGrows(passed, 10);
    CertificatePassed(n, Shown(passed[..8]), passed[8]);
    CertificatePassed(n, Shown(passed[..9]), passed[9]);
    CertificatePassed(n, Shown(passed[..11]), passed[11]);
  }

  lemma ShownGrows(passed: seq<Passage>, i: nat)
    requires i < |passed|
    ensures var p := passed[i];
            Shown(passed[..i + 1]) == if p.state.ReadClientCertificate? && p.took != []
                                      then p.took[0].body == Chain(true) else Shown(passed[..i])
  {
    assert Front(passed[..i + 1]) == passed[..i];
  }

  lemma CertificatePassed(n: Negotiated, shown: bool, p: Passage)
    requires ServerPasses(n, shown, p) && n.certRequest
    ensures p.state.ReadClientCertificate? ==> Kinds(p.took) == [Certificate] && p.took != []
    ensures p.state.VerifyClientCertificate? && shown ==> p.fate.Proceed?
    ensures p.state.ReadClientCertificateVerify? && shown ==> Kinds(p.took) == [CertificateVerify]
  {
    hide ServerSays, ServerChecks;
  }
}
