/** Runs of one side against any peer, and the loops of the two machines: a side that is done has
    exchanged one Finished each way under new keys, and over the whole run every message is hashed once,
    when it is sent or released. */
module TlsRuns {
  import opened Common
  import opened TlsHandshake
  import opened TlsScript
  import opened TlsSafety

  /** A side with its history: the messages it has taken out of records, and the items it has flushed. */
  datatype Trace = Trace(h: Hs, received: seq<Message>, sent: seq<Item>)

  /** `x` consists of `a` and `b`, each in order. */
  predicate Interleaves(x: seq<Message>, a: seq<Message>, b: seq<Message>)
    decreases |x|
  {
    if x == [] then a == [] && b == []
    else
      var last := x[|x| - 1];
      || (a != [] && a[|a| - 1] == last && Interleaves(x[..|x| - 1], a[..|a| - 1], b))
      || (b != [] && b[|b| - 1] == last && Interleaves(x[..|x| - 1], a, b[..|b| - 1]))
  }

  /** Every message occurs in `x` as often as in `a` and `b` together. */
  lemma {:induction false} InterleavingCounts(x: seq<Message>, a: seq<Message>, b: seq<Message>)
    requires Interleaves(x, a, b)
    ensures multiset(x) == multiset(a) + multiset(b)
    decreases |x|
  {
    if x != [] {
      var last := x[|x| - 1];
      assert x == x[..|x| - 1] + [last];
      if a != [] && a[|a| - 1] == last && Interleaves(x[..|x| - 1], a[..|a| - 1], b) {
        InterleavingCounts(x[..|x| - 1], a[..|a| - 1], b);
        assert a == a[..|a| - 1] + [last];
      } else {
        InterleavingCounts(x[..|x| - 1], a, b[..|b| - 1]);
        assert b == b[..|b| - 1] + [last];
      }
    }
  }

  lemma OneFromFirst(x: seq<Message>, a: seq<Message>, b: seq<Message>, m: Message)
    requires Interleaves(x, a, b)
    ensures Interleaves(x + [m], a + [m], b)
  {
    assert (x + [m])[..|x|] == x && (a + [m])[..|a|] == a;
  }

  lemma {:induction false} AllFromSecond(x: seq<Message>, a: seq<Message>, b: seq<Message>, ms: seq<Message>)
    requires Interleaves(x, a, b)
    ensures Interleaves(x + ms, a, b + ms)
    decreases |ms|
  {
    if ms == [] {
      assert x + ms == x && b + ms == b;
    } else {
      var k := |ms| - 1;
      AllFromSecond(x, a, b, ms[..k]);
      assert (x + ms)[..|x + ms| - 1] == x + ms[..k] && (b + ms)[..|b + ms| - 1] == b + ms[..k];
    }
  }

  /** The received messages still buffered are the last ones; the transcript is those released before and
      everything said, flushed or not: each message once, in order. */
  predicate Hashed(t: Trace) {
    && |t.h.queue| <= |t.received|
    && t.received[|t.received| - |t.h.queue|..] == t.h.queue
    && Interleaves(t.h.transcript, t.received[..|t.received| - |t.h.queue|], Messages(t.sent + t.h.flight))
  }

  /** A step that hashes once. */
  lemma StepKeepsHashed(s: Trace, t: Hs)
    requires Hashed(s) && HashedOnce(s.h, t)
    ensures Hashed(s.(h := t))
  {
    hide Interleaves, Messages, Spoke;
    if t.queue == s.h.queue && Spoke(s.h, t) {
      SpeakingKeepsHashed(s, t);
    } else {
      var k := |s.received| - |s.h.queue|;
      OneFromFirst(s.h.transcript, s.received[..k], Messages(s.sent + s.h.flight), s.h.queue[0]);
      assert s.received[k] == s.received[k..][0];
      assert s.received[..k] + [s.h.queue[0]] == s.received[..k + 1];
      assert s.received[k + 1..] == s.received[k..][1..];
    }
  }

  lemma SpeakingKeepsHashed(s: Trace, t: Hs)
    requires Hashed(s) && t.queue == s.h.queue && Spoke(s.h, t)
    ensures Hashed(s.(h := t))
  {
    hide Interleaves, Messages;
    var k := |s.received| - |s.h.queue|;
    var said := t.flight[|s.h.flight|..];
    AllFromSecond(s.h.transcript, s.received[..k], Messages(s.sent + s.h.flight), Messages(said));
    MessagesAppend(s.sent + s.h.flight, said);
    assert s.sent + s.h.flight + said == s.sent + t.flight;
  }

  /** The history after a turn: what a wait for a message takes in, and what a flush puts out. */
  function Noted(s: Trace, t: Turn): Trace {
    Trace(t.h, s.received + (if s.h.wait.ReadMessage? then t.h.queue else []), s.sent + t.sent)
  }

  lemma ResolvingKeepsHashed(s: Trace, incoming: seq<Item>)
    requires Hashed(s) && Resolve(s.h, incoming).Some?
    ensures var t := Resolve(s.h, incoming).value;
            t.h.wait.Error? || Hashed(Noted(s, t))
  {
    hide Interleaves, Messages;
    var t := Resolve(s.h, incoming).value;
    if s.h.wait.Flush? {
      assert s.sent + s.h.flight == s.sent + s.h.flight + [];
      assert Noted(s, t).received == s.received;
    } else if s.h.wait.ReadMessage? {
      assert s.h.queue != [] ==> t.h.wait.Error?;
      assert s.received[..|s.received|] == s.received;
      assert Noted(s, t).sent == s.sent;
    } else {
      assert Noted(s, t).received == s.received && Noted(s, t).sent == s.sent;
    }
  }

  // Runs against any peer.

  /** The peer puts an item on the channel, or the side takes a turn. */
  datatype Act = Arrives(item: Item) | Turns(env: Env)

  function ClientRun(n: Negotiated, s: Trace, incoming: seq<Item>, acts: seq<Act>): Trace
    decreases |acts|
  {
    if acts == [] then s
    else
      match acts[0]
      case Arrives(item) => ClientRun(n, s, incoming + [item], acts[1..])
      case Turns(env) =>
        var t := ClientTurn(n, s.h, incoming, env);
        if t.None? then ClientRun(n, s, incoming, acts[1..])
        else ClientRun(n, Noted(s, t.value), t.value.incoming, acts[1..])
  }

  function ServerRun(n: Negotiated, s: Trace, incoming: seq<Item>, acts: seq<Act>): Trace
    decreases |acts|
  {
    if acts == [] then s
    else
      match acts[0]
      case Arrives(item) => ServerRun(n, s, incoming + [item], acts[1..])
      case Turns(env) =>
        var t := ServerTurn(n, s.h, incoming, env);
        if t.None? then ServerRun(n, s, incoming, acts[1..])
        else ServerRun(n, Noted(s, t.value), t.value.incoming, acts[1..])
  }

  /** A side that has not failed has hashed every message once. */
  predicate HashedUnlessFailed(s: Trace) {
    s.h.wait.Error? || Hashed(s)
  }

  lemma WaitAside(s: Trace, o: Outcome)
    requires Hashed(s.(h := o.h))
    ensures Hashed(s.(h := After(o)))
  {
    hide Interleaves, Messages;
  }

  /** One turn of a side: a step that is safe, or resolving a wait. */
  lemma ClientTurnSafe(n: Negotiated, s: Trace, incoming: seq<Item>, env: Env)
    requires ClientSafe(n, s.h) && HashedUnlessFailed(s) && ClientTurn(n, s.h, incoming, env).Some?
    ensures var t := Noted(s, ClientTurn(n, s.h, incoming, env).value);
            ClientSafe(n, t.h) && HashedUnlessFailed(t)
  {
    hide ClientSafe, ClientStep, Resolve, Hashed, HashedOnce, Checked;
    if s.h.wait.Ok? {
      ClientStepsSafely(n, s.h, env);
      var o := ClientStep(n, s.h, env);
      if !o.wait.Error? {
        StepKeepsHashed(s, o.h);
        WaitAside(s, o);
      }
      NotedStep(s, o, incoming);
    } else {
      ResolvingIsSafe(n, s.h, incoming);
      FailedStays(s.h, incoming);
      ResolvingKeepsHashed(s, incoming);
    }
  }

  lemma ServerTurnSafe(n: Negotiated, s: Trace, incoming: seq<Item>, env: Env)
    requires ServerSafe(n, s.h) && HashedUnlessFailed(s) && ServerTurn(n, s.h, incoming, env).Some?
    ensures var t := Noted(s, ServerTurn(n, s.h, incoming, env).value);
            ServerSafe(n, t.h) && HashedUnlessFailed(t)
  {
    hide ServerSafe, ServerStep, Resolve, Hashed, HashedOnce, Checked;
    if s.h.wait.Ok? {
      ServerStepsSafely(n, s.h, env);
      var o := ServerStep(n, s.h, env);
      if !o.wait.Error? {
        StepKeepsHashed(s, o.h);
        WaitAside(s, o);
      }
      NotedStep(s, o, incoming);
    } else {
      ResolvingIsSafe(n, s.h, incoming);
      FailedStays(s.h, incoming);
      ResolvingKeepsHashed(s, incoming);
    }
  }

  lemma NotedStep(s: Trace, o: Outcome, incoming: seq<Item>)
    requires s.h.wait.Ok?
    ensures Noted(s, TlsHandshake.Turn(After(o), incoming, [])) == s.(h := After(o))
  {
  }

  lemma FailedStays(h: Hs, incoming: seq<Item>)
    requires Resolve(h, incoming).Some?
    ensures !h.wait.Error?
  {
  }

  /** However the peer behaves: a client that is done has sent one Finished, under new keys, and has
      accepted one, under new keys; and unless it has failed it has hashed each message it received and
      released, and each it said, exactly once. */
  lemma {:induction false} ClientRunIsSafe(n: Negotiated, s: Trace, incoming: seq<Item>, acts: seq<Act>)
    requires ClientSafe(n, s.h) && HashedUnlessFailed(s)
    ensures var t := ClientRun(n, s, incoming, acts);
            && ClientSafe(n, t.h) && HashedUnlessFailed(t)
            && (t.h.state.ClientDone? ==> t.h.finishedSent == [true] && t.h.finishedRead == [true])
    decreases |acts|
  {
    hide ClientTurn, Noted, HashedUnlessFailed;
    if acts != [] {
      if acts[0].Arrives? {
        ClientRunIsSafe(n, s, incoming + [acts[0].item], acts[1..]);
      } else {
        var t := ClientTurn(n, s.h, incoming, acts[0].env);
        if t.None? {
          ClientRunIsSafe(n, s, incoming, acts[1..]);
        } else {
          ClientTurnSafe(n, s, incoming, acts[0].env);
          ClientRunIsSafe(n, Noted(s, t.value), t.value.incoming, acts[1..]);
        }
      }
    }
  }

  lemma {:induction false} ServerRunIsSafe(n: Negotiated, s: Trace, incoming: seq<Item>, acts: seq<Act>)
    requires ServerSafe(n, s.h) && HashedUnlessFailed(s)
    ensures var t := ServerRun(n, s, incoming, acts);
            && ServerSafe(n, t.h) && HashedUnlessFailed(t)
            && (t.h.state.ServerDone? ==> t.h.finishedSent == [true] && t.h.finishedRead == [true])
    decreases |acts|
  {
    hide ServerTurn, Noted, HashedUnlessFailed;
    if acts != [] {
      if acts[0].Arrives? {
        ServerRunIsSafe(n, s, incoming + [acts[0].item], acts[1..]);
      } else {
        var t := ServerTurn(n, s.h, incoming, acts[0].env);
        if t.None? {
          ServerRunIsSafe(n, s, incoming, acts[1..]);
        } else {
          ServerTurnSafe(n, s, incoming, acts[0].env);
          ServerRunIsSafe(n, Noted(s, t.value), t.value.incoming, acts[1..]);
        }
      }
    }
  }

  lemma NothingHashed(state: State)
    ensures Hashed(Trace(Initial(state), [], []))
  {
    hide Initial;
    assert Initial(state).transcript == Initial(state).queue == [] && Initial(state).flight == [] by {
      StartsEmpty(state);
    }
  }

  lemma StartsEmpty(state: State)
    ensures Initial(state).transcript == Initial(state).queue == [] && Initial(state).flight == []
  {
  }

  /** From the start of a connection. */
  lemma FreshRunsAreSafe(n: Negotiated, acts: seq<Act>)
    ensures var c := ClientRun(n, Trace(Initial(StartConnect), [], []), [], acts);
            && HashedUnlessFailed(c)
            && (c.h.state.ClientDone? ==> c.h.finishedSent == [true] && c.h.finishedRead == [true])
    ensures var t := ServerRun(n, Trace(Initial(StartAccept), [], []), [], acts);
            && HashedUnlessFailed(t)
            && (t.h.state.ServerDone? ==> t.h.finishedSent == [true] && t.h.finishedRead == [true])
  {
    hide ClientSafe, ServerSafe, ClientRun, ServerRun, Hashed;
    FreshSidesAreSafe(n);
    NothingHashed(StartConnect);
    NothingHashed(StartAccept);
    ClientRunIsSafe(n, Trace(Initial(StartConnect), [], []), [], acts);
    ServerRunIsSafe(n, Trace(Initial(StartAccept), [], []), [], acts);
  }

  // The loops of the machines.

  function NextEnv(envs: seq<Env>): Env {
    if envs == [] then Env(Proceed, 0) else envs[0]
  }

  function Later(envs: seq<Env>): seq<Env> {
    if envs == [] then [] else envs[1..]
  }

  /** What the loop of ssl_client_handshake comes to: steps are run until one does not return Ok or
      the side is done. */
  function ClientLoop(n: Negotiated, h: Hs, envs: seq<Env>): (o: Outcome)
    decreases Rank(n, h.state)
  {
    if h.state.ClientDone? || !ClientMachine(h.state) then Outcome(h, Ok)
    else
      var o := ClientStep(n, h, NextEnv(envs));
      if !o.wait.Ok? then o else ClientLoop(n, o.h, Later(envs))
  }

  /** What the loop of ssl_server_handshake comes to. */
  function ServerLoop(n: Negotiated, h: Hs, envs: seq<Env>): (o: Outcome)
    decreases Rank(n, h.state)
  {
    if h.state.ServerDone? || ClientMachine(h.state) then Outcome(h, Ok)
    else
      var o := ServerStep(n, h, NextEnv(envs));
      if !o.wait.Ok? then o else ServerLoop(n, o.h, Later(envs))
  }

  /** Whatever history a side comes with, its hashing stays right. */
  ghost predicate KeepsHashed(h: Hs, t: Hs) {
    forall received: seq<Message>, sent: seq<Item> | Hashed(Trace(h, received, sent)) ::
      Hashed(Trace(t, received, sent))
  }

  lemma StepHashesOn(h: Hs, t: Hs)
    requires HashedOnce(h, t)
    ensures KeepsHashed(h, t)
  {
    hide Hashed, HashedOnce;
    forall received: seq<Message>, sent: seq<Item> | Hashed(Trace(h, received, sent))
      ensures Hashed(Trace(t, received, sent))
    {
      StepKeepsHashed(Trace(h, received, sent), t);
    }
  }

  /** A call of the client machine stays safe. It returns Ok only when the client is done, with one
      Finished each way under new keys; a wait for a message or a callback leaves exactly the state whose
      step waits; and unless it fails it hashes each message it releases or says once. */
  lemma {:induction false} ClientLoopIsSafe(n: Negotiated, h: Hs, envs: seq<Env>)
    requires ClientSafe(n, h)
    ensures var o := ClientLoop(n, h, envs);
            && ClientSafe(n, After(o))
            && (o.wait.Ok? ==> o.h.state.ClientDone? && o.h.finishedSent == [true] && o.h.finishedRead == [true])
            && (o.wait.ReadMessage? || o.wait.Suspended? ==> exists env: Env :: ClientStep(n, o.h, env) == o)
            && (!o.wait.Error? ==> KeepsHashed(h, o.h))
    decreases Rank(n, h.state)
  {
    ClientDoneFinished(n, h);
    hide ClientStep, Rank, HashedOnce, Checked, ClientSafe, Hashed;
    if !h.state.ClientDone? {
      var env := NextEnv(envs);
      ClientStepsSafely(n, h, env);
      var o := ClientStep(n, h, env);
      if !o.wait.Error? {
        StepHashesOn(h, o.h);
      }
      if o.wait.Ok? {
        OkAside(n, o);
        ClientLoopIsSafe(n, o.h, Later(envs));
      }
    }
  }

  lemma {:induction false} ServerLoopIsSafe(n: Negotiated, h: Hs, envs: seq<Env>)
    requires ServerSafe(n, h)
    ensures var o := ServerLoop(n, h, envs);
            && ServerSafe(n, After(o))
            && (o.wait.Ok? ==> o.h.state.ServerDone? && o.h.finishedSent == [true] && o.h.finishedRead == [true])
            && (o.wait.ReadMessage? || o.wait.Suspended? ==> exists env: Env :: ServerStep(n, o.h, env) == o)
            && (!o.wait.Error? ==> KeepsHashed(h, o.h))
    decreases Rank(n, h.state)
  {
    ServerDoneFinished(n, h);
    hide ServerStep, Rank, HashedOnce, Checked, ServerSafe, Hashed;
    if !h.state.ServerDone? {
      var env := NextEnv(envs);
      ServerStepsSafely(n, h, env);
      var o := ServerStep(n, h, env);
      if !o.wait.Error? {
        StepHashesOn(h, o.h);
      }
      if o.wait.Ok? {
        OkAside(n, o);
        ServerLoopIsSafe(n, o.h, Later(envs));
      }
    }
  }

  lemma ClientDoneFinished(n: Negotiated, h: Hs)
    requires ClientSafe(n, h)
    ensures ClientMachine(h.state) && (forall w: Wait :: ClientSafe(n, h.(wait := w)))
    ensures h.state.ClientDone? ==> h.finishedSent == [true] && h.finishedRead == [true]
  {
  }

  lemma ServerDoneFinished(n: Negotiated, h: Hs)
    requires ServerSafe(n, h)
    ensures !ClientMachine(h.state) && (forall w: Wait :: ServerSafe(n, h.(wait := w)))
    ensures h.state.ServerDone? ==> h.finishedSent == [true] && h.finishedRead == [true]
  {
  }

  /** The wait is no part of what is safe. */
  lemma OkAside(n: Negotiated, o: Outcome)
    ensures ClientSafe(n, After(o)) ==> ClientSafe(n, o.h)
    ensures ServerSafe(n, After(o)) ==> ServerSafe(n, o.h)
  {
  }
}
