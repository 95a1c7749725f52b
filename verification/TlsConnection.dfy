/** Two handshakes on the heap, joined by two channels, behave as the two-party system does. */
module TlsConnection {
  import opened Common
  import opened TlsHandshake
  import opened TlsScript
  import opened TlsAgreement
  import opened TlsState
  import opened TlsClientMachine
  import opened TlsServerMachine

  /** One turn of ssl_run_handshake for the client: resolve the wait, or run the machine. */
  method TakeClientTurn(hs: Handshake, n: Negotiated, incoming: Channel, outgoing: Channel, env: Env)
    returns (moved: bool)
    requires incoming != outgoing
    modifies hs, incoming, outgoing
    ensures var t := ClientTurn(n, old(hs.View()), old(incoming.items), env);
            && (moved <==> t.Some?)
            && (moved ==> hs.View() == t.value.h && incoming.items == t.value.incoming
                          && outgoing.items == old(outgoing.items) + t.value.sent)
            && (!moved ==> hs.View() == old(hs.View()) && incoming.items == old(incoming.items)
                           && outgoing.items == old(outgoing.items))
  {
    hide ClientStep, Resolve;
    if !hs.wait.Ok? {
      moved := ResolveWait(hs, incoming, outgoing);
    } else if hs.state.ClientDone? {
      moved := false;
    } else {
      var w := PerformClientStep(hs, n, env);
      hs.wait := w;
      moved := true;
    }
  }

  method TakeServerTurn(hs: Handshake, n: Negotiated, incoming: Channel, outgoing: Channel, env: Env)
    returns (moved: bool)
    requires incoming != outgoing
    modifies hs, incoming, outgoing
    ensures var t := ServerTurn(n, old(hs.View()), old(incoming.items), env);
            && (moved <==> t.Some?)
            && (moved ==> hs.View() == t.value.h && incoming.items == t.value.incoming
                          && outgoing.items == old(outgoing.items) + t.value.sent)
            && (!moved ==> hs.View() == old(hs.View()) && incoming.items == old(incoming.items)
                           && outgoing.items == old(outgoing.items))
  {
    hide ServerStep, Resolve;
    if !hs.wait.Ok? {
      moved := ResolveWait(hs, incoming, outgoing);
    } else if hs.state.ServerDone? {
      moved := false;
    } else {
      var w := PerformServerStep(hs, n, env);
      hs.wait := w;
      moved := true;
    }
  }

  /** A client and a server run against each other, in any order of turns: they end in the state the
      system reaches, and so with transcripts that agree. */
  method Connect(n: Negotiated, moves: seq<Move>) returns (client: Handshake, server: Handshake)
    requires n.Valid() && NoFailures(moves)
    ensures client.View() == Run(n, Start(), moves).client && server.View() == Run(n, Start(), moves).server
    ensures client.state.ClientDone? && server.state.ServerDone? && client.wait.Ok? && server.wait.Ok? ==>
              client.transcript == server.transcript
  {
    hide Next, Inv, Run;
    client := new Handshake(StartConnect);
    server := new Handshake(StartAccept);
    var toServer := new Channel();
    var toClient := new Channel();
    ghost var end := Run(n, Start(), moves);
    for i := 0 to |moves|
      invariant fresh(client) && fresh(server) && fresh(toServer) && fresh(toClient)
      invariant client != server && toServer != toClient
      invariant Run(n, System(client.View(), server.View(), toServer.items, toClient.items), moves[i..]) == end
    {
      ghost var s := System(client.View(), server.View(), toServer.items, toClient.items);
      var m := moves[i];
      var moved;
      if m.ClientMoves? {
        moved := TakeClientTurn(client, n, toClient, toServer, m.env);
      } else {
        moved := TakeServerTurn(server, n, toServer, toClient, m.env);
      }
      Moved(n, s, m, System(client.View(), server.View(), toServer.items, toClient.items), moved);
      RunStep(n, s, moves[i..]);
      assert moves[i..][1..] == moves[i + 1..];
    }
    RunOver(n, System(client.View(), server.View(), toServer.items, toClient.items));
    StartInv(n);
    RunKeepsInv(n, Start(), moves);
    DoneAgrees(n, end);
  }

  lemma Moved(n: Negotiated, s: System, m: Move, t: System, moved: bool)
    requires m.ClientMoves? ==>
               var r := ClientTurn(n, s.client, s.toClient, m.env);
               t == if r.Some? then System(r.value.h, s.server, s.toServer + r.value.sent, r.value.incoming) else s
    requires m.ServerMoves? ==>
               var r := ServerTurn(n, s.server, s.toServer, m.env);
               t == if r.Some? then System(s.client, r.value.h, r.value.incoming, s.toClient + r.value.sent) else s
    ensures t == if Next(n, s, m).Some? then Next(n, s, m).value else s
  {
    hide ClientTurn, ServerTurn;
  }

  lemma RunStep(n: Negotiated, s: System, ms: seq<Move>)
    requires ms != []
    ensures Run(n, s, ms) == Run(n, if Next(n, s, ms[0]).Some? then Next(n, s, ms[0]).value else s, ms[1..])
  {
    hide Next;
  }

  lemma RunOver(n: Negotiated, s: System)
    ensures Run(n, s, []) == s
  {
  }

  /** Two sides that are done have the same transcript. */
  lemma DoneAgrees(n: Negotiated, s: System)
    requires Inv(n, s)
    ensures s.client.state.ClientDone? && s.server.state.ServerDone? && s.client.wait.Ok? && s.server.wait.Ok? ==>
              s.client.transcript == s.server.transcript
  {
    hide Resolve;
    NeverStuck(n, s, Env(Proceed, 0));
  }
}
