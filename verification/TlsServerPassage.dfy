/** The server's steps go on only as they should, whatever its peer sent: each state that waits for a message goes on
    only with that message, and with none but it; each state that speaks says what the negotiation calls for, in
    order and under the keys in force; and none goes on past a check that failed or an answer that has not come.
    From selecting the certificate to choosing the parameters the ClientHello stays at hand, and it is taken in only
    then. One lemma is about each state's handler, and what the handlers have in common is proved once before. */
module TlsServerPassage {
  import opened Common
  import opened TlsHandshake
  import opened TlsPassage

  /** While the ClientHello is being dealt with, it is the message at hand. */
  predicate AtHello(h: Hs) {
    h.state.SelectCertificate? || h.state.SelectParameters? ==> h.queue != [] && h.queue[0].kind == ClientHello
  }

  /** A step of the server goes on only as it should, to the next state; any other leaves the state. */
  predicate ServerStepPasses(n: Negotiated, h: Hs, env: Env, o: Outcome) {
    var p := PassageOf(h, env, o);
    && (!WentOn(o) ==> Halted(h, o.h) && (h.state.ProcessClientCcs? ==> o.wait.Error?))
    && (WentOn(o) ==>
          && ServerPasses(n, h.learned, p) && o.h.state == ServerNext(n, h.state) && AtHello(o.h)
          && h.queue == p.took + o.h.queue
          && o.h.learned == (if p.state.ReadClientCertificate? && p.took != [] then p.took[0].body == Chain(true)
                             else h.learned)
          && o.h.readKeys == (h.readKeys || p.state.ProcessClientCcs?)
          && (o.wait.ReadCcs? <==> o.h.state.ProcessClientCcs?))
  }

  /** Going on to the next state without a message, or with the one at hand. */
  lemma WentQuietly(n: Negotiated, h: Hs, env: Env, o: Outcome)
    requires o == Go(h, ServerNext(n, h.state)) && AtHello(o.h)
    requires !h.state.ProcessClientCcs? && !o.h.state.ProcessClientCcs?
    requires ServerPasses(n, h.learned, Passage(h.state, env.fate, h.queue, [], []))
    ensures ServerStepPasses(n, h, env, o)
  {
    hide ServerPasses, PassageOf, ServerNext;
    QuietPassage(h, env, o);
  }

  lemma WentTaking(n: Negotiated, h: Hs, env: Env, o: Outcome)
    requires o.wait.Ok? && h.queue != [] && o.h.queue == h.queue[1..] && o.h.flight == h.flight
    requires o.h.state == ServerNext(n, h.state) && o.h.readKeys == h.readKeys && AtHello(o.h)
    requires !h.state.ProcessClientCcs? && !o.h.state.ProcessClientCcs?
    requires o.h.learned == if h.state.ReadClientCertificate? then h.queue[0].body == Chain(true) else h.learned
    requires ServerPasses(n, h.learned, Passage(h.state, env.fate, h.queue, [h.queue[0]], []))
    ensures ServerStepPasses(n, h, env, o)
  {
    hide ServerPasses, PassageOf, ServerNext;
    TakingPassage(h, env, o);
  }

  lemma WentNowhere(n: Negotiated, h: Hs, env: Env, o: Outcome)
    requires !WentOn(o) && o.h == h && !h.state.ProcessClientCcs?
    ensures ServerStepPasses(n, h, env, o)
  {
  }

  /** One message, or none, read in a state that says nothing. */
  lemma TakingPasses(n: Negotiated, h: Hs, env: Env, took: seq<Message>)
    requires took <= h.queue && h.state in {ReadClientCertificate, ReadClientKeyExchange, ReadClientCertificateVerify,
                                           ReadNextProto, ReadChannelId}
    requires ServerTakes(n, h.learned, Passage(h.state, env.fate, h.queue, took, []))
    requires took != [] ==> !env.fate.Fail?
    requires h.state.ReadClientKeyExchange? && n.certAuth && !n.ecdhe ==> env.fate.Proceed?
    ensures ServerPasses(n, h.learned, Passage(h.state, env.fate, h.queue, took, []))
  {
    hide ServerTakes;
  }

  lemma ServerOpens(n: Negotiated, h: Hs, env: Env)
    requires h.state.StartAccept?
    ensures ServerStepPasses(n, h, env, DoStartAccept(n, h, env))
  {
    hide Rank, Proceeds, PassageOf, Receive, ReceiveFinished, SayCertificate, SayHelloDone, SayServerFinished;
    var o := DoStartAccept(n, h, env);
    if WentOn(o) {
      QuietPassage(h, env, o);
    }
  }

  lemma ServerHears(n: Negotiated, h: Hs, env: Env)
    requires h.state.ReadClientHello?
    ensures ServerStepPasses(n, h, env, DoReadClientHello(n, h, env))
  {
    hide Rank, Proceeds, PassageOf, Receive, ReceiveFinished, SayCertificate, SayHelloDone, SayServerFinished;
    var o := DoReadClientHello(n, h, env);
    if WentOn(o) {
      QuietPassage(h, env, o);
    }
  }

  lemma ServerSelects(n: Negotiated, h: Hs, env: Env)
    requires h.state.SelectCertificate? && AtHello(h)
    ensures ServerStepPasses(n, h, env, DoSelectCertificate(n, h, env))
  {
    hide Rank, Proceeds, PassageOf, Receive, ReceiveFinished, SayCertificate, SayHelloDone, SayServerFinished;
    var o := DoSelectCertificate(n, h, env);
    if WentOn(o) {
      QuietPassage(h, env, o);
    }
  }

  lemma ServerTakesHello(n: Negotiated, h: Hs, env: Env)
    requires h.state.SelectParameters? && AtHello(h)
    ensures ServerStepPasses(n, h, env, DoSelectParameters(n, h, env))
  {
    hide Rank, Proceeds, PassageOf, Receive, ReceiveFinished, SayCertificate, SayHelloDone, SayServerFinished;
    var o := DoSelectParameters(n, h, env);
    if WentOn(o) {
      TakingPassage(h, env, o);
      assert h.queue == [h.queue[0]] + h.queue[1..];
    }
  }

  lemma ServerGreets(n: Negotiated, h: Hs, env: Env)
    requires h.state.SendServerHello?
    ensures ServerStepPasses(n, h, env, DoSendServerHello(n, h, env))
  {
    hide Rank, Proceeds, PassageOf, Receive, ReceiveFinished, SayCertificate, SayHelloDone, SayServerFinished;
    var o := DoSendServerHello(n, h, env);
    if WentOn(o) {
      SayingPassage(h, env, o, [Carry(Message(ServerHello, Opaque(env.bytes)), h.writeKeys)]);
    }
  }

  /** What each of the flights of several messages adds. */
  lemma CertificateItems(n: Negotiated, h: Hs, bytes: nat) returns (items: seq<Item>)
    ensures var t := SayCertificate(n, h, bytes);
            && t.flight == h.flight + items && t.queue == h.queue && t.learned == h.learned && t.readKeys == h.readKeys
            && Labels(items) ==
               (if n.certAuth then [Some(Certificate)] + (if n.status then [Some(CertificateStatus)] else []) else [])
            && (n.certAuth ==> items[0].m.body == Chain(true))
  {
    var t := SayCertificate(n, h, bytes);
    items := t.flight[|h.flight|..];
    assert t.flight[..|h.flight|] == h.flight;
  }

  lemma HelloDoneItems(n: Negotiated, h: Hs, bytes: nat) returns (items: seq<Item>)
    ensures var t := SayHelloDone(n, h, bytes);
            && t.flight == h.flight + items && t.queue == h.queue && t.learned == h.learned && t.readKeys == h.readKeys
            && Labels(items) ==
               (if n.certRequest then [Some(CertificateRequest)] else []) + [Some(ServerHelloDone)]
  {
    var t := SayHelloDone(n, h, bytes);
    items := t.flight[|h.flight|..];
    assert t.flight[..|h.flight|] == h.flight;
  }

  lemma FinishedItems(n: Negotiated, h: Hs, bytes: nat) returns (items: seq<Item>)
    ensures var t := SayServerFinished(n, h, bytes);
            && t.flight == h.flight + items && t.queue == h.queue && t.learned == h.learned && t.readKeys == h.readKeys
            && Labels(items) == (if n.ticket then [Some(NewSessionTicket)] else []) + [None, Some(Finished)]
  {
    var t := SayServerFinished(n, h, bytes);
    items := t.flight[|h.flight|..];
    assert t.flight[..|h.flight|] == h.flight;
  }

  lemma ServerShowsCertificate(n: Negotiated, h: Hs, env: Env)
    requires h.state.SendServerCertificate?
    ensures ServerStepPasses(n, h, env, DoSendServerCertificate(n, h, env))
  {
    hide Rank, Proceeds, PassageOf, Receive, ReceiveFinished, SayCertificate, SayHelloDone, SayServerFinished;
    var o := DoSendServerCertificate(n, h, env);
    if WentOn(o) {
      var items := CertificateItems(n, h, env.bytes);
      SayingPassage(h, env, o, items);
    }
  }

  lemma ServerSaysKeyExchange(n: Negotiated, h: Hs, env: Env)
    requires h.state.SendServerKeyExchange?
    ensures ServerStepPasses(n, h, env, DoSendServerKeyExchange(n, h, env))
  {
    hide Rank, Proceeds, PassageOf, Receive, ReceiveFinished, SayCertificate, SayHelloDone, SayServerFinished;
    var o := DoSendServerKeyExchange(n, h, env);
    if WentOn(o) {
      if n.SendsKeyExchange() {
        SayingPassage(h, env, o, [Carry(Message(ServerKeyExchange, Opaque(env.bytes)), h.writeKeys)]);
      } else {
        QuietPassage(h, env, o);
      }
    }
  }

  lemma ServerSaysHelloDone(n: Negotiated, h: Hs, env: Env)
    requires h.state.SendServerHelloDone?
    ensures ServerStepPasses(n, h, env, DoSendServerHelloDone(n, h, env))
  {
    hide Rank, Proceeds, PassageOf, Receive, ReceiveFinished, SayCertificate, SayHelloDone, SayServerFinished;
    var o := DoSendServerHelloDone(n, h, env);
    if WentOn(o) {
      var items := HelloDoneItems(n, h, env.bytes);
      SayingPassage(h, env, o, items);
    }
  }

  lemma ServerTakesCertificate(n: Negotiated, h: Hs, env: Env)
    requires h.state.ReadClientCertificate?
    ensures ServerStepPasses(n, h, env, DoReadClientCertificate(n, h, env))
  {
    hide Rank, Proceeds, PassageOf, Receive, ServerPasses, ServerStepPasses;
    var o := DoReadClientCertificate(n, h, env);
    Received(h, Certificate, env, VerifyClientCertificate);
    if WentOn(o) {
      if o.h.queue == h.queue {
        TakingPasses(n, h, env, []);
        WentQuietly(n, h, env, o);
      } else {
        TakingPasses(n, h, env, [h.queue[0]]);
        WentTaking(n, h, env, o);
      }
    } else {
      WentNowhere(n, h, env, o);
    }
  }

  lemma ServerVerifies(n: Negotiated, h: Hs, env: Env)
    requires h.state.VerifyClientCertificate?
    ensures ServerStepPasses(n, h, env, DoVerifyClientCertificate(n, h, env))
  {
    hide Rank, Proceeds, PassageOf, Receive, ReceiveFinished, SayCertificate, SayHelloDone, SayServerFinished;
    var o := DoVerifyClientCertificate(n, h, env);
    if WentOn(o) {
      QuietPassage(h, env, o);
    }
  }

  lemma ServerTakesKeyExchange(n: Negotiated, h: Hs, env: Env)
    requires h.state.ReadClientKeyExchange?
    ensures ServerStepPasses(n, h, env, DoReadClientKeyExchange(n, h, env))
  {
    hide Rank, Proceeds, PassageOf, Receive, ServerPasses, ServerStepPasses;
    var o := DoReadClientKeyExchange(n, h, env);
    Received(h, ClientKeyExchange, env, ReadClientCertificateVerify);
    if WentOn(o) {
      if o.h.queue == h.queue {
        TakingPasses(n, h, env, []);
        WentQuietly(n, h, env, o);
      } else {
        TakingPasses(n, h, env, [h.queue[0]]);
        WentTaking(n, h, env, o);
      }
    } else {
      WentNowhere(n, h, env, o);
    }
  }

  lemma ServerTakesVerify(n: Negotiated, h: Hs, env: Env)
    requires h.state.ReadClientCertificateVerify?
    ensures ServerStepPasses(n, h, env, DoReadClientCertificateVerify(n, h, env))
  {
    hide Rank, Proceeds, PassageOf, Receive, ServerPasses, ServerStepPasses;
    var o := DoReadClientCertificateVerify(n, h, env);
    Received(h, CertificateVerify, env, ReadClientCcs);
    if WentOn(o) {
      if o.h.queue == h.queue {
        TakingPasses(n, h, env, []);
        WentQuietly(n, h, env, o);
      } else {
        TakingPasses(n, h, env, [h.queue[0]]);
        WentTaking(n, h, env, o);
      }
    } else {
      WentNowhere(n, h, env, o);
    }
  }

  lemma ServerAwaitsKeys(n: Negotiated, h: Hs, env: Env)
    requires h.state.ReadClientCcs?
    ensures ServerStepPasses(n, h, env, DoReadClientCcs(n, h, env))
  {
    hide Rank, Proceeds, PassageOf, Receive, ReceiveFinished, SayCertificate, SayHelloDone, SayServerFinished;
    var o := DoReadClientCcs(n, h, env);
    if WentOn(o) {
      QuietPassage(h, env, o);
    }
  }

  lemma ServerTurnsKeys(n: Negotiated, h: Hs, env: Env)
    requires h.state.ProcessClientCcs?
    ensures ServerStepPasses(n, h, env, DoProcessClientCcs(n, h, env))
  {
    hide Rank, Proceeds, PassageOf, Receive, ReceiveFinished, SayCertificate, SayHelloDone, SayServerFinished;
    var o := DoProcessClientCcs(n, h, env);
    if WentOn(o) {
      QuietPassage(h, env, o);
    }
  }

  lemma ServerTakesNextProto(n: Negotiated, h: Hs, env: Env)
    requires h.state.ReadNextProto?
    ensures ServerStepPasses(n, h, env, DoReadNextProto(n, h, env))
  {
    hide Rank, Proceeds, PassageOf, Receive, ServerPasses, ServerStepPasses;
    var o := DoReadNextProto(n, h, env);
    Received(h, NextProto, env, ReadChannelId);
    if WentOn(o) {
      if o.h.queue == h.queue {
        TakingPasses(n, h, env, []);
        WentQuietly(n, h, env, o);
      } else {
        TakingPasses(n, h, env, [h.queue[0]]);
        WentTaking(n, h, env, o);
      }
    } else {
      WentNowhere(n, h, env, o);
    }
  }

  lemma ServerTakesChannelId(n: Negotiated, h: Hs, env: Env)
    requires h.state.ReadChannelId?
    ensures ServerStepPasses(n, h, env, DoReadChannelId(n, h, env))
  {
    hide Rank, Proceeds, PassageOf, Receive, ServerPasses, ServerStepPasses;
    var o := DoReadChannelId(n, h, env);
    Received(h, ChannelId, env, ReadClientFinished);
    if WentOn(o) {
      if o.h.queue == h.queue {
        TakingPasses(n, h, env, []);
        WentQuietly(n, h, env, o);
      } else {
        TakingPasses(n, h, env, [h.queue[0]]);
        WentTaking(n, h, env, o);
      }
    } else {
      WentNowhere(n, h, env, o);
    }
  }

  lemma ServerTakesFinished(n: Negotiated, h: Hs, env: Env)
    requires h.state.ReadClientFinished?
    ensures ServerStepPasses(n, h, env, DoReadClientFinished(n, h, env))
  {
    hide Rank, Proceeds, PassageOf, Receive, ReceiveFinished, SayCertificate, SayHelloDone, SayServerFinished;
    var o := DoReadClientFinished(n, h, env);
    ReceivedFinished(h, false, env, ServerNext(n, h.state));
    if WentOn(o) {
      TakingPassage(h, env, o);
    }
  }

  lemma ServerSaysFinished(n: Negotiated, h: Hs, env: Env)
    requires h.state.SendServerFinished?
    ensures ServerStepPasses(n, h, env, DoSendServerFinished(n, h, env))
  {
    hide Rank, Proceeds, PassageOf, Receive, ReceiveFinished, SayCertificate, SayHelloDone, SayServerFinished;
    var o := DoSendServerFinished(n, h, env);
    if WentOn(o) {
      var items := FinishedItems(n, h, env.bytes);
      SayingPassage(h, env, o, items);
    }
  }

  lemma ServerEnds(n: Negotiated, h: Hs, env: Env)
    requires h.state.FinishServer?
    ensures ServerStepPasses(n, h, env, DoFinishServer(n, h, env))
  {
    hide Rank, Proceeds, PassageOf, Receive, ReceiveFinished, SayCertificate, SayHelloDone, SayServerFinished;
    var o := DoFinishServer(n, h, env);
    if WentOn(o) {
      QuietPassage(h, env, o);
    }
  }
}
