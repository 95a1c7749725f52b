/** The handshake on the heap: SSL_HANDSHAKE's fields and the operations every step is made of. */
module TlsState {
  import opened Common
  import opened TlsHandshake

  class Handshake {
    var state: State
    var wait: Wait
    var transcript: seq<Message>
    var queue: seq<Message>
    var flight: seq<Item>
    var writeKeys: bool
    var readKeys: bool
    var learned: bool
    ghost var finishedSent: seq<bool>
    ghost var finishedRead: seq<bool>

    /** The handshake as a value. */
    ghost function View(): Hs
      reads this
    {
      Hs(state, wait, transcript, queue, flight, writeKeys, readKeys, learned, finishedSent, finishedRead)
    }

    constructor (state: State)
      ensures View() == Initial(state)
    {
      this.state, wait := state, Ok;
      transcript, queue, flight := [], [], [];
      writeKeys, readKeys, learned := false, false, false;
      finishedSent, finishedRead := [], [];
    }

    /** get_message: the message is the one that HashAndRelease will hash, and it stays until then. */
    method GetMessage() returns (m: Option<Message>)
      ensures m.None? <==> queue == []
      ensures m.Some? ==> m.value == queue[0] && Take(View()).transcript == transcript + [m.value]
    {
      if queue == [] {
        return None;
      }
      return Some(queue[0]);
    }

    /** ssl_hash_message and next_message. */
    method HashAndRelease()
      requires queue != []
      modifies this`transcript, this`queue
      ensures View() == Take(old(View()))
    {
      transcript := transcript + [queue[0]];
      queue := queue[1..];
    }

    /** init_message, the body and ssl_add_message_cbb. */
    method AddMessage(kind: Kind, body: Body)
      modifies this`transcript, this`flight
      ensures View() == Say(old(View()), kind, body)
    {
      var m := Message(kind, body);
      transcript := transcript + [m];
      flight := flight + [Carry(m, writeKeys)];
    }

    /** add_change_cipher_spec and tls1_change_cipher_state for writing. */
    method ChangeWriteKeys()
      modifies this`flight, this`writeKeys
      ensures View() == SayCcs(old(View()))
    {
      flight := flight + [ChangeCipherSpec];
      writeKeys := true;
    }

    /** ssl_send_finished. */
    method SendFinished(byServer: bool)
      modifies this`transcript, this`flight, this`finishedSent
      ensures View() == SayFinished(old(View()), byServer)
    {
      AddMessage(Finished, Mac(byServer, transcript));
      finishedSent := finishedSent + [writeKeys];
    }

    /** A message of one kind is read, checked, hashed and released. */
    method ReadKind(kind: Kind, env: Env, next: State) returns (w: Wait)
      modifies this`state, this`transcript, this`queue
      ensures Outcome(View(), w) == Receive(old(View()), kind, env, next)
    {
      var m := GetMessage();
      if m.None? {
        return ReadMessage;
      }
      if m.value.kind != kind || env.fate.Fail? {
        return Error;
      }
      HashAndRelease();
      state := next;
      return Ok;
    }

    /** ssl_get_finished: the expected MAC is computed before the message is hashed. */
    method GetFinished(byServer: bool, env: Env, next: State) returns (w: Wait)
      modifies this`state, this`transcript, this`queue, this`finishedRead
      ensures Outcome(View(), w) == ReceiveFinished(old(View()), byServer, env, next)
    {
      var m := GetMessage();
      if m.None? {
        return ReadMessage;
      }
      if m.value.kind != Finished || env.fate.Fail? {
        return Error;
      }
      var finished := Mac(byServer, transcript);
      transcript := transcript + [m.value];
      assert View() == Take(old(View())).(queue := queue);
      if m.value.body != finished {
        return Error;
      }
      finishedRead := finishedRead + [readKeys];
      queue := queue[1..];
      state := next;
      assert View() == Take(old(View())).(finishedRead := finishedRead, state := next);
      return Ok;
    }

    /** tls1_change_cipher_state for reading. */
    method ChangeKeysForReading(env: Env, next: State) returns (w: Wait)
      modifies this`state, this`readKeys
      ensures Outcome(View(), w) == ChangeReadKeys(old(View()), env, next)
    {
      if queue != [] || env.fate.Fail? {
        return Error;
      }
      readKeys := true;
      state := next;
      return Ok;
    }
  }

  /** One direction of the connection. */
  class Channel {
    var items: seq<Item>

    constructor ()
      ensures items == []
    {
      items := [];
    }
  }

  /** Resolving what a handshake waits for, as ssl_run_handshake does before it runs the machine again. */
  method ResolveWait(hs: Handshake, incoming: Channel, outgoing: Channel) returns (moved: bool)
    requires incoming != outgoing
    modifies hs, incoming, outgoing
    ensures var r := Resolve(old(hs.View()), old(incoming.items));
            && (moved <==> r.Some?)
            && (moved ==> hs.View() == r.value.h && incoming.items == r.value.incoming
                          && outgoing.items == old(outgoing.items) + r.value.sent)
            && (!moved ==> hs.View() == old(hs.View()) && incoming.items == old(incoming.items)
                           && outgoing.items == old(outgoing.items))
  {
    moved := true;
    match hs.wait
    case Flush =>
      outgoing.items := outgoing.items + hs.flight;
      hs.flight := [];
      hs.wait := Ok;
    case Suspended =>
      hs.wait := Ok;
    case ReadMessage =>
      if incoming.items == [] {
        return false;
      }
      var item := incoming.items[0];
      incoming.items := incoming.items[1..];
      if item.Carry? && item.newKeys == hs.readKeys && hs.queue == [] {
        hs.queue := [item.m];
        hs.wait := Ok;
      } else {
        hs.wait := Error;
      }
    case ReadCcs =>
      if incoming.items == [] {
        return false;
      }
      hs.wait := if incoming.items[0].ChangeCipherSpec? then Ok else Error;
      incoming.items := incoming.items[1..];
    case _ =>
      moved := false;
  }
}
