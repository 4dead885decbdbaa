/** The two handshake drivers with their mutable state. Each `Do` is one round
    of the switch in ssl_client_handshake or ssl_server_handshake, with the
    bodies of the `do_` functions in it. */
module TlsHandshake {
  import opened Wrappers
  import opened TlsHandshakeSpec
  import opened TlsHandshakeRuns

  /** What both sides share: messages from the peer, and messages for it. */
  class Connection {
    var input: Queue
    var output: Queue
    ghost var got: seq<Kind>

    constructor ()
      ensures input == Queue([], 0) && output == Queue([], 0) && got == []
    {
      input, output, got := Queue([], 0), Queue([], 0), [];
    }

    /** get_message: the handshake message at hand. */
    method GetMessage() returns (head: Option<Kind>)
      ensures head == Message(input)
    {
      if input.flushed > 0 && input.q != [] && input.q[0] != ChangeCipherSpec {
        return Some(input.q[0]);
      }
      return None;
    }

    /** next_message */
    method NextMessage()
      requires input.Head().Some?
      modifies this`input, this`got
      ensures input == old(input).Popped() && got == old(got) + [old(input).Head().value]
    {
      got := got + [input.q[0]];
      input := Queue(input.q[1..], input.flushed - 1);
    }

    /** add_message and add_change_cipher_spec */
    method Add(k: Kind)
      modifies this`output
      ensures output == old(output).Added([k])
    {
      output := Queue(output.q + [k], output.flushed);
    }

    method AddIf(b: bool, k: Kind)
      modifies this`output
      ensures output == old(output).Added(If(b, k))
    {
      if b {
        Add(k);
      }
      assert output.q + [] == output.q;
    }

    /** The waits that ssl_run_handshake resolves itself. */
    method ResolveWait(wait: Wait) returns (next: Wait)
      modifies this`input, this`got
      ensures var (wait', ccs) := Resolve(wait, old(input), output);
              && next == wait'
              && input == (if ccs then old(input).Popped() else old(input))
              && got == (if ccs then old(got) + Used(old(input).Head(), true) else old(got))
    {
      next := wait;
      match wait
      case Flush =>
        if output.flushed >= |output.q| {
          next := Ready;
        }
      case ReadMessage =>
        if input.flushed > 0 && input.q != [] {
          next := if input.q[0] == ChangeCipherSpec then Failed else Ready;
        }
      case ReadCcs =>
        if input.flushed > 0 && input.q != [] {
          if input.q[0] == ChangeCipherSpec {
            NextMessage();
            next := Ready;
          } else {
            next := Failed;
          }
        }
      case Paused => next := Ready;
      case _ =>
    }
  }

  lemma Unchanged(output: Queue, got: seq<Kind>)
    ensures output.Added([]) == output && got + [] == got
  {
    assert output.q + [] == output.q;
  }

  lemma MessageIsHead(input: Queue)
    ensures Message(input).Some? ==> input.Head() == Message(input)
  {
  }

  lemma AddedTwice(output: Queue, a: seq<Kind>, b: seq<Kind>)
    ensures output.Added(a).Added(b) == output.Added(a + b)
  {
    assert output.q + a + b == output.q + (a + b);
  }

  class ClientHandshake {
    const cfg: Setting
    const conn: Connection
    var state: ClientState
    var certRequested: bool
    var wait: Wait

    ghost function In(w: World): World
      reads this, conn
    {
      w.(c := Side(state, wait, certRequested), toServer := conn.output, toClient := conn.input, cGot := conn.got)
    }

    constructor (cfg: Setting)
      ensures this.cfg == cfg && In(Start()) == Start() && fresh(conn)
    {
      this.cfg, state, certRequested, wait := cfg, StartConnect, false, Ready;
      conn := new Connection();
    }

    /** A message that has to be of the given kind. */
    method Require(kind: Kind, next: ClientState)
      modifies this`state, this`wait, conn`input, conn`got
      ensures var o := Expect(old(state), Message(old(conn.input)), kind, next);
              && state == o.state && wait == o.wait
              && conn.input == (if o.consumes then old(conn.input).Popped() else old(conn.input))
              && conn.got == old(conn.got) + Used(Message(old(conn.input)), o.consumes)
    {
      var head := conn.GetMessage();
      wait := Ready;
      if head.None? {
        wait := ReadMessage;
      } else if head.value != kind {
        wait := Failed;
      } else {
        conn.NextMessage();
        state := next;
      }
      assert conn.got + [] == conn.got;
    }

    /** What one of the `do_` functions has done, in terms of ClientDo. */
    ghost predicate Did(was: ClientState, flag: bool, input: Queue, output: Queue, got: seq<Kind>, pause: bool)
      reads this, conn
    {
      var head := Message(input);
      var o := ClientDo(cfg, was, flag, head, pause);
      && state == o.state && wait == o.wait && conn.output == output.Added(o.adds)
      && conn.input == (if o.consumes then input.Popped() else input)
      && conn.got == got + Used(head, o.consumes)
      && certRequested == (flag || (was == ReadCertificateRequest && o.consumes))
    }

    /** Hello messages. */
    method DoHello(pause: bool)
      requires state.StartConnect? || state.EnterEarlyData? || state.ReadHelloVerifyRequest? || state.ReadServerHello?
      modifies this`state, this`wait, this`certRequested, conn
      ensures Did(old(state), old(certRequested), old(conn.input), old(conn.output), old(conn.got), pause)
    {
      hide Queue.Added, Queue.Popped, Queue.Head, Message;
      MessageIsHead(conn.input);
      Unchanged(conn.output, conn.got);
      wait := Ready;
      match state
      case StartConnect =>
        conn.Add(ClientHello);
        state, wait := EnterEarlyData, Flush;
      case EnterEarlyData =>
        state := if cfg.dtls then ReadHelloVerifyRequest else ReadServerHello;
      case ReadHelloVerifyRequest =>
        var head := conn.GetMessage();
        if head.None? {
          wait := ReadMessage;
        } else {
          if head.value == HelloVerifyRequest {
            conn.NextMessage();
            conn.Add(ClientHello);
            wait := Flush;
          }
          state := ReadServerHello;
        }
      case ReadServerHello =>
        Require(ServerHello, if cfg.resumed then ReadSessionTicket else ReadServerCertificate);
    }

    /** The server's certificate and its status. */
    method DoCertificate(pause: bool)
      requires state.ReadServerCertificate? || state.ReadCertificateStatus? || state.VerifyServerCertificate?
      modifies this`state, this`wait, this`certRequested, conn
      ensures Did(old(state), old(certRequested), old(conn.input), old(conn.output), old(conn.got), pause)
    {
      hide Queue.Added, Queue.Popped, Queue.Head, Message;
      MessageIsHead(conn.input);
      Unchanged(conn.output, conn.got);
      wait := Ready;
      match state
      case ReadServerCertificate =>
        if cfg.certAuth {
          Require(Certificate(false), ReadCertificateStatus);
        } else {
          state := ReadCertificateStatus;
        }
      case ReadCertificateStatus =>
        if cfg.status {
          var head := conn.GetMessage();
          if head.None? {
            wait := ReadMessage;
          } else {
            if head.value == CertificateStatus {
              conn.NextMessage();
            }
            state := VerifyServerCertificate;
          }
        } else {
          state := VerifyServerCertificate;
        }
      case VerifyServerCertificate =>
        if cfg.certAuth && pause {
          wait := Paused;
        } else {
          state := ReadServerKeyExchange;
        }
    }

    /** The rest of the server's first flight. */
    method DoServerFlight(pause: bool)
      requires state.ReadServerKeyExchange? || state.ReadCertificateRequest? || state.ReadServerHelloDone?
      modifies this`state, this`wait, this`certRequested, conn
      ensures Did(old(state), old(certRequested), old(conn.input), old(conn.output), old(conn.got), pause)
    {
      hide Queue.Added, Queue.Popped, Queue.Head, Message;
      MessageIsHead(conn.input);
      Unchanged(conn.output, conn.got);
      wait := Ready;
      match state
      case ReadServerKeyExchange =>
        var head := conn.GetMessage();
        if head.None? {
          wait := ReadMessage;
        } else if head.value != ServerKeyExchange {
          if cfg.skeRequired {
            wait := Failed;
          } else {
            state := ReadCertificateRequest;
          }
        } else {
          conn.NextMessage();
          state := ReadCertificateRequest;
        }
      case ReadCertificateRequest =>
        var head := conn.GetMessage();
        if !cfg.certAuth || head == Some(ServerHelloDone) {
          state := ReadServerHelloDone;
        } else {
          Require(CertificateRequest, ReadServerHelloDone);
          certRequested := certRequested || state == ReadServerHelloDone;
        }
      case ReadServerHelloDone =>
        Require(ServerHelloDone, SendClientCertificate);
    }

    /** The client's certificate and keys. */
    method DoKeys(pause: bool)
      requires state.SendClientCertificate? || state.SendClientKeyExchange? || state.SendClientCertificateVerify?
      modifies this`state, this`wait, this`certRequested, conn
      ensures Did(old(state), old(certRequested), old(conn.input), old(conn.output), old(conn.got), pause)
    {
      hide Queue.Added, Queue.Popped, Queue.Head, Message;
      MessageIsHead(conn.input);
      Unchanged(conn.output, conn.got);
      wait := Ready;
      match state
      case SendClientCertificate =>
        if certRequested && pause {
          wait := Paused;
        } else {
          conn.AddIf(certRequested, Certificate(!cfg.clientCert));
          state := SendClientKeyExchange;
        }
      case SendClientKeyExchange =>
        conn.Add(ClientKeyExchange);
        state := SendClientCertificateVerify;
      case SendClientCertificateVerify =>
        if certRequested && cfg.clientCert && pause {
          wait := Paused;
        } else {
          conn.AddIf(certRequested && cfg.clientCert, CertificateVerify);
          state := SendClientFinished;
        }
    }

    /** The client's last flight. */
    method DoLastFlight(pause: bool)
      requires state.SendClientFinished? || state.FinishFlight?
      modifies this`state, this`wait, this`certRequested, conn
      ensures Did(old(state), old(certRequested), old(conn.input), old(conn.output), old(conn.got), pause)
    {
      hide Queue.Added, Queue.Popped, Queue.Head, Message;
      MessageIsHead(conn.input);
      Unchanged(conn.output, conn.got);
      wait := Ready;
      match state
      case SendClientFinished =>
        if cfg.channelId && pause {
          wait := Paused;
        } else {
          SendFinished();
          state, wait := FinishFlight, Flush;
        }
      case FinishFlight =>
        if cfg.resumed {
          state := FinishClientHandshake;
        } else {
          state := ReadSessionTicket;
          wait := if pause then Paused else Ready;
        }
    }

    method DoReadTicket(pause: bool)
      requires state.ReadSessionTicket? && wait == Ready
      modifies this`state, this`wait, conn`input, conn`got
      ensures Did(old(state), old(certRequested), old(conn.input), old(conn.output), old(conn.got), pause)
    {
      hide Queue.Added, Queue.Popped, Queue.Head, Message;
      MessageIsHead(conn.input);
      Unchanged(conn.output, conn.got);
      if !cfg.ticket {
        state, wait := ClientProcessCcs, ReadCcs;
        return;
      }
      var head := conn.GetMessage();
      if head.None? {
        wait := ReadMessage;
      } else if head.value != NewSessionTicket {
        wait := Failed;
      } else {
        conn.NextMessage();
        state, wait := ClientProcessCcs, ReadCcs;
      }
    }

    /** The server's last flight and the end. */
    method DoFinish(pause: bool)
      requires state.ReadSessionTicket? || state.ClientProcessCcs? || state.ReadServerFinished? || state.FinishClientHandshake?
      modifies this`state, this`wait, this`certRequested, conn
      ensures Did(old(state), old(certRequested), old(conn.input), old(conn.output), old(conn.got), pause)
    {
      hide Queue.Added, Queue.Popped, Queue.Head, Message;
      MessageIsHead(conn.input);
      Unchanged(conn.output, conn.got);
      wait := Ready;
      match state
      case ReadSessionTicket => DoReadTicket(pause);
      case ClientProcessCcs => state := ReadServerFinished;
      case ReadServerFinished =>
        Require(Finished, if cfg.resumed then SendClientFinished else FinishClientHandshake);
      case FinishClientHandshake => state := ClientDone;
    }

    method Do(pause: bool)
      requires wait == Ready && state != ClientDone
      modifies this`state, this`wait, this`certRequested, conn
      ensures Did(old(state), old(certRequested), old(conn.input), old(conn.output), old(conn.got), pause)
    {
      hide Did;
      if state.StartConnect? || state.EnterEarlyData? || state.ReadHelloVerifyRequest? || state.ReadServerHello? {
        DoHello(pause);
      } else if state.ReadServerCertificate? || state.ReadCertificateStatus? || state.VerifyServerCertificate? {
        DoCertificate(pause);
      } else if state.ReadServerKeyExchange? || state.ReadCertificateRequest? || state.ReadServerHelloDone? {
        DoServerFlight(pause);
      } else if state.SendClientCertificate? || state.SendClientKeyExchange? || state.SendClientCertificateVerify? {
        DoKeys(pause);
      } else if state.SendClientFinished? || state.FinishFlight? {
        DoLastFlight(pause);
      } else {
        DoFinish(pause);
      }
    }

    method SendFinished()
      modifies conn`output
      ensures conn.output == old(conn.output).Added([ChangeCipherSpec] + If(cfg.npn, NextProto) + If(cfg.channelId, ChannelId) + [Finished])
    {
      conn.Add(ChangeCipherSpec);
      conn.AddIf(cfg.npn, NextProto);
      conn.AddIf(cfg.channelId, ChannelId);
      conn.Add(Finished);
    }

    /** `ssl_client_handshake`: goes on until it has to wait. */
    method Drive(pause: ClientState -> bool)
      requires wait == Ready
      modifies this`state, this`wait, this`certRequested, conn
      ensures forall w: World :: In(w) == ClientDrive(cfg, old(In(w)), pause)
      ensures forall w: World :: Inv(cfg, old(In(w))) ==> Inv(cfg, In(w))
      ensures wait == Ready ==> state == ClientDone
    {
      while state != ClientDone && wait == Ready
        invariant forall w: World :: ClientDrive(cfg, old(In(w)), pause) == ClientDrive(cfg, In(w), pause)
        decreases ClientRank(cfg.resumed, state), wait == Ready
      {
        ClientRankDecreases(cfg, state, certRequested, Message(conn.input), pause(state));
        Do(pause(state));
      }
      forall w: World | Inv(cfg, old(In(w))) ensures Inv(cfg, In(w)) {
        ClientDriveKeeps(cfg, old(In(w)), pause);
      }
    }

    /** One round of `ssl_run_handshake`: where the two sides agree it goes on
        and never fails. */
    method Continue(pause: ClientState -> bool)
      modifies this`state, this`wait, this`certRequested, conn
      ensures forall w: World :: In(w) == ClientContinue(cfg, old(In(w)), pause)
      ensures forall w: World :: Inv(cfg, old(In(w))) ==> Inv(cfg, In(w)) && wait != Failed
      ensures wait == Ready ==> state == ClientDone
    {
      hide Inv, ClientDrive, ClientMove, Resolve;
      if wait != Ready {
        wait := conn.ResolveWait(wait);
      }
      assert forall w: World :: In(w) == ClientResolved(cfg, old(In(w)));
      label resolved:
      if wait == Ready {
        Drive(pause);
      } else {
        forall w: World ensures ClientDrive(cfg, In(w), pause) == In(w) {
          ClientWaits(cfg, In(w), pause);
        }
      }
      forall w: World ensures In(w) == ClientContinue(cfg, old(In(w)), pause) {
        assert In(w) == ClientDrive(cfg, old@resolved(In(w)), pause);
        ClientContinues(cfg, old(In(w)), pause);
      }
      forall w: World | Inv(cfg, old(In(w))) ensures Inv(cfg, In(w)) && wait != Failed {
        ClientContinueKeeps(cfg, old(In(w)), pause);
        NobodyFails(cfg, In(w));
      }
    }
  }

  class ServerHandshake {
    const cfg: Setting
    const conn: Connection
    var state: ServerState
    // hs->peer_pubkey is set.
    var peerCert: bool
    var wait: Wait

    ghost function In(w: World): World
      reads this, conn
    {
      w.(s := Side(state, wait, peerCert), toClient := conn.output, toServer := conn.input, sGot := conn.got)
    }

    constructor (cfg: Setting)
      ensures this.cfg == cfg && In(Start()) == Start() && fresh(conn)
    {
      this.cfg, state, peerCert, wait := cfg, StartAccept, false, Ready;
      conn := new Connection();
    }

    method Require(kind: Kind, next: ServerState)
      modifies this`state, this`wait, conn`input, conn`got
      ensures var o := Expect(old(state), Message(old(conn.input)), kind, next);
              && state == o.state && wait == o.wait
              && conn.input == (if o.consumes then old(conn.input).Popped() else old(conn.input))
              && conn.got == old(conn.got) + Used(Message(old(conn.input)), o.consumes)
    {
      var head := conn.GetMessage();
      wait := Ready;
      if head.None? {
        wait := ReadMessage;
      } else if head.value != kind {
        wait := Failed;
      } else {
        conn.NextMessage();
        state := next;
      }
      assert conn.got + [] == conn.got;
    }

    /** What one of the `do_` functions has done, in terms of ServerDo. */
    ghost predicate Did(was: ServerState, flag: bool, input: Queue, output: Queue, got: seq<Kind>, pause: bool)
      reads this, conn
    {
      var head := Message(input);
      var o := ServerDo(cfg, was, flag, head, pause);
      && state == o.state && wait == o.wait && conn.output == output.Added(o.adds)
      && conn.input == (if o.consumes then input.Popped() else input)
      && conn.got == got + Used(head, o.consumes)
      && peerCert == (flag || (was == ReadClientCertificate && o.consumes && head == Some(Certificate(false))))
    }

    /** The client's hello; it stays at hand until the parameters are chosen. */
    method DoHello(pause: bool)
      requires state.StartAccept? || state.ReadClientHello? || state.SelectCertificate? || state.SelectParameters?
      modifies this`state, this`wait, this`peerCert, conn
      ensures Did(old(state), old(peerCert), old(conn.input), old(conn.output), old(conn.got), pause)
    {
      hide Queue.Added, Queue.Popped, Queue.Head, Message;
      MessageIsHead(conn.input);
      Unchanged(conn.output, conn.got);
      wait := Ready;
      if state == StartAccept {
        state := ReadClientHello;
        return;
      }
      var head := conn.GetMessage();
      if head.None? {
        wait := ReadMessage;
      } else if state == ReadClientHello && head.value != ClientHello {
        wait := Failed;
      } else if pause {
        wait := Paused;
      } else if state == ReadClientHello {
        state := SelectCertificate;
      } else if state == SelectCertificate {
        state := SelectParameters;
      } else {
        conn.NextMessage();
        state := SendServerHello;
      }
    }

    /** The server's first flight. */
    method DoFlight(pause: bool)
      requires state.SendServerHello? || state.SendServerCertificate?
      modifies this`state, this`wait, this`peerCert, conn
      ensures Did(old(state), old(peerCert), old(conn.input), old(conn.output), old(conn.got), pause)
    {
      hide Queue.Added, Queue.Popped, Queue.Head, Message;
      MessageIsHead(conn.input);
      Unchanged(conn.output, conn.got);
      wait := Ready;
      match state
      case SendServerHello =>
        conn.Add(ServerHello);
        state := if cfg.resumed then SendServerFinished else SendServerCertificate;
      case SendServerCertificate =>
        AddedTwice(conn.output, If(cfg.certAuth, Certificate(false)), If(cfg.certAuth && cfg.status, CertificateStatus));
        conn.AddIf(cfg.certAuth, Certificate(false));
        conn.AddIf(cfg.certAuth && cfg.status, CertificateStatus);
        state := SendServerKeyExchange;
    }

    /** The rest of it. */
    method DoKeyFlight(pause: bool)
      requires state.SendServerKeyExchange? || state.SendServerHelloDone?
      modifies this`state, this`wait, this`peerCert, conn
      ensures Did(old(state), old(peerCert), old(conn.input), old(conn.output), old(conn.got), pause)
    {
      hide Queue.Added, Queue.Popped, Queue.Head, Message;
      MessageIsHead(conn.input);
      Unchanged(conn.output, conn.got);
      wait := Ready;
      match state
      case SendServerKeyExchange =>
        if cfg.SendsKeyExchange() && cfg.certAuth && pause {
          wait := Paused;
        } else {
          conn.AddIf(cfg.SendsKeyExchange(), ServerKeyExchange);
          state := SendServerHelloDone;
        }
      case SendServerHelloDone =>
        AddedTwice(conn.output, If(cfg.RequestsCert(), CertificateRequest), [ServerHelloDone]);
        conn.AddIf(cfg.RequestsCert(), CertificateRequest);
        conn.Add(ServerHelloDone);
        state, wait := ReadClientCertificate, Flush;
    }

    /** The client's certificate and keys. */
    method DoKeys(pause: bool)
      requires state.ReadClientCertificate? || state.VerifyClientCertificate? || state.ReadClientKeyExchange? || state.ReadClientCertificateVerify?
      modifies this`state, this`wait, this`peerCert, conn
      ensures Did(old(state), old(peerCert), old(conn.input), old(conn.output), old(conn.got), pause)
    {
      hide Queue.Added, Queue.Popped, Queue.Head, Message;
      MessageIsHead(conn.input);
      Unchanged(conn.output, conn.got);
      wait := Ready;
      match state
      case ReadClientCertificate =>
        if cfg.RequestsCert() {
          var head := conn.GetMessage();
          if head.None? {
            wait := ReadMessage;
          } else if !head.value.Certificate? {
            wait := Failed;
          } else {
            conn.NextMessage();
            peerCert := peerCert || !head.value.empty;
            state := VerifyClientCertificate;
          }
        } else {
          state := VerifyClientCertificate;
        }
      case VerifyClientCertificate =>
        if peerCert && pause {
          wait := Paused;
        } else {
          state := ReadClientKeyExchange;
        }
      case ReadClientKeyExchange =>
        var head := conn.GetMessage();
        if head.Some? && head.value == ClientKeyExchange && pause {
          wait := Paused;
        } else {
          Require(ClientKeyExchange, ReadClientCertificateVerify);
        }
      case ReadClientCertificateVerify =>
        if peerCert {
          Require(CertificateVerify, ReadChangeCipherSpec);
        } else {
          state := ReadChangeCipherSpec;
        }
    }

    /** The client's ChangeCipherSpec. */
    method DoCcs(pause: bool)
      requires state.ReadChangeCipherSpec? || state.ServerProcessCcs?
      modifies this`state, this`wait, this`peerCert, conn
      ensures Did(old(state), old(peerCert), old(conn.input), old(conn.output), old(conn.got), pause)
    {
      hide Queue.Added, Queue.Popped, Queue.Head, Message;
      MessageIsHead(conn.input);
      Unchanged(conn.output, conn.got);
      wait := Ready;
      match state
      case ReadChangeCipherSpec => state, wait := ServerProcessCcs, ReadCcs;
      case ServerProcessCcs => state := ReadNextProto;
    }

    /** The rest of the client's last flight. */
    method DoLastFlight(pause: bool)
      requires state.ReadNextProto? || state.ReadChannelId? || state.ReadClientFinished?
      modifies this`state, this`wait, this`peerCert, conn
      ensures Did(old(state), old(peerCert), old(conn.input), old(conn.output), old(conn.got), pause)
    {
      hide Queue.Added, Queue.Popped, Queue.Head, Message;
      MessageIsHead(conn.input);
      Unchanged(conn.output, conn.got);
      wait := Ready;
      match state
      case ReadNextProto =>
        if cfg.npn {
          Require(NextProto, ReadChannelId);
        } else {
          state := ReadChannelId;
        }
      case ReadChannelId =>
        if cfg.channelId {
          Require(ChannelId, ReadClientFinished);
        } else {
          state := ReadClientFinished;
        }
      case ReadClientFinished =>
        Require(Finished, if cfg.resumed then FinishServerHandshake else SendServerFinished);
    }

    method DoFinish(pause: bool)
      requires state.SendServerFinished? || state.FinishServerHandshake?
      modifies this`state, this`wait, this`peerCert, conn
      ensures Did(old(state), old(peerCert), old(conn.input), old(conn.output), old(conn.got), pause)
    {
      hide Queue.Added, Queue.Popped, Queue.Head, Message;
      MessageIsHead(conn.input);
      Unchanged(conn.output, conn.got);
      wait := Ready;
      if state == FinishServerHandshake {
        state := ServerDone;
        return;
      }
      AddedTwice(conn.output, If(cfg.ticket, NewSessionTicket), [ChangeCipherSpec]);
      AddedTwice(conn.output, If(cfg.ticket, NewSessionTicket) + [ChangeCipherSpec], [Finished]);
      assert If(cfg.ticket, NewSessionTicket) + [ChangeCipherSpec] + [Finished] == If(cfg.ticket, NewSessionTicket) + [ChangeCipherSpec, Finished];
      conn.AddIf(cfg.ticket, NewSessionTicket);
      conn.Add(ChangeCipherSpec);
      conn.Add(Finished);
      state := if cfg.resumed then ReadChangeCipherSpec else FinishServerHandshake;
      wait := Flush;
    }

    method Do(pause: bool)
      requires wait == Ready && state != ServerDone
      modifies this`state, this`wait, this`peerCert, conn
      ensures Did(old(state), old(peerCert), old(conn.input), old(conn.output), old(conn.got), pause)
    {
      hide Did;
      if state.StartAccept? || state.ReadClientHello? || state.SelectCertificate? || state.SelectParameters? {
        DoHello(pause);
      } else if state.SendServerHello? || state.SendServerCertificate? {
        DoFlight(pause);
      } else if state.SendServerKeyExchange? || state.SendServerHelloDone? {
        DoKeyFlight(pause);
      } else if state.ReadClientCertificate? || state.VerifyClientCertificate? || state.ReadClientKeyExchange? || state.ReadClientCertificateVerify? {
        DoKeys(pause);
      } else if state.SendServerFinished? || state.FinishServerHandshake? {
        DoFinish(pause);
      } else if state.ReadChangeCipherSpec? || state.ServerProcessCcs? {
        DoCcs(pause);
      } else {
        DoLastFlight(pause);
      }
    }

    /** `ssl_server_handshake`: goes on until it has to wait. */
    method Drive(pause: ServerState -> bool)
      requires wait == Ready
      modifies this`state, this`wait, this`peerCert, conn
      ensures forall w: World :: In(w) == ServerDrive(cfg, old(In(w)), pause)
      ensures forall w: World :: Inv(cfg, old(In(w))) ==> Inv(cfg, In(w))
      ensures wait == Ready ==> state == ServerDone
    {
      while state != ServerDone && wait == Ready
        invariant forall w: World :: ServerDrive(cfg, old(In(w)), pause) == ServerDrive(cfg, In(w), pause)
        decreases ServerRank(cfg.resumed, state), wait == Ready
      {
        ServerRankDecreases(cfg, state, peerCert, Message(conn.input), pause(state));
        Do(pause(state));
      }
      forall w: World | Inv(cfg, old(In(w))) ensures Inv(cfg, In(w)) {
        ServerDriveKeeps(cfg, old(In(w)), pause);
      }
    }

    /** One round of `ssl_run_handshake`: where the two sides agree it goes on
        and never fails. */
    method Continue(pause: ServerState -> bool)
      modifies this`state, this`wait, this`peerCert, conn
      ensures forall w: World :: In(w) == ServerContinue(cfg, old(In(w)), pause)
      ensures forall w: World :: Inv(cfg, old(In(w))) ==> Inv(cfg, In(w)) && wait != Failed
      ensures wait == Ready ==> state == ServerDone
    {
      hide Inv, ServerDrive, ServerMove, Resolve;
      if wait != Ready {
        wait := conn.ResolveWait(wait);
      }
      assert forall w: World :: In(w) == ServerResolved(cfg, old(In(w)));
      label resolved:
      if wait == Ready {
        Drive(pause);
      } else {
        forall w: World ensures ServerDrive(cfg, In(w), pause) == In(w) {
          ServerWaits(cfg, In(w), pause);
        }
      }
      forall w: World ensures In(w) == ServerContinue(cfg, old(In(w)), pause) {
        assert In(w) == ServerDrive(cfg, old@resolved(In(w)), pause);
        ServerContinues(cfg, old(In(w)), pause);
      }
      forall w: World | Inv(cfg, old(In(w))) ensures Inv(cfg, In(w)) && wait != Failed {
        ServerContinueKeeps(cfg, old(In(w)), pause);
        NobodyFails(cfg, In(w));
      }
    }
  }

  // ---------------------------------------------------------------- what the drivers compute

  /** The loop of ssl_client_handshake. */
  function ClientDrive(cfg: Setting, w: World, pause: ClientState -> bool): World
    decreases ClientRank(cfg.resumed, w.c.state), w.c.wait == Ready
  {
    if w.c.wait != Ready || w.c.state == ClientDone then w
    else
      ClientRankDecreases(cfg, w.c.state, w.c.flag, Message(w.toClient), pause(w.c.state));
      ClientDrive(cfg, ClientMove(cfg, w, pause(w.c.state)), pause)
  }

  function ServerDrive(cfg: Setting, w: World, pause: ServerState -> bool): World
    decreases ServerRank(cfg.resumed, w.s.state), w.s.wait == Ready
  {
    if w.s.wait != Ready || w.s.state == ServerDone then w
    else
      ServerRankDecreases(cfg, w.s.state, w.s.flag, Message(w.toServer), pause(w.s.state));
      ServerDrive(cfg, ServerMove(cfg, w, pause(w.s.state)), pause)
  }

  function ClientContinue(cfg: Setting, w: World, pause: ClientState -> bool): World {
    ClientDrive(cfg, if w.c.wait != Ready then ClientMove(cfg, w, false) else w, pause)
  }

  function ServerContinue(cfg: Setting, w: World, pause: ServerState -> bool): World {
    ServerDrive(cfg, if w.s.wait != Ready then ServerMove(cfg, w, false) else w, pause)
  }

  /** Running a driver keeps the invariant, so that it never fails either. */
  lemma {:induction false} ClientDriveKeeps(cfg: Setting, w: World, pause: ClientState -> bool)
    requires Inv(cfg, w)
    ensures Inv(cfg, ClientDrive(cfg, w, pause))
    decreases ClientRank(cfg.resumed, w.c.state), w.c.wait == Ready
  {
    hide Inv;
    if w.c.wait == Ready && w.c.state != ClientDone {
      ClientRankDecreases(cfg, w.c.state, w.c.flag, Message(w.toClient), pause(w.c.state));
      ClientMoveKeeps(cfg, w, pause(w.c.state));
      ClientDriveKeeps(cfg, ClientMove(cfg, w, pause(w.c.state)), pause);
    }
  }

  lemma {:induction false} ServerDriveKeeps(cfg: Setting, w: World, pause: ServerState -> bool)
    requires Inv(cfg, w)
    ensures Inv(cfg, ServerDrive(cfg, w, pause))
    decreases ServerRank(cfg.resumed, w.s.state), w.s.wait == Ready
  {
    hide Inv;
    if w.s.wait == Ready && w.s.state != ServerDone {
      ServerRankDecreases(cfg, w.s.state, w.s.flag, Message(w.toServer), pause(w.s.state));
      ServerMoveKeeps(cfg, w, pause(w.s.state));
      ServerDriveKeeps(cfg, ServerMove(cfg, w, pause(w.s.state)), pause);
    }
  }

  /** What the client waits for, resolved once. */
  function ClientResolved(cfg: Setting, w: World): World {
    var (wait, ccs) := Resolve(w.c.wait, w.toClient, w.toServer);
    if w.c.wait == Ready then w
    else if ccs then w.(c := w.c.(wait := wait), toClient := w.toClient.Popped(), cGot := w.cGot + Used(w.toClient.Head(), true))
    else w.(c := w.c.(wait := wait))
  }

  lemma ClientContinues(cfg: Setting, w: World, pause: ClientState -> bool)
    ensures ClientContinue(cfg, w, pause) == ClientDrive(cfg, ClientResolved(cfg, w), pause)
  {
    hide Resolve, ClientDo, ClientDrive;
  }

  lemma ClientWaits(cfg: Setting, w: World, pause: ClientState -> bool)
    requires w.c.wait != Ready
    ensures ClientDrive(cfg, w, pause) == w
  {
  }

  lemma ClientContinueKeeps(cfg: Setting, w: World, pause: ClientState -> bool)
    requires Inv(cfg, w)
    ensures Inv(cfg, ClientContinue(cfg, w, pause))
  {
    hide Inv;
    if w.c.wait != Ready {
      ClientMoveKeeps(cfg, w, false);
    }
    ClientDriveKeeps(cfg, if w.c.wait != Ready then ClientMove(cfg, w, false) else w, pause);
  }

  /** What the server waits for, resolved once. */
  function ServerResolved(cfg: Setting, w: World): World {
    var (wait, ccs) := Resolve(w.s.wait, w.toServer, w.toClient);
    if w.s.wait == Ready then w
    else if ccs then w.(s := w.s.(wait := wait), toServer := w.toServer.Popped(), sGot := w.sGot + Used(w.toServer.Head(), true))
    else w.(s := w.s.(wait := wait))
  }

  lemma ServerContinues(cfg: Setting, w: World, pause: ServerState -> bool)
    ensures ServerContinue(cfg, w, pause) == ServerDrive(cfg, ServerResolved(cfg, w), pause)
  {
    hide Resolve, ServerDo, ServerDrive;
  }

  lemma ServerWaits(cfg: Setting, w: World, pause: ServerState -> bool)
    requires w.s.wait != Ready
    ensures ServerDrive(cfg, w, pause) == w
  {
  }

  lemma ServerContinueKeeps(cfg: Setting, w: World, pause: ServerState -> bool)
    requires Inv(cfg, w)
    ensures Inv(cfg, ServerContinue(cfg, w, pause))
  {
    hide Inv;
    if w.s.wait != Ready {
      ServerMoveKeeps(cfg, w, false);
    }
    ServerDriveKeeps(cfg, if w.s.wait != Ready then ServerMove(cfg, w, false) else w, pause);
  }

  lemma NobodyFails(cfg: Setting, w: World)
    requires Inv(cfg, w)
    ensures w.c.wait != Failed && w.s.wait != Failed
  {
  }

  // ---------------------------------------------------------------- two drivers and a connection

  /** One side's handshake is called, or some of what it has added goes out. */
  datatype Turn =
    | ClientCalled(clientPause: ClientState -> bool)
    | ServerCalled(serverPause: ServerState -> bool)
    | ClientSends(n: nat)
    | ServerSends(n: nat)

  function Take(cfg: Setting, w: World, t: Turn): World {
    match t
    case ClientCalled(pause) => ClientContinue(cfg, w, pause)
    case ServerCalled(pause) => ServerContinue(cfg, w, pause)
    case ClientSends(n) => w.(toServer := Flushed(w.toServer, n))
    case ServerSends(n) => w.(toClient := Flushed(w.toClient, n))
  }

  lemma TakeKeeps(cfg: Setting, w: World, t: Turn)
    requires Inv(cfg, w)
    ensures Inv(cfg, Take(cfg, w, t))
  {
    hide Inv;
    match t
    case ClientCalled(pause) => ClientContinueKeeps(cfg, w, pause);
    case ServerCalled(pause) => ServerContinueKeeps(cfg, w, pause);
    case ClientSends(n) => FlushKeeps(cfg, w, w.toClient, Flushed(w.toServer, n));
    case ServerSends(n) => FlushKeeps(cfg, w, Flushed(w.toClient, n), w.toServer);
  }

  function TakeAll(cfg: Setting, w: World, ts: seq<Turn>): World
    decreases |ts|
  {
    if ts == [] then w else Take(cfg, TakeAll(cfg, w, ts[..|ts| - 1]), ts[|ts| - 1])
  }

  /** Both handshakes as one world; what one adds is what the other reads. */
  ghost predicate Linked(c: ClientHandshake, s: ServerHandshake)
    reads c, s, c.conn, s.conn
  {
    c.cfg == s.cfg && c.conn != s.conn && c.conn.output == s.conn.input && s.conn.output == c.conn.input
  }

  ghost function Joint(c: ClientHandshake, s: ServerHandshake): World
    reads c, s, c.conn, s.conn
  {
    World(Side(c.state, c.wait, c.certRequested), Side(s.state, s.wait, s.peerCert), c.conn.output, s.conn.output, c.conn.got, s.conn.got)
  }

  /** Two handshakes run against each other, called in any order with callbacks
      ready or not, over a connection that takes any part of what is added. They
      keep to the script: neither ever fails; one that is done has used up all
      that the other sends and sent all of its own; and when nothing is left to
      flush and neither can go on, both are done. */
  method Converse(c: ClientHandshake, s: ServerHandshake, ts: seq<Turn>)
    requires Linked(c, s) && Inv(c.cfg, Joint(c, s))
    modifies c, s, c.conn, s.conn
    ensures Linked(c, s) && Joint(c, s) == TakeAll(c.cfg, old(Joint(c, s)), ts) && Inv(c.cfg, Joint(c, s))
    ensures c.wait != Failed && s.wait != Failed
    ensures c.state == ClientDone ==> ClientComplete(c.cfg, Joint(c, s))
    ensures s.state == ServerDone ==> ServerComplete(c.cfg, Joint(c, s))
    ensures ClientStuck(Joint(c, s)) && ServerStuck(Joint(c, s)) && AllFlushed(Joint(c, s)) ==> c.state == ClientDone && s.state == ServerDone
  {
    hide Inv, ClientContinue, ServerContinue;
    ghost var start := Joint(c, s);
    for i := 0 to |ts|
      invariant Linked(c, s) && Joint(c, s) == TakeAll(c.cfg, start, ts[..i]) && Inv(c.cfg, Joint(c, s))
    {
      TakeKeeps(c.cfg, Joint(c, s), ts[i]);
      TakeTurn(c, s, ts[i]);
      assert ts[..i + 1][..i] == ts[..i];
    }
    assert ts[..|ts|] == ts;
    NobodyFails(c.cfg, Joint(c, s));
    DoneIsComplete(c.cfg, Joint(c, s));
    if ClientStuck(Joint(c, s)) && ServerStuck(Joint(c, s)) && AllFlushed(Joint(c, s)) {
      StuckIsDone(c.cfg, Joint(c, s));
    }
  }

  method TakeTurn(c: ClientHandshake, s: ServerHandshake, t: Turn)
    requires Linked(c, s)
    modifies c, s, c.conn, s.conn
    ensures Linked(c, s) && Joint(c, s) == Take(c.cfg, old(Joint(c, s)), t)
  {
    hide Inv, ClientContinue, ServerContinue;
    ghost var w := Joint(c, s);
    match t
    case ClientCalled(pause) =>
      assert c.In(w) == w;
      c.Continue(pause);
      assert c.In(w) == ClientContinue(c.cfg, w, pause);
      s.conn.input, s.conn.output := c.conn.output, c.conn.input;
    case ServerCalled(pause) =>
      assert s.In(w) == w;
      s.Continue(pause);
      assert s.In(w) == ServerContinue(c.cfg, w, pause);
      c.conn.input, c.conn.output := s.conn.output, s.conn.input;
    case ClientSends(n) =>
      c.conn.output := Flushed(c.conn.output, n);
      s.conn.input := c.conn.output;
    case ServerSends(n) =>
      s.conn.output := Flushed(s.conn.output, n);
      c.conn.input := s.conn.output;
  }

  /** The same from the start. */
  method Handshakes(cfg: Setting, ts: seq<Turn>) returns (c: ClientHandshake, s: ServerHandshake)
    ensures fresh(c) && fresh(s) && fresh(c.conn) && fresh(s.conn)
    ensures c.cfg == cfg && Linked(c, s) && Joint(c, s) == TakeAll(cfg, Start(), ts)
    ensures c.wait != Failed && s.wait != Failed
    ensures c.state == ClientDone ==> ClientComplete(cfg, Joint(c, s))
    ensures s.state == ServerDone ==> ServerComplete(cfg, Joint(c, s))
    ensures ClientStuck(Joint(c, s)) && ServerStuck(Joint(c, s)) && AllFlushed(Joint(c, s)) ==> c.state == ClientDone && s.state == ServerDone
  {
    hide Inv;
    c := new ClientHandshake(cfg);
    s := new ServerHandshake(cfg);
    StartInv(cfg);
    assert c.In(Start()) == Start() && s.In(Start()) == Start();
    assert Joint(c, s) == Start();
    Converse(c, s, ts);
  }
}
