/** What each side has sent, told from what it has received: against a peer that
    may send anything, and in particular when a server makes the choices that
    are left to it. A client takes all of them. */
module TlsHandshakeChoices {
  import opened Wrappers
  import opened TlsHandshakeSpec
  import opened TlsDuality
  import opened TlsHandshakeRuns
  import opened TlsHandshakeAlone

  // ---------------------------------------------------------------- what a client sends

  /** The hello, and once more behind a HelloVerifyRequest. */
  function Hellos(verify: bool): seq<Kind> {
    [ClientHello] + If(verify, ClientHello)
  }

  /** The flight of a full handshake: a certificate, be it empty, exactly if one
      was asked for, and a CertificateVerify exactly if it is not empty. */
  function Keys(cfg: Setting, request: bool): seq<Kind> {
    If(request, Certificate(!cfg.clientCert)) + [ClientKeyExchange] + If(request && cfg.clientCert, CertificateVerify)
  }

  function Last(cfg: Setting): seq<Kind> {
    [ChangeCipherSpec] + If(cfg.npn, NextProto) + If(cfg.channelId, ChannelId) + [Finished]
  }

  /** All that a client sends, by what it was asked for. */
  function ClientSays(cfg: Setting, verify: bool, request: bool): seq<Kind> {
    Hellos(verify) + (if cfg.resumed then [] else Keys(cfg, request)) + Last(cfg)
  }

  /** What it has sent when it comes to a state. */
  function ClientSent(cfg: Setting, st: ClientState, verify: bool, request: bool): seq<Kind> {
    match st
    case StartConnect => []
    case EnterEarlyData => [ClientHello]
    case ReadHelloVerifyRequest => [ClientHello]
    case SendClientKeyExchange => Hellos(verify) + If(request, Certificate(!cfg.clientCert))
    case SendClientCertificateVerify => Hellos(verify) + If(request, Certificate(!cfg.clientCert)) + [ClientKeyExchange]
    case SendClientFinished => Hellos(verify) + if cfg.resumed then [] else Keys(cfg, request)
    case FinishFlight => ClientSays(cfg, verify, request)
    case ReadSessionTicket => if cfg.resumed then Hellos(verify) else ClientSays(cfg, verify, request)
    case ClientProcessCcs => if cfg.resumed then Hellos(verify) else ClientSays(cfg, verify, request)
    case ReadServerFinished => if cfg.resumed then Hellos(verify) else ClientSays(cfg, verify, request)
    case FinishClientHandshake => ClientSays(cfg, verify, request)
    case ClientDone => ClientSays(cfg, verify, request)
    case _ => Hellos(verify)
  }

  /** What has been read so far that bears on what is sent. */
  ghost predicate ClientHeard(cfg: Setting, c: Side<ClientState>, got: seq<Kind>) {
    && ClientMode(cfg, c.state)
    && (c.flag <==> CertificateRequest in got)
    && (ChoicesMade(c.state) == 0 ==> got == [])
    && (ChoicesMade(c.state) < 4 ==> !c.flag)
  }

  ghost predicate ClientSpeaks(cfg: Setting, w: World) {
    && ClientHeard(cfg, w.c, w.cGot)
    && w.toServer.q == ClientSent(cfg, w.c.state, HelloVerifyRequest in w.cGot, w.c.flag)
  }

  predicate Helloing(st: ClientState) {
    st.StartConnect? || st.EnterEarlyData? || st.ReadHelloVerifyRequest?
  }

  predicate SendingKeys(st: ClientState) {
    st.SendClientCertificate? || st.SendClientKeyExchange? || st.SendClientCertificateVerify? || st.SendClientFinished?
  }

  /** What has been sent before and after one step. */
  ghost predicate Adds(cfg: Setting, st: ClientState, flag: bool, verify: bool, head: Option<Kind>, o: Outcome<ClientState>) {
    var flag' := flag || (st == ReadCertificateRequest && o.consumes);
    var verify' := verify || (o.consumes && head == Some(HelloVerifyRequest));
    ClientSent(cfg, o.state, verify', flag') == ClientSent(cfg, st, verify, flag) + o.adds && ClientMode(cfg, o.state)
  }

  lemma HelloAdds(cfg: Setting, st: ClientState, flag: bool, head: Option<Kind>, pause: bool)
    requires Helloing(st)
    ensures var o := ClientDo(cfg, st, flag, head, pause);
            match st
            case StartConnect => o.state == EnterEarlyData && o.adds == [ClientHello] && !o.consumes
            case EnterEarlyData => (o.state == ReadHelloVerifyRequest || o.state == ReadServerHello) && o.adds == [] && !o.consumes
            case _ =>
              || (o.state == st && o.adds == [] && !o.consumes)
              || (o.state == ReadServerHello && o.adds == If(o.consumes, ClientHello) && (o.consumes ==> head == Some(HelloVerifyRequest)))
  {
  }

  lemma HelloSends(cfg: Setting, st: ClientState, flag: bool, head: Option<Kind>, pause: bool)
    requires Helloing(st) && !flag
    ensures Adds(cfg, st, flag, false, head, ClientDo(cfg, st, flag, head, pause))
  {
    hide ClientDo, ClientSent, ClientMode, If;
    HelloAdds(cfg, st, flag, head, pause);
    HellosGrow(cfg, ClientDo(cfg, st, flag, head, pause).consumes);
    HelloModes(cfg);
    NoHello();
    var sent := ClientSent(cfg, st, false, false);
    assert sent + [] == sent && [] + [ClientHello] == [ClientHello];
  }

  lemma HellosGrow(cfg: Setting, b: bool)
    ensures ClientSent(cfg, StartConnect, false, false) == [] && ClientSent(cfg, EnterEarlyData, false, false) == [ClientHello]
    ensures ClientSent(cfg, ReadHelloVerifyRequest, false, false) == [ClientHello]
    ensures ClientSent(cfg, ReadServerHello, b, false) == Hellos(b)
  {
    hide Hellos, If, Keys, Last, ClientSays;
  }

  lemma HelloModes(cfg: Setting)
    ensures ClientMode(cfg, EnterEarlyData) && ClientMode(cfg, ReadHelloVerifyRequest) && ClientMode(cfg, ReadServerHello) && ClientMode(cfg, StartConnect)
  {
  }

  lemma NoHello()
    ensures If(false, ClientHello) == []
  {
  }

  function KeyAddsNow(cfg: Setting, st: ClientState, request: bool): seq<Kind> {
    match st
    case SendClientCertificate => If(request, Certificate(!cfg.clientCert))
    case SendClientKeyExchange => [ClientKeyExchange]
    case SendClientCertificateVerify => If(request && cfg.clientCert, CertificateVerify)
    case _ => Last(cfg)
  }

  lemma KeyAdds(cfg: Setting, st: ClientState, flag: bool, head: Option<Kind>, pause: bool)
    requires SendingKeys(st)
    ensures var o := ClientDo(cfg, st, flag, head, pause);
            && !o.consumes
            && if o.state == st then o.adds == [] else o.state == ClientNext(cfg, st) && o.adds == KeyAddsNow(cfg, st, flag)
  {
  }

  lemma KeysGrow(cfg: Setting, st: ClientState, verify: bool, request: bool)
    requires SendingKeys(st) && ClientMode(cfg, st)
    ensures ClientSent(cfg, ClientNext(cfg, st), verify, request) == ClientSent(cfg, st, verify, request) + KeyAddsNow(cfg, st, request)
    ensures ClientMode(cfg, ClientNext(cfg, st))
  {
    hide Hellos, Last, If;
    if st == SendClientCertificateVerify {
      var h, c, v := Hellos(verify), If(request, Certificate(!cfg.clientCert)), If(request && cfg.clientCert, CertificateVerify);
      assert h + c + [ClientKeyExchange] + v == h + (c + [ClientKeyExchange] + v);
    }
  }

  lemma KeysSend(cfg: Setting, st: ClientState, flag: bool, verify: bool, head: Option<Kind>, pause: bool)
    requires SendingKeys(st) && ClientMode(cfg, st)
    ensures Adds(cfg, st, flag, verify, head, ClientDo(cfg, st, flag, head, pause))
  {
    hide ClientSent, ClientDo, ClientMode, KeyAddsNow, ClientNext;
    KeyAdds(cfg, st, flag, head, pause);
    KeysGrow(cfg, st, verify, flag);
    var sent := ClientSent(cfg, st, verify, flag);
    assert sent + [] == sent;
  }

  lemma OthersAdd(cfg: Setting, st: ClientState, flag: bool, head: Option<Kind>, pause: bool)
    requires !Helloing(st) && !SendingKeys(st) && st != ClientDone
    ensures var o := ClientDo(cfg, st, flag, head, pause);
            o.adds == [] && !(o.consumes && head == Some(HelloVerifyRequest)) && (o.state == ClientNext(cfg, st) || (o.state == st && !o.consumes))
  {
  }

  lemma SentStays(cfg: Setting, st: ClientState, flag: bool, verify: bool, asked: bool)
    requires !Helloing(st) && !SendingKeys(st) && st != ClientDone && ClientMode(cfg, st)
    requires st != ReadCertificateRequest ==> asked == flag
    ensures ClientMode(cfg, ClientNext(cfg, st))
    ensures ClientSent(cfg, ClientNext(cfg, st), verify, asked) == ClientSent(cfg, st, verify, flag)
  {
    hide Hellos, Last, If, Keys, ClientSays;
    SaysResumed(cfg, verify, flag);
  }

  lemma SaysResumed(cfg: Setting, verify: bool, request: bool)
    ensures !cfg.resumed ==> ClientSays(cfg, verify, request) == Hellos(verify) + Keys(cfg, request) + Last(cfg)
  {
  }

  /** One step adds what is due by the state it leads to. */
  lemma ClientStepSends(cfg: Setting, st: ClientState, flag: bool, verify: bool, head: Option<Kind>, pause: bool)
    requires st != ClientDone && ClientMode(cfg, st)
    requires ChoicesMade(st) == 0 ==> !verify
    requires ChoicesMade(st) < 4 ==> !flag
    ensures Adds(cfg, st, flag, verify, head, ClientDo(cfg, st, flag, head, pause))
  {
    hide ClientDo, ClientSent, ClientMode, ChoicesMade;
    ChoicesByState(st);
    if Helloing(st) {
      HelloSends(cfg, st, flag, head, pause);
    } else if SendingKeys(st) {
      KeysSend(cfg, st, flag, verify, head, pause);
    } else {
      OthersAdd(cfg, st, flag, head, pause);
      SentStays(cfg, st, flag, verify, flag || (st == ReadCertificateRequest && ClientDo(cfg, st, flag, head, pause).consumes));
      var sent := ClientSent(cfg, st, verify, flag);
      assert sent + [] == sent;
    }
  }

  lemma ChoicesByState(st: ClientState)
    ensures ChoicesMade(st) == 0 <==> Helloing(st)
  {
  }

  /** What a step reads, as far as that matters. */
  lemma ClientStepHears(cfg: Setting, st: ClientState, flag: bool, head: Option<Kind>, pause: bool)
    requires st != ClientDone
    ensures var o := ClientDo(cfg, st, flag, head, pause);
            && (o.consumes && head == Some(CertificateRequest) <==> st == ReadCertificateRequest && o.consumes)
            && (o.state == st ==> !o.consumes) && (o.consumes ==> head.Some?)
  {
  }

  lemma ChoicesGrow(cfg: Setting, st: ClientState, flag: bool, head: Option<Kind>, pause: bool)
    requires st != ClientDone
    ensures var o := ClientDo(cfg, st, flag, head, pause);
            && (o.state != st && ChoicesMade(o.state) == 0 ==> !o.consumes)
            && ChoicesMade(st) <= ChoicesMade(o.state)
            && (ChoicesMade(o.state) < 4 ==> st != ReadCertificateRequest || o.state == st)
  {
    hide ClientDo, ChoicesMade;
    if Helloing(st) {
      HelloAdds(cfg, st, flag, head, pause);
    } else if SendingKeys(st) {
      KeyAdds(cfg, st, flag, head, pause);
    } else {
      OthersAdd(cfg, st, flag, head, pause);
    }
    ChoicesByState(st);
    NextChoices(cfg, st);
  }

  lemma NextChoices(cfg: Setting, st: ClientState)
    ensures ChoicesMade(ReadHelloVerifyRequest) == 0 && ChoicesMade(EnterEarlyData) == 0 && ChoicesMade(ReadServerHello) == 1
    ensures ChoicesMade(st) <= ChoicesMade(ClientNext(cfg, st))
    ensures !Helloing(st) ==> ChoicesMade(ClientNext(cfg, st)) > 0
    ensures ChoicesMade(ClientNext(cfg, ReadCertificateRequest)) == 4
  {
  }

  lemma ClientMoveSpeaks(cfg: Setting, w: World, pause: bool)
    requires ClientSpeaks(cfg, w) && CcsWaits(w.c)
    ensures ClientSpeaks(cfg, ClientMove(cfg, w, pause))
  {
    hide ClientDo, ClientSent, ChoicesMade, ClientMode;
    if w.c.wait != Ready {
      if w.c.wait == ReadCcs {
        AfterTheChoices();
      }
    } else if w.c.state != ClientDone {
      var st, head, verify := w.c.state, Message(w.toClient), HelloVerifyRequest in w.cGot;
      ClientStepSends(cfg, st, w.c.flag, verify, head, pause);
      ClientStepHears(cfg, st, w.c.flag, head, pause);
      ChoicesGrow(cfg, st, w.c.flag, head, pause);
    }
  }

  lemma AfterTheChoices()
    ensures ChoicesMade(ClientProcessCcs) == 4
  {
  }

  /** Whatever the peer sends, what a client has sent is told by its state, and
      by whether it was asked for a second hello and for a certificate. */
  lemma {:induction false} ClientSpeaksAlways(cfg: Setting, mvs: seq<AloneMove>, ws: seq<World>, n: nat)
    requires IsClientAlone(cfg, mvs, ws) && n <= |mvs|
    ensures ClientSpeaks(cfg, ws[n])
  {
    hide ClientMove, ClientSpeaks, ClientFollows;
    if n == 0 {
      ClientSpeaksFirst(cfg);
    } else {
      ClientSpeaksAlways(cfg, mvs, ws, n - 1);
      ClientFollowsAlways(cfg, mvs, ws, n - 1);
      var w := ws[n - 1];
      assert CcsWaits(w.c) by { FollowsWaits(cfg, w); }
      if mvs[n - 1].Runs? {
        ClientMoveSpeaks(cfg, w, mvs[n - 1].pause);
      } else {
        OthersAddNothing(cfg, w, mvs[n - 1]);
      }
    }
  }

  lemma ClientSpeaksFirst(cfg: Setting)
    ensures ClientSpeaks(cfg, Start())
  {
  }

  lemma OthersAddNothing(cfg: Setting, w: World, mv: AloneMove)
    requires ClientSpeaks(cfg, w) && !mv.Runs?
    ensures ClientSpeaks(cfg, ClientAlone(cfg, w, mv))
  {
    hide ClientSent, ClientMode, ChoicesMade;
  }

  lemma FollowsWaits(cfg: Setting, w: World)
    requires ClientFollows(cfg, w.c, w.cGot)
    ensures CcsWaits(w.c)
  {
  }

  /** A client that comes to its end has said a second hello exactly if it was sent
      a HelloVerifyRequest, and has sent a certificate exactly if it was asked
      for one. */
  lemma ClientSaysExactly(cfg: Setting, mvs: seq<AloneMove>, ws: seq<World>, n: nat)
    requires IsClientAlone(cfg, mvs, ws) && n <= |mvs| && ws[n].c.state == ClientDone
    ensures ws[n].toServer.q == ClientSays(cfg, HelloVerifyRequest in ws[n].cGot, CertificateRequest in ws[n].cGot)
  {
    hide ClientSays, ClientHeard;
    ClientSpeaksAlways(cfg, mvs, ws, n);
    HeardRequest(cfg, ws[n]);
  }

  lemma HeardRequest(cfg: Setting, w: World)
    requires ClientHeard(cfg, w.c, w.cGot)
    ensures w.c.flag <==> CertificateRequest in w.cGot
  {
  }

  // ---------------------------------------------------------------- what a server sends

  /** Whatever the peer sends, what a server has sent and will send is its script:
      nothing that a client says changes it. */
  ghost predicate ServerSpeaks(cfg: Setting, w: World) {
    && ServerMode(cfg, w.s.state)
    && Behind(w.toClient.q, ServerToSend(cfg, w.s.state)) == ServerScript(cfg)
  }

  predicate ServerSending(st: ServerState) {
    st.SendServerHello? || st.SendServerCertificate? || st.SendServerKeyExchange? || st.SendServerHelloDone? || st.SendServerFinished?
  }

  lemma ServerStepQuiet(cfg: Setting, st: ServerState, peerCert: bool, head: Option<Kind>, pause: bool, rest: Script)
    requires st != ServerDone && ServerMode(cfg, st) && !ServerSending(st)
    ensures var o := ServerDo(cfg, st, peerCert, head, pause);
            ServerMode(cfg, o.state) && o.adds == [] && (o.state == st || (o.state == ServerNext(cfg, st) && ServerAdds(cfg, st, rest) == rest))
  {
    hide LastServerFlight, RequestAndDone;
  }

  lemma ServerStepAdds(cfg: Setting, st: ServerState, peerCert: bool, head: Option<Kind>, pause: bool)
    requires ServerMode(cfg, st) && ServerSending(st)
    ensures var o := ServerDo(cfg, st, peerCert, head, pause);
            && ServerMode(cfg, o.state)
            && if o.state == st then o.adds == []
               else o.state == ServerNext(cfg, st) && o.adds == ServerAddsNow(cfg, st)
  {
  }

  function ServerAddsNow(cfg: Setting, st: ServerState): seq<Kind> {
    match st
    case SendServerHello => [ServerHello]
    case SendServerCertificate => If(cfg.certAuth, Certificate(false)) + If(cfg.certAuth && cfg.status, CertificateStatus)
    case SendServerKeyExchange => If(cfg.SendsKeyExchange(), ServerKeyExchange)
    case SendServerHelloDone => If(cfg.RequestsCert(), CertificateRequest) + [ServerHelloDone]
    case _ => If(cfg.ticket, NewSessionTicket) + [ChangeCipherSpec, Finished]
  }

  lemma ServerAddsScript(cfg: Setting, st: ServerState, rest: Script)
    requires ServerSending(st)
    ensures Behind(ServerAddsNow(cfg, st), rest) == ServerAdds(cfg, st, rest)
  {
    hide Behind, LastServerFlight;
    BehindNone(rest);
    match st
    case SendServerHello => BehindOne(ServerHello, rest);
    case SendServerCertificate => BehindTwo(cfg.certAuth, Certificate(false), cfg.certAuth && cfg.status, CertificateStatus, rest);
    case SendServerKeyExchange => BehindOne(ServerKeyExchange, rest);
    case SendServerHelloDone => BehindTwo(cfg.RequestsCert(), CertificateRequest, true, ServerHelloDone, rest);
    case SendServerFinished => BehindLast(cfg, rest);
  }

  lemma BehindLast(cfg: Setting, rest: Script)
    ensures Behind(If(cfg.ticket, NewSessionTicket) + [ChangeCipherSpec, Finished], rest) == LastServerFlight(cfg, rest)
  {
    hide Behind;
    BehindTwo(cfg.ticket, NewSessionTicket, true, ChangeCipherSpec, Then(Finished, rest));
    BehindOne(Finished, rest);
    BehindBehind(If(cfg.ticket, NewSessionTicket) + [ChangeCipherSpec], [Finished], rest);
    assert If(cfg.ticket, NewSessionTicket) + [ChangeCipherSpec] + [Finished] == If(cfg.ticket, NewSessionTicket) + [ChangeCipherSpec, Finished];
  }

  lemma BehindTwo(a: bool, k: Kind, b: bool, l: Kind, rest: Script)
    ensures Behind(If(a, k) + If(b, l), rest) == May(a, k, May(b, l, rest))
  {
    hide Behind;
    BehindBehind(If(a, k), If(b, l), rest);
    BehindNone(rest);
    BehindOne(l, rest);
    BehindNone(May(b, l, rest));
    BehindOne(k, May(b, l, rest));
  }

  lemma {:induction false} ServerSpeaksAlways(cfg: Setting, mvs: seq<AloneMove>, ws: seq<World>, n: nat)
    requires IsServerAlone(cfg, mvs, ws) && n <= |mvs|
    ensures ServerSpeaks(cfg, ws[n])
  {
    hide ServerDo, ServerToSend, ServerScript, ServerMode, Behind;
    if n == 0 {
      ServerPlays(cfg);
      ServerBegins(cfg);
      BehindNone(ServerToSend(cfg, StartAccept));
    } else {
      ServerSpeaksAlways(cfg, mvs, ws, n - 1);
      var w := ws[n - 1];
      if mvs[n - 1].Runs? && w.s.wait == Ready && w.s.state != ServerDone {
        var o := ServerDo(cfg, w.s.state, w.s.flag, Message(w.toServer), mvs[n - 1].pause);
        var rest := ServerToSend(cfg, o.state);
        if ServerSending(w.s.state) {
          ServerStepAdds(cfg, w.s.state, w.s.flag, Message(w.toServer), mvs[n - 1].pause);
          ServerAddsScript(cfg, w.s.state, rest);
          BehindNone(rest);
        } else {
          ServerStepQuiet(cfg, w.s.state, w.s.flag, Message(w.toServer), mvs[n - 1].pause, rest);
          BehindNone(rest);
        }
        ServerUnfold(cfg, w.s.state);
        BehindBehind(w.toClient.q, o.adds, rest);
        assert w.toClient.q + [] == w.toClient.q;
      }
    }
  }

  /** A server that comes to its end has sent its side of the handshake. */
  lemma ServerSaysExactly(cfg: Setting, mvs: seq<AloneMove>, ws: seq<World>, n: nat)
    requires IsServerAlone(cfg, mvs, ws) && n <= |mvs| && ws[n].s.state == ServerDone
    ensures ws[n].toClient.q == Messages(ServerScript(cfg))
  {
    hide ServerScript, ServerToSend;
    ServerSpeaksAlways(cfg, mvs, ws, n);
    AllDone(cfg);
    MessagesBehind(ws[n].toClient.q);
  }

  // ---------------------------------------------------------------- a client takes every choice

  /** The message at the front, if it is not a ChangeCipherSpec. */
  function First(s: Script): Option<Kind> {
    if s.End? || s.kind == ChangeCipherSpec then None else Some(s.kind)
  }

  /** All the server says is there, and what has been read and what has not are
      what it says with these choices. */
  ghost predicate Ahead(cfg: Setting, ch: Choices, w: World) {
    && CcsWaits(w.c) && (w.c.wait == Ready || w.c.wait == Flush || w.c.wait == ReadCcs)
    && ClientMode(cfg, w.c.state)
    && w.toClient.flushed == |w.toClient.q|
    && Behind(w.toClient.q, End) == LeftFor(cfg, ch, w.c)
    && Behind(w.cGot, LeftFor(cfg, ch, w.c)) == ServerSays(cfg, ch)
  }

  lemma ModeStays(cfg: Setting, st: ClientState)
    requires ClientMode(cfg, st)
    ensures ClientMode(cfg, ClientNext(cfg, st))
  {
  }

  predicate Peeking(st: ClientState) {
    st.ReadHelloVerifyRequest? || st.ReadCertificateStatus? || st.ReadServerKeyExchange? || st.ReadCertificateRequest?
  }

  /** The choice made in a state is to send the message that is looked for. */
  predicate Chosen(ch: Choices, st: ClientState) {
    match st
    case ReadHelloVerifyRequest => ch.verify
    case ReadCertificateStatus => ch.status
    case ReadServerKeyExchange => ch.keyExchange
    case _ => ch.request
  }

  /** What such a message is told apart from. */
  predicate Another(st: ClientState, k: Kind) {
    match st
    case ReadHelloVerifyRequest => k == ServerHello
    case ReadCertificateStatus => k == ServerKeyExchange || k == CertificateRequest || k == ServerHelloDone
    case ReadServerKeyExchange => k == CertificateRequest || k == ServerHelloDone
    case _ => k == ServerHelloDone
  }

  /** Where the message looked for is not sent, another one is next. */
  lemma NextHeard(cfg: Setting, ch: Choices, st: ClientState)
    requires ClientMode(cfg, st) && Allowed(cfg, ch) && Peeking(st) && !Chosen(ch, st)
    ensures First(Hears(cfg, ch, st)).Some? && Another(st, First(Hears(cfg, ch, st)).value)
  {
    hide Hears, LastServerFlight;
    if st.ReadHelloVerifyRequest? {
      HearsUnfolds(cfg, ch, ReadHelloVerifyRequest);
      HearsUnfolds(cfg, ch, ReadServerHello);
    } else {
      HeardBeforeDone(cfg, ch);
      if st != ReadCertificateRequest {
        HearsUnfolds(cfg, ch, st);
      }
    }
  }

  lemma HeardBeforeDone(cfg: Setting, ch: Choices)
    requires !cfg.resumed
    ensures First(Hears(cfg, ch, ReadCertificateRequest)) == Some(if ch.request then CertificateRequest else ServerHelloDone)
    ensures First(Hears(cfg, ch, VerifyServerCertificate)) == if ch.keyExchange then Some(ServerKeyExchange) else First(Hears(cfg, ch, ReadCertificateRequest))
    ensures Hears(cfg, ch, VerifyServerCertificate) == Hears(cfg, ch, ReadServerKeyExchange)
  {
    hide Hears, LastServerFlight;
    HearsKeys(cfg, ch);
    HearsUnfolds(cfg, ch, ReadCertificateRequest);
    HearsUnfolds(cfg, ch, ReadServerKeyExchange);
    HearsUnfolds(cfg, ch, VerifyServerCertificate);
  }

  ghost predicate Accepts(cfg: Setting, ch: Choices, st: ClientState, rest: Script, o: Outcome<ClientState>) {
    var heard := HearsAt(cfg, ch, st, rest);
    && o.state == ClientNext(cfg, st) != st
    && if o.consumes then First(heard).Some? && heard == Then(First(heard).value, rest) else heard == rest
  }

  function LookedFor(st: ClientState): Kind {
    match st
    case ReadHelloVerifyRequest => HelloVerifyRequest
    case ReadCertificateStatus => CertificateStatus
    case ReadServerKeyExchange => ServerKeyExchange
    case _ => CertificateRequest
  }

  lemma PeekHears(cfg: Setting, ch: Choices, st: ClientState, rest: Script)
    requires Peeking(st)
    ensures HearsAt(cfg, ch, st, rest) == May(Chosen(ch, st), LookedFor(st), rest) && LookedFor(st) != ChangeCipherSpec
  {
  }

  lemma PeekMoves(cfg: Setting, ch: Choices, st: ClientState, flag: bool, head: Kind)
    requires Peeking(st) && Allowed(cfg, ch) && if Chosen(ch, st) then head == LookedFor(st) else Another(st, head)
    ensures var o := ClientDo(cfg, st, flag, Some(head), false);
            o.state == ClientNext(cfg, st) != st && (o.consumes <==> Chosen(ch, st))
  {
  }

  lemma PeekAccepts(cfg: Setting, ch: Choices, st: ClientState, flag: bool, rest: Script)
    requires Peeking(st) && Allowed(cfg, ch)
    requires var head := First(HearsAt(cfg, ch, st, rest));
             !Chosen(ch, st) ==> head.Some? && Another(st, head.value)
    ensures Accepts(cfg, ch, st, rest, ClientDo(cfg, st, flag, First(HearsAt(cfg, ch, st, rest)), false))
  {
    hide ClientDo, HearsAt, ClientNext, Chosen, Another, LookedFor, Peeking, Allowed;
    PeekHears(cfg, ch, st, rest);
    var head := First(HearsAt(cfg, ch, st, rest)).value;
    PeekMoves(cfg, ch, st, flag, head);
    assert First(HearsAt(cfg, ch, st, rest)) == Some(head);
  }

  lemma OtherAccepts(cfg: Setting, ch: Choices, st: ClientState, flag: bool, rest: Script)
    requires !Peeking(st) && st != ClientDone && st != ClientProcessCcs
    ensures Accepts(cfg, ch, st, rest, ClientDo(cfg, st, flag, First(HearsAt(cfg, ch, st, rest)), false))
  {
    hide LastClientFlight;
  }

  lemma StepWaitsFor(cfg: Setting, st: ClientState, flag: bool, head: Option<Kind>)
    requires ClientDo(cfg, st, flag, head, false).state != st
    ensures var o := ClientDo(cfg, st, flag, head, false);
            (o.wait == Ready || o.wait == Flush || o.wait == ReadCcs) && (o.wait == ReadCcs <==> o.state == ClientProcessCcs)
  {
  }

  /** With the next of its messages at hand a step without a pause leads on, and
      reads it exactly if it is the one of this state. */
  lemma StepAccepts(cfg: Setting, ch: Choices, st: ClientState, flag: bool, rest: Script)
    requires st != ClientDone && st != ClientProcessCcs && ClientMode(cfg, st) && Allowed(cfg, ch)
    requires var head := First(HearsAt(cfg, ch, st, rest));
             Peeking(st) && !Chosen(ch, st) ==> head.Some? && Another(st, head.value)
    ensures var head := First(HearsAt(cfg, ch, st, rest));
            var o := ClientDo(cfg, st, flag, head, false);
            && o.state == ClientNext(cfg, st) != st && ClientMode(cfg, o.state)
            && (o.wait == Ready || o.wait == Flush || o.wait == ReadCcs) && (o.wait == ReadCcs <==> o.state == ClientProcessCcs)
            && (if o.consumes then head.Some? && HearsAt(cfg, ch, st, rest) == Then(head.value, rest) else HearsAt(cfg, ch, st, rest) == rest)
  {
    hide ClientDo, HearsAt, First, ClientNext, ClientMode, Chosen, Another;
    ModeStays(cfg, st);
    if Peeking(st) {
      PeekAccepts(cfg, ch, st, flag, rest);
    } else {
      OtherAccepts(cfg, ch, st, flag, rest);
    }
    StepWaitsFor(cfg, st, flag, First(HearsAt(cfg, ch, st, rest)));
  }

  /** What is there to be read is the front of what is left. */
  lemma HeadIsFirst(x: Queue, s: Script)
    requires x.flushed == |x.q| && Behind(x.q, End) == s
    ensures Message(x) == First(s) && (x.Head().Some? <==> s.Then?)
    ensures s.Then? ==> x.Head() == Some(s.kind) && Behind(x.Popped().q, End) == s.rest && x.Popped().flushed == |x.Popped().q|
  {
  }

  lemma ReadyMoves(cfg: Setting, ch: Choices, w: World)
    requires Ahead(cfg, ch, w) && Allowed(cfg, ch) && w.c.wait == Ready && w.c.state != ClientDone && w.c.state != ClientProcessCcs
    ensures var w' := ClientMove(cfg, w, false); Ahead(cfg, ch, w') && w'.c.state == ClientNext(cfg, w.c.state)
  {
    hide Hears, HearsAt, ServerSays, Behind, ClientDo, ClientNext, ClientMode, First, Message, Queue.Head, Queue.Popped;
    var st := w.c.state;
    var next := ClientNext(cfg, st);
    HearsUnfolds(cfg, ch, st);
    HeadIsFirst(w.toClient, Hears(cfg, ch, st));
    if Peeking(st) && !Chosen(ch, st) {
      NextHeard(cfg, ch, st);
    }
    StepAccepts(cfg, ch, st, w.c.flag, Hears(cfg, ch, next));
    var head := Message(w.toClient);
    var o := ClientDo(cfg, st, w.c.flag, head, false);
    if o.consumes {
      GotOne(w.cGot, head.value, Hears(cfg, ch, next));
    } else {
      assert w.cGot + [] == w.cGot;
    }
  }

  lemma CcsArrives(cfg: Setting, ch: Choices, w: World)
    requires Ahead(cfg, ch, w) && w.c.wait == ReadCcs
    ensures var w' := ClientMove(cfg, w, false); Ahead(cfg, ch, w') && w'.c == w.c.(wait := Ready)
  {
    hide Hears, ServerSays, Behind, ClientDo, Queue.Head, Queue.Popped, Message, ClientMode;
    HearsUnfolds(cfg, ch, ClientProcessCcs);
    HeadIsFirst(w.toClient, LeftFor(cfg, ch, w.c));
    GotOne(w.cGot, ChangeCipherSpec, Hears(cfg, ch, ClientNext(cfg, ClientProcessCcs)));
  }

  lemma CcsIsProcessed(cfg: Setting, ch: Choices, w: World)
    requires Ahead(cfg, ch, w) && w.c.wait == Ready && w.c.state == ClientProcessCcs
    ensures var w' := ClientMove(cfg, w, false); Ahead(cfg, ch, w') && w'.c == w.c.(state := ReadServerFinished)
  {
    hide Hears, ServerSays, Behind, ClientDo, Queue.Head, Queue.Popped, Message;
    HearsUnfolds(cfg, ch, ClientProcessCcs);
    CcsProcessed(cfg, w.c.flag, Message(w.toClient), false);
    assert w.cGot + [] == w.cGot;
  }

  function AllSent(w: World): World {
    w.(toServer := Queue(w.toServer.q, |w.toServer.q|))
  }

  /** Moves without pauses, each with all flushed before. */
  function ClientMoves(cfg: Setting, w: World, n: nat): World
    decreases n
  {
    if n == 0 then w else ClientMoves(cfg, ClientMove(cfg, AllSent(w), false), n - 1)
  }

  function MovesLeft(cfg: Setting, c: Side<ClientState>): nat {
    2 * ClientRank(cfg.resumed, c.state) + if c.wait == Ready then 0 else 1
  }

  lemma RanksDrop(cfg: Setting, st: ClientState)
    requires st != ClientDone && (cfg.resumed ==> ClientMode(cfg, st))
    ensures ClientRank(cfg.resumed, ClientNext(cfg, st)) < ClientRank(cfg.resumed, st)
  {
  }

  lemma OneMoveOn(cfg: Setting, ch: Choices, w: World)
    requires Ahead(cfg, ch, w) && Allowed(cfg, ch) && (w.c.state != ClientDone || w.c.wait != Ready)
    ensures var w' := ClientMove(cfg, AllSent(w), false); Ahead(cfg, ch, w') && MovesLeft(cfg, w'.c) < MovesLeft(cfg, w.c)
  {
    hide Hears, ServerSays, Behind, ClientDo, ClientRank, ClientNext, ClientMode;
    var v := AllSent(w);
    assert Ahead(cfg, ch, v);
    if v.c.wait == ReadCcs {
      CcsArrives(cfg, ch, v);
    } else if v.c.wait == Ready && v.c.state == ClientProcessCcs {
      CcsIsProcessed(cfg, ch, v);
      RanksDrop(cfg, ClientProcessCcs);
      assert ClientNext(cfg, ClientProcessCcs) == ReadServerFinished by { AfterCcsState(cfg); }
    } else if v.c.wait == Ready {
      ReadyMoves(cfg, ch, v);
      RanksDrop(cfg, v.c.state);
    }
  }

  lemma AfterCcsState(cfg: Setting)
    ensures ClientNext(cfg, ClientProcessCcs) == ReadServerFinished
  {
  }

  lemma {:induction false} MovesReachEnd(cfg: Setting, ch: Choices, w: World, n: nat)
    requires Ahead(cfg, ch, w) && Allowed(cfg, ch) && n >= MovesLeft(cfg, w.c)
    ensures var v := ClientMoves(cfg, w, n); Ahead(cfg, ch, v) && v.c.state == ClientDone && v.c.wait == Ready
    decreases n
  {
    hide Ahead, ClientMove, ClientRank, AllSent;
    OnlyDoneIsZero(cfg, w.c.state);
    if w.c.state != ClientDone || w.c.wait != Ready {
      OneMoveOn(cfg, ch, w);
      MovesReachEnd(cfg, ch, ClientMove(cfg, AllSent(w), false), n - 1);
    } else if n > 0 {
      DoneIsKept(cfg, ch, w);
      MovesReachEnd(cfg, ch, ClientMove(cfg, AllSent(w), false), n - 1);
    }
  }

  lemma OnlyDoneIsZero(cfg: Setting, st: ClientState)
    ensures ClientRank(cfg.resumed, st) == 0 <==> st == ClientDone
  {
  }

  lemma DoneIsKept(cfg: Setting, ch: Choices, w: World)
    requires Ahead(cfg, ch, w) && w.c.state == ClientDone && w.c.wait == Ready
    ensures ClientMove(cfg, AllSent(w), false) == AllSent(w)
    ensures Ahead(cfg, ch, AllSent(w)) && MovesLeft(cfg, AllSent(w).c) == MovesLeft(cfg, w.c)
  {
  }

  lemma {:induction false} BehindMessages(s: Script)
    ensures Behind(Messages(s), End) == s
  {
    if s.Then? {
      BehindMessages(s.rest);
      assert Messages(s)[1..] == Messages(s.rest);
    }
  }

  /** A client takes whatever choices the server makes within what is allowed: given
      the messages of such a server it comes to its end, having read all. */
  lemma ClientTakesEvery(cfg: Setting, ch: Choices)
    requires Allowed(cfg, ch)
    ensures var ks := Messages(ServerSays(cfg, ch));
            var w := ClientMoves(cfg, Start().(toClient := Queue(ks, |ks|)), 41);
            w.c.state == ClientDone && w.cGot == ks && w.toClient.q == []
  {
    hide ServerSays, Hears, ClientMoves, Behind;
    var s := ServerSays(cfg, ch);
    var ks := Messages(s);
    var start := Start().(toClient := Queue(ks, |ks|));
    BehindMessages(s);
    HearsAll(cfg, ch);
    BehindNone(s);
    MovesReachEnd(cfg, ch, start, 41);
    var w := ClientMoves(cfg, start, 41);
    HearsNothing(cfg, ch);
    MessagesBehind(w.cGot);
    MessagesBehind(w.toClient.q);
  }
}
