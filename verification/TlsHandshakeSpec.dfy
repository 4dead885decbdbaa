/** The handshake state machines of TLS 1.0 to 1.2 (handshake_client.cc,
    handshake_server.cc), one `do_` function at a time. Message contents are left
    out: what is followed is which message comes when. */
module TlsHandshakeSpec {
  import opened Wrappers

  datatype Kind =
    | ClientHello | HelloVerifyRequest | ServerHello
    | Certificate(empty: bool) | CertificateStatus | ServerKeyExchange | CertificateRequest | ServerHelloDone
    | ClientKeyExchange | CertificateVerify
    | ChangeCipherSpec | NextProto | ChannelId | NewSessionTicket | Finished

  /** What the two sides have agreed on, and the choices left to each of them:
      `verifyPeer` and `pskHint` are the server's, `clientCert` the client's. */
  datatype Setting = Setting(
    dtls: bool,
    resumed: bool,
    certAuth: bool,       // the cipher uses certificates
    status: bool,         // a CertificateStatus is expected
    skeRequired: bool,    // the cipher requires a ServerKeyExchange
    pskHint: bool,        // the server has an identity hint for a PSK cipher
    verifyPeer: bool,     // the server asks for a client certificate if it can
    clientCert: bool,     // the client has one
    ticket: bool,
    npn: bool,
    channelId: bool)
  {
    /** hs->cert_request on the server. */
    predicate RequestsCert() {
      !resumed && certAuth && verifyPeer
    }

    predicate SendsKeyExchange() {
      skeRequired || pskHint
    }
  }

  function If(b: bool, k: Kind): seq<Kind> {
    if b then [k] else []
  }

  datatype Wait = Ready | Flush | ReadMessage | ReadCcs | Paused | Failed

  /** What one `do_` function leaves behind: the next state, what the handshake
      waits for, the messages added, and whether the current message is done with. */
  datatype Outcome<S> = Outcome(state: S, wait: Wait, adds: seq<Kind>, consumes: bool)

  function Go<S>(state: S): Outcome<S> {
    Outcome(state, Ready, [], false)
  }

  function Block<S>(state: S, wait: Wait): Outcome<S> {
    Outcome(state, wait, [], false)
  }

  /** A message of one type and no other is acceptable here. */
  function Expect<S>(state: S, head: Option<Kind>, kind: Kind, next: S): Outcome<S> {
    if head.None? then Block(state, ReadMessage)
    else if head.value != kind then Block(state, Failed)
    else Outcome(next, Ready, [], true)
  }

  // ---------------------------------------------------------------- client

  datatype ClientState =
    | StartConnect | EnterEarlyData | ReadHelloVerifyRequest | ReadServerHello
    | ReadServerCertificate | ReadCertificateStatus | VerifyServerCertificate
    | ReadServerKeyExchange | ReadCertificateRequest | ReadServerHelloDone
    | SendClientCertificate | SendClientKeyExchange | SendClientCertificateVerify
    | SendClientFinished | FinishFlight | ReadSessionTicket | ClientProcessCcs
    | ReadServerFinished | FinishClientHandshake | ClientDone

  /** `certRequested` is hs->cert_request on the client. `head` is the message
      at hand, if there is one; `pause` whether a callback is not ready, or, in
      FinishFlight, whether there is a False Start. */
  function ClientDo(cfg: Setting, st: ClientState, certRequested: bool, head: Option<Kind>, pause: bool): Outcome<ClientState> {
    match st
    case StartConnect => Outcome(EnterEarlyData, Flush, [ClientHello], false)
    case EnterEarlyData => Go(if cfg.dtls then ReadHelloVerifyRequest else ReadServerHello)
    case ReadHelloVerifyRequest =>
      if head.None? then Block(st, ReadMessage)
      else if head.value != HelloVerifyRequest then Go(ReadServerHello)
      else Outcome(ReadServerHello, Flush, [ClientHello], true)
    case ReadServerHello => Expect(st, head, ServerHello, if cfg.resumed then ReadSessionTicket else ReadServerCertificate)
    case ReadServerCertificate =>
      if !cfg.certAuth then Go(ReadCertificateStatus) else Expect(st, head, Certificate(false), ReadCertificateStatus)
    case ReadCertificateStatus =>
      if !cfg.status then Go(VerifyServerCertificate)
      else if head.None? then Block(st, ReadMessage)
      // A server may change its mind about sending CertificateStatus.
      else if head.value != CertificateStatus then Go(VerifyServerCertificate)
      else Outcome(VerifyServerCertificate, Ready, [], true)
    case VerifyServerCertificate =>
      if cfg.certAuth && pause then Block(st, Paused) else Go(ReadServerKeyExchange)
    case ReadServerKeyExchange =>
      if head.None? then Block(st, ReadMessage)
      else if head.value != ServerKeyExchange then (if cfg.skeRequired then Block(st, Failed) else Go(ReadCertificateRequest))
      else Outcome(ReadCertificateRequest, Ready, [], true)
    case ReadCertificateRequest =>
      if !cfg.certAuth || head == Some(ServerHelloDone) then Go(ReadServerHelloDone)
      else Expect(st, head, CertificateRequest, ReadServerHelloDone)
    case ReadServerHelloDone => Expect(st, head, ServerHelloDone, SendClientCertificate)
    case SendClientCertificate =>
      if !certRequested then Go(SendClientKeyExchange)
      else if pause then Block(st, Paused)
      else Outcome(SendClientKeyExchange, Ready, [Certificate(!cfg.clientCert)], false)
    case SendClientKeyExchange => Outcome(SendClientCertificateVerify, Ready, [ClientKeyExchange], false)
    case SendClientCertificateVerify =>
      if !certRequested || !cfg.clientCert then Go(SendClientFinished)
      else if pause then Block(st, Paused)
      else Outcome(SendClientFinished, Ready, [CertificateVerify], false)
    case SendClientFinished =>
      if cfg.channelId && pause then Block(st, Paused)
      else Outcome(FinishFlight, Flush, [ChangeCipherSpec] + If(cfg.npn, NextProto) + If(cfg.channelId, ChannelId) + [Finished], false)
    case FinishFlight =>
      if cfg.resumed then Go(FinishClientHandshake)
      else Block(ReadSessionTicket, if pause then Paused else Ready)
    case ReadSessionTicket =>
      if !cfg.ticket then Block(ClientProcessCcs, ReadCcs)
      else if head.None? then Block(st, ReadMessage)
      else if head.value != NewSessionTicket then Block(st, Failed)
      else Outcome(ClientProcessCcs, ReadCcs, [], true)
    case ClientProcessCcs => Go(ReadServerFinished)
    case ReadServerFinished =>
      Expect(st, head, Finished, if cfg.resumed then SendClientFinished else FinishClientHandshake)
    case FinishClientHandshake => Go(ClientDone)
    case ClientDone => Go(ClientDone)
  }

  /** A resumed handshake jumps back from the server's Finished to the client's. */
  function ClientRank(resumed: bool, st: ClientState): nat {
    match st
    case StartConnect => 20
    case EnterEarlyData => 19
    case ReadHelloVerifyRequest => 18
    case ReadServerHello => 17
    case ReadServerCertificate => 16
    case ReadCertificateStatus => 15
    case VerifyServerCertificate => 14
    case ReadServerKeyExchange => 13
    case ReadCertificateRequest => 12
    case ReadServerHelloDone => 11
    case SendClientCertificate => 10
    case SendClientKeyExchange => 9
    case SendClientCertificateVerify => 8
    case SendClientFinished => if resumed then 3 else 7
    case FinishFlight => if resumed then 2 else 6
    case ReadSessionTicket => if resumed then 6 else 5
    case ClientProcessCcs => if resumed then 5 else 4
    case ReadServerFinished => if resumed then 4 else 3
    case FinishClientHandshake => 1
    case ClientDone => 0
  }

  // ---------------------------------------------------------------- server

  datatype ServerState =
    | StartAccept | ReadClientHello | SelectCertificate | SelectParameters
    | SendServerHello | SendServerCertificate | SendServerKeyExchange | SendServerHelloDone
    | ReadClientCertificate | VerifyClientCertificate | ReadClientKeyExchange | ReadClientCertificateVerify
    | ReadChangeCipherSpec | ServerProcessCcs | ReadNextProto | ReadChannelId | ReadClientFinished
    | SendServerFinished | FinishServerHandshake | ServerDone

  /** `peerCert`: the client has sent a certificate. */
  function ServerDo(cfg: Setting, st: ServerState, peerCert: bool, head: Option<Kind>, pause: bool): Outcome<ServerState> {
    match st
    case StartAccept => Go(ReadClientHello)
    case ReadClientHello =>
      if head.None? then Block(st, ReadMessage)
      else if head.value != ClientHello then Block(st, Failed)
      else if pause then Block(st, Paused)
      else Go(SelectCertificate)
    case SelectCertificate =>
      if head.None? then Block(st, ReadMessage) else if pause then Block(st, Paused) else Go(SelectParameters)
    case SelectParameters =>
      if head.None? then Block(st, ReadMessage)
      else if pause then Block(st, Paused)
      else Outcome(SendServerHello, Ready, [], true)
    case SendServerHello =>
      Outcome(if cfg.resumed then SendServerFinished else SendServerCertificate, Ready, [ServerHello], false)
    case SendServerCertificate =>
      Outcome(SendServerKeyExchange, Ready, If(cfg.certAuth, Certificate(false)) + If(cfg.certAuth && cfg.status, CertificateStatus), false)
    case SendServerKeyExchange =>
      if !cfg.SendsKeyExchange() then Go(SendServerHelloDone)
      else if cfg.certAuth && pause then Block(st, Paused)
      else Outcome(SendServerHelloDone, Ready, [ServerKeyExchange], false)
    case SendServerHelloDone =>
      Outcome(ReadClientCertificate, Flush, If(cfg.RequestsCert(), CertificateRequest) + [ServerHelloDone], false)
    case ReadClientCertificate =>
      if !cfg.RequestsCert() then Go(VerifyClientCertificate)
      else if head.None? then Block(st, ReadMessage)
      else if !head.value.Certificate? then Block(st, Failed)
      else Outcome(VerifyClientCertificate, Ready, [], true)
    case VerifyClientCertificate => if peerCert && pause then Block(st, Paused) else Go(ReadClientKeyExchange)
    case ReadClientKeyExchange =>
      if head.None? then Block(st, ReadMessage)
      else if head.value != ClientKeyExchange then Block(st, Failed)
      else if pause then Block(st, Paused)
      else Outcome(ReadClientCertificateVerify, Ready, [], true)
    case ReadClientCertificateVerify =>
      if !peerCert then Go(ReadChangeCipherSpec) else Expect(st, head, CertificateVerify, ReadChangeCipherSpec)
    case ReadChangeCipherSpec => Block(ServerProcessCcs, ReadCcs)
    case ServerProcessCcs => Go(ReadNextProto)
    case ReadNextProto => if !cfg.npn then Go(ReadChannelId) else Expect(st, head, NextProto, ReadChannelId)
    case ReadChannelId => if !cfg.channelId then Go(ReadClientFinished) else Expect(st, head, ChannelId, ReadClientFinished)
    case ReadClientFinished => Expect(st, head, Finished, if cfg.resumed then FinishServerHandshake else SendServerFinished)
    case SendServerFinished =>
      Outcome(if cfg.resumed then ReadChangeCipherSpec else FinishServerHandshake, Flush,
              If(cfg.ticket, NewSessionTicket) + [ChangeCipherSpec, Finished], false)
    case FinishServerHandshake => Go(ServerDone)
    case ServerDone => Go(ServerDone)
  }

  function ServerRank(resumed: bool, st: ServerState): nat {
    match st
    case StartAccept => 20
    case ReadClientHello => 19
    case SelectCertificate => 18
    case SelectParameters => 17
    case SendServerHello => 16
    case SendServerCertificate => 15
    case SendServerKeyExchange => 14
    case SendServerHelloDone => 13
    case ReadClientCertificate => 12
    case VerifyClientCertificate => 11
    case ReadClientKeyExchange => 10
    case ReadClientCertificateVerify => 9
    case ReadChangeCipherSpec => 7
    case ServerProcessCcs => 6
    case ReadNextProto => 5
    case ReadChannelId => 4
    case ReadClientFinished => 3
    case SendServerFinished => if resumed then 8 else 2
    case FinishServerHandshake => 1
    case ServerDone => 0
  }

  /** Whatever the peer sends and whichever callbacks are not ready, a state is
      left only for one of lower rank: the drivers' loops end. */
  lemma ClientRankDecreases(cfg: Setting, st: ClientState, certRequested: bool, head: Option<Kind>, pause: bool)
    ensures var o := ClientDo(cfg, st, certRequested, head, pause);
            o.state == st || ClientRank(cfg.resumed, o.state) < ClientRank(cfg.resumed, st)
    ensures var o := ClientDo(cfg, st, certRequested, head, pause);
            o.wait == Ready && st != ClientDone ==> o.state != st
  {
  }

  lemma ServerRankDecreases(cfg: Setting, st: ServerState, peerCert: bool, head: Option<Kind>, pause: bool)
    ensures var o := ServerDo(cfg, st, peerCert, head, pause);
            o.state == st || ServerRank(cfg.resumed, o.state) < ServerRank(cfg.resumed, st)
    ensures var o := ServerDo(cfg, st, peerCert, head, pause);
            o.wait == Ready && st != ServerDone ==> o.state != st
  {
  }
}
