/** Client and server drive each other: for every agreed setting and every
    interleaving of their steps, with pauses, partial flushes and retries,
    neither meets a message it does not expect, neither waits forever, and each
    checks exactly the Finished that the other sent. */
module TlsDuality {
  import opened Wrappers
  import opened TlsHandshakeSpec

  // ---------------------------------------------------------------- scripts

  /** A list of messages still to come. */
  datatype Script = End | Then(kind: Kind, rest: Script)

  function May(b: bool, k: Kind, rest: Script): Script {
    if b then Then(k, rest) else rest
  }

  /** `q` in front of a script. */
  function Behind(q: seq<Kind>, s: Script): Script {
    if q == [] then s else Then(q[0], Behind(q[1..], s))
  }

  lemma {:induction false} BehindBehind(q: seq<Kind>, r: seq<Kind>, s: Script)
    ensures Behind(q + r, s) == Behind(q, Behind(r, s))
  {
    if q == [] {
      assert q + r == r;
    } else {
      assert (q + r)[1..] == q[1..] + r;
      BehindBehind(q[1..], r, s);
    }
  }

  /** The messages of the server, as section 7.3 of RFC 5246 lists them for a
      full and for an abbreviated handshake. */
  function ServerScript(cfg: Setting): Script {
    Then(ServerHello, if cfg.resumed then LastServerFlight(cfg, End) else ServerFlight(cfg, LastServerFlight(cfg, End)))
  }

  function ServerFlight(cfg: Setting, rest: Script): Script {
    May(cfg.certAuth, Certificate(false),
      May(cfg.certAuth && cfg.status, CertificateStatus,
        May(cfg.SendsKeyExchange(), ServerKeyExchange, RequestAndDone(cfg, rest))))
  }

  function RequestAndDone(cfg: Setting, rest: Script): Script {
    May(cfg.RequestsCert(), CertificateRequest, Then(ServerHelloDone, rest))
  }

  function LastServerFlight(cfg: Setting, rest: Script): Script {
    May(cfg.ticket, NewSessionTicket, Then(ChangeCipherSpec, Then(Finished, rest)))
  }

  function ClientScript(cfg: Setting): Script {
    Then(ClientHello, if cfg.resumed then LastClientFlight(cfg, End) else KeyFlight(cfg, LastClientFlight(cfg, End)))
  }

  function KeyFlight(cfg: Setting, rest: Script): Script {
    May(cfg.RequestsCert(), Certificate(!cfg.clientCert),
      Then(ClientKeyExchange, May(cfg.RequestsCert() && cfg.clientCert, CertificateVerify, rest)))
  }

  function LastClientFlight(cfg: Setting, rest: Script): Script {
    Then(ChangeCipherSpec, May(cfg.npn, NextProto, May(cfg.channelId, ChannelId, Then(Finished, rest))))
  }

  // ---------------------------------------------------------------- what each side will still do

  /** The state that follows if nothing goes wrong. */
  function ClientNext(cfg: Setting, st: ClientState): ClientState {
    match st
    case StartConnect => EnterEarlyData
    case EnterEarlyData => if cfg.dtls then ReadHelloVerifyRequest else ReadServerHello
    case ReadHelloVerifyRequest => ReadServerHello
    case ReadServerHello => if cfg.resumed then ReadSessionTicket else ReadServerCertificate
    case ReadServerCertificate => ReadCertificateStatus
    case ReadCertificateStatus => VerifyServerCertificate
    case VerifyServerCertificate => ReadServerKeyExchange
    case ReadServerKeyExchange => ReadCertificateRequest
    case ReadCertificateRequest => ReadServerHelloDone
    case ReadServerHelloDone => SendClientCertificate
    case SendClientCertificate => SendClientKeyExchange
    case SendClientKeyExchange => SendClientCertificateVerify
    case SendClientCertificateVerify => SendClientFinished
    case SendClientFinished => FinishFlight
    case FinishFlight => if cfg.resumed then FinishClientHandshake else ReadSessionTicket
    case ReadSessionTicket => ClientProcessCcs
    case ClientProcessCcs => ReadServerFinished
    case ReadServerFinished => if cfg.resumed then SendClientFinished else FinishClientHandshake
    case FinishClientHandshake => ClientDone
    case ClientDone => ClientDone
  }

  /** The messages added in a state, before `rest`. */
  function ClientAdds(cfg: Setting, st: ClientState, rest: Script): Script {
    match st
    case StartConnect => Then(ClientHello, rest)
    case SendClientCertificate => May(cfg.RequestsCert(), Certificate(!cfg.clientCert), rest)
    case SendClientKeyExchange => Then(ClientKeyExchange, rest)
    case SendClientCertificateVerify => May(cfg.RequestsCert() && cfg.clientCert, CertificateVerify, rest)
    case SendClientFinished => LastClientFlight(cfg, rest)
    case _ => rest
  }

  /** The message of the peer that is used up in a state, before `rest`. */
  function ClientTakes(cfg: Setting, st: ClientState, rest: Script): Script {
    match st
    case ReadServerHello => Then(ServerHello, rest)
    case ReadServerCertificate => May(cfg.certAuth, Certificate(false), rest)
    case ReadCertificateStatus => May(cfg.certAuth && cfg.status, CertificateStatus, rest)
    case ReadServerKeyExchange => May(cfg.SendsKeyExchange(), ServerKeyExchange, rest)
    case ReadCertificateRequest => May(cfg.RequestsCert(), CertificateRequest, rest)
    case ReadServerHelloDone => Then(ServerHelloDone, rest)
    case ReadSessionTicket => May(cfg.ticket, NewSessionTicket, rest)
    case ClientProcessCcs => Then(ChangeCipherSpec, rest)
    case ReadServerFinished => Then(Finished, rest)
    case _ => rest
  }

  function ServerNext(cfg: Setting, st: ServerState): ServerState {
    match st
    case StartAccept => ReadClientHello
    case ReadClientHello => SelectCertificate
    case SelectCertificate => SelectParameters
    case SelectParameters => SendServerHello
    case SendServerHello => if cfg.resumed then SendServerFinished else SendServerCertificate
    case SendServerCertificate => SendServerKeyExchange
    case SendServerKeyExchange => SendServerHelloDone
    case SendServerHelloDone => ReadClientCertificate
    case ReadClientCertificate => VerifyClientCertificate
    case VerifyClientCertificate => ReadClientKeyExchange
    case ReadClientKeyExchange => ReadClientCertificateVerify
    case ReadClientCertificateVerify => ReadChangeCipherSpec
    case ReadChangeCipherSpec => ServerProcessCcs
    case ServerProcessCcs => ReadNextProto
    case ReadNextProto => ReadChannelId
    case ReadChannelId => ReadClientFinished
    case ReadClientFinished => if cfg.resumed then FinishServerHandshake else SendServerFinished
    case SendServerFinished => if cfg.resumed then ReadChangeCipherSpec else FinishServerHandshake
    case FinishServerHandshake => ServerDone
    case ServerDone => ServerDone
  }

  function ServerAdds(cfg: Setting, st: ServerState, rest: Script): Script {
    match st
    case SendServerHello => Then(ServerHello, rest)
    case SendServerCertificate => May(cfg.certAuth, Certificate(false), May(cfg.certAuth && cfg.status, CertificateStatus, rest))
    case SendServerKeyExchange => May(cfg.SendsKeyExchange(), ServerKeyExchange, rest)
    case SendServerHelloDone => RequestAndDone(cfg, rest)
    case SendServerFinished => LastServerFlight(cfg, rest)
    case _ => rest
  }

  function ServerTakes(cfg: Setting, st: ServerState, rest: Script): Script {
    match st
    case SelectParameters => Then(ClientHello, rest)
    case ReadClientCertificate => May(cfg.RequestsCert(), Certificate(!cfg.clientCert), rest)
    case ReadClientKeyExchange => Then(ClientKeyExchange, rest)
    case ReadClientCertificateVerify => May(cfg.RequestsCert() && cfg.clientCert, CertificateVerify, rest)
    case ServerProcessCcs => Then(ChangeCipherSpec, rest)
    case ReadNextProto => May(cfg.npn, NextProto, rest)
    case ReadChannelId => May(cfg.channelId, ChannelId, rest)
    case ReadClientFinished => Then(Finished, rest)
    case _ => rest
  }

  function ClientToSend(cfg: Setting, st: ClientState): Script
    decreases ClientRank(cfg.resumed, st)
  {
    if st == ClientDone then End else ClientAdds(cfg, st, ClientToSend(cfg, ClientNext(cfg, st)))
  }

  function ClientToRead(cfg: Setting, st: ClientState): Script
    decreases ClientRank(cfg.resumed, st)
  {
    if st == ClientDone then End else ClientTakes(cfg, st, ClientToRead(cfg, ClientNext(cfg, st)))
  }

  function ServerToSend(cfg: Setting, st: ServerState): Script
    decreases ServerRank(cfg.resumed, st)
  {
    if st == ServerDone then End else ServerAdds(cfg, st, ServerToSend(cfg, ServerNext(cfg, st)))
  }

  function ServerToRead(cfg: Setting, st: ServerState): Script
    decreases ServerRank(cfg.resumed, st)
  {
    if st == ServerDone then End else ServerTakes(cfg, st, ServerToRead(cfg, ServerNext(cfg, st)))
  }

  // ---------------------------------------------------------------- both sides have the same script

  lemma ClientUnfold(cfg: Setting, st: ClientState)
    requires st != ClientDone
    ensures ClientToSend(cfg, st) == ClientAdds(cfg, st, ClientToSend(cfg, ClientNext(cfg, st)))
    ensures ClientToRead(cfg, st) == ClientTakes(cfg, st, ClientToRead(cfg, ClientNext(cfg, st)))
  {
  }

  lemma ServerUnfold(cfg: Setting, st: ServerState)
    requires st != ServerDone
    ensures ServerToSend(cfg, st) == ServerAdds(cfg, st, ServerToSend(cfg, ServerNext(cfg, st)))
    ensures ServerToRead(cfg, st) == ServerTakes(cfg, st, ServerToRead(cfg, ServerNext(cfg, st)))
  {
  }

  lemma AllDone(cfg: Setting)
    ensures ClientToSend(cfg, ClientDone) == End && ClientToRead(cfg, ClientDone) == End
    ensures ServerToSend(cfg, ServerDone) == End && ServerToRead(cfg, ServerDone) == End
  {
  }

  /** The end of the client's path: in a resumed handshake it reads first. */
  lemma ClientEnds(cfg: Setting)
    ensures ClientToSend(cfg, SendClientFinished) == LastClientFlight(cfg, End)
    ensures ClientToRead(cfg, SendClientFinished) == if cfg.resumed then End else LastServerFlight(cfg, End)
    ensures ClientToSend(cfg, ReadSessionTicket) == if cfg.resumed then LastClientFlight(cfg, End) else End
    ensures ClientToRead(cfg, ReadSessionTicket) == LastServerFlight(cfg, End)
  {
    hide ClientToSend, ClientToRead, LastClientFlight, LastServerFlight;
    AllDone(cfg);
    ClientUnfold(cfg, FinishClientHandshake);
    ClientUnfold(cfg, FinishFlight);
    ClientUnfold(cfg, SendClientFinished);
    ClientReadsLast(cfg);
  }

  lemma ClientReadsLast(cfg: Setting)
    ensures ClientToSend(cfg, ReadSessionTicket) == ClientToSend(cfg, ClientNext(cfg, ReadServerFinished))
    ensures ClientToRead(cfg, ClientNext(cfg, ReadServerFinished)) == End ==> ClientToRead(cfg, ReadSessionTicket) == LastServerFlight(cfg, End)
  {
    hide ClientToSend, ClientToRead, May;
    ClientUnfold(cfg, ReadServerFinished);
    ClientUnfold(cfg, ClientProcessCcs);
    ClientUnfold(cfg, ReadSessionTicket);
  }

  /** What the client has still to read, and to send, before its second flight. */
  lemma ClientFull(cfg: Setting)
    requires !cfg.resumed
    ensures ClientToRead(cfg, ReadServerHelloDone) == Then(ServerHelloDone, LastServerFlight(cfg, End))
    ensures ClientToRead(cfg, ReadCertificateRequest) == RequestAndDone(cfg, LastServerFlight(cfg, End))
    ensures ClientToRead(cfg, ReadServerKeyExchange) == May(cfg.SendsKeyExchange(), ServerKeyExchange, RequestAndDone(cfg, LastServerFlight(cfg, End)))
    ensures ClientToRead(cfg, VerifyServerCertificate) == ClientToRead(cfg, ReadServerKeyExchange)
    ensures ClientToRead(cfg, ReadServerCertificate) == ServerFlight(cfg, LastServerFlight(cfg, End))
    ensures ClientToSend(cfg, ReadServerCertificate) == KeyFlight(cfg, LastClientFlight(cfg, End))
  {
    hide ClientToSend, ClientToRead, May, LastServerFlight, LastClientFlight, ClientAdds;
    ClientKeys(cfg);
    ClientUnfold(cfg, ReadServerHelloDone);
    ClientUnfold(cfg, ReadCertificateRequest);
    ClientUnfold(cfg, ReadServerKeyExchange);
    ClientUnfold(cfg, VerifyServerCertificate);
    ClientUnfold(cfg, ReadCertificateStatus);
    ClientUnfold(cfg, ReadServerCertificate);
    assert ClientToSend(cfg, ReadServerCertificate) == ClientToSend(cfg, SendClientCertificate) by {
      ClientKeysAhead(cfg);
    }
  }

  lemma ClientKeys(cfg: Setting)
    requires !cfg.resumed
    ensures ClientToRead(cfg, SendClientCertificate) == LastServerFlight(cfg, End)
    ensures ClientToSend(cfg, SendClientCertificate) == KeyFlight(cfg, LastClientFlight(cfg, End))
  {
    hide ClientToSend, ClientToRead, May, LastServerFlight, LastClientFlight;
    ClientEnds(cfg);
    ClientUnfold(cfg, SendClientCertificateVerify);
    ClientUnfold(cfg, SendClientKeyExchange);
    ClientUnfold(cfg, SendClientCertificate);
  }

  /** Nothing is sent while the server's flight is read. */
  lemma ClientKeysAhead(cfg: Setting)
    requires !cfg.resumed
    ensures ClientToSend(cfg, ReadServerCertificate) == ClientToSend(cfg, SendClientCertificate)
  {
    hide ClientToSend, ClientToRead, ClientTakes;
    ClientUnfold(cfg, ReadServerHelloDone);
    ClientUnfold(cfg, ReadCertificateRequest);
    ClientUnfold(cfg, ReadServerKeyExchange);
    ClientUnfold(cfg, VerifyServerCertificate);
    ClientUnfold(cfg, ReadCertificateStatus);
    ClientUnfold(cfg, ReadServerCertificate);
  }

  /** The client's path through the handshake is the script. */
  lemma ClientPlays(cfg: Setting)
    ensures ClientToSend(cfg, StartConnect) == ClientScript(cfg) && ClientToRead(cfg, StartConnect) == ServerScript(cfg)
  {
    hide ClientToSend, ClientToRead, LastClientFlight, LastServerFlight, KeyFlight, ServerFlight;
    ClientEnds(cfg);
    if !cfg.resumed {
      ClientFull(cfg);
    }
    ClientUnfold(cfg, ReadServerHello);
    ClientUnfold(cfg, ReadHelloVerifyRequest);
    ClientUnfold(cfg, EnterEarlyData);
    ClientUnfold(cfg, StartConnect);
  }

  lemma ServerEnds(cfg: Setting)
    ensures ServerToRead(cfg, ReadChangeCipherSpec) == LastClientFlight(cfg, End)
    ensures ServerToSend(cfg, ReadChangeCipherSpec) == if cfg.resumed then End else LastServerFlight(cfg, End)
    ensures ServerToSend(cfg, SendServerFinished) == LastServerFlight(cfg, End)
    ensures ServerToRead(cfg, SendServerFinished) == if cfg.resumed then LastClientFlight(cfg, End) else End
  {
    hide ServerToSend, ServerToRead, LastServerFlight, LastClientFlight;
    AllDone(cfg);
    ServerUnfold(cfg, FinishServerHandshake);
    ServerUnfold(cfg, SendServerFinished);
    ServerReadsLast(cfg);
  }

  lemma ServerReadsLast(cfg: Setting)
    ensures ServerToSend(cfg, ReadChangeCipherSpec) == ServerToSend(cfg, ServerNext(cfg, ReadClientFinished))
    ensures ServerToRead(cfg, ServerNext(cfg, ReadClientFinished)) == End ==> ServerToRead(cfg, ReadChangeCipherSpec) == LastClientFlight(cfg, End)
  {
    hide ServerToSend, ServerToRead, May;
    ServerUnfold(cfg, ReadClientFinished);
    ServerUnfold(cfg, ReadChannelId);
    ServerUnfold(cfg, ReadNextProto);
    ServerUnfold(cfg, ServerProcessCcs);
    ServerUnfold(cfg, ReadChangeCipherSpec);
  }

  lemma ServerFull(cfg: Setting)
    requires !cfg.resumed
    ensures ServerToRead(cfg, ReadClientCertificate) == KeyFlight(cfg, LastClientFlight(cfg, End))
    ensures ServerToSend(cfg, ReadClientCertificate) == LastServerFlight(cfg, End)
    ensures ServerToSend(cfg, SendServerCertificate) == ServerFlight(cfg, LastServerFlight(cfg, End))
    ensures ServerToRead(cfg, SendServerCertificate) == KeyFlight(cfg, LastClientFlight(cfg, End))
  {
    hide ServerToSend, ServerToRead, ServerTakes, May, LastServerFlight, LastClientFlight, KeyFlight;
    ServerKeys(cfg);
    ServerUnfold(cfg, SendServerHelloDone);
    ServerUnfold(cfg, SendServerKeyExchange);
    ServerUnfold(cfg, SendServerCertificate);
    ServerReadsAhead(cfg);
  }

  lemma ServerKeys(cfg: Setting)
    requires !cfg.resumed
    ensures ServerToRead(cfg, ReadClientCertificate) == KeyFlight(cfg, LastClientFlight(cfg, End))
    ensures ServerToSend(cfg, ReadClientCertificate) == LastServerFlight(cfg, End)
  {
    hide ServerToSend, ServerToRead, May, LastServerFlight, LastClientFlight;
    ServerEnds(cfg);
    ServerUnfold(cfg, ReadClientCertificateVerify);
    ServerUnfold(cfg, ReadClientKeyExchange);
    ServerUnfold(cfg, VerifyClientCertificate);
    ServerUnfold(cfg, ReadClientCertificate);
  }

  /** Nothing is read while the first flight is sent. */
  lemma ServerReadsAhead(cfg: Setting)
    requires !cfg.resumed
    ensures ServerToRead(cfg, SendServerCertificate) == ServerToRead(cfg, ReadClientCertificate)
  {
    hide ServerToSend, ServerToRead, ServerAdds;
    ServerUnfold(cfg, SendServerHelloDone);
    ServerUnfold(cfg, SendServerKeyExchange);
    ServerUnfold(cfg, SendServerCertificate);
  }

  /** The server's path is the other half of the same script. */
  lemma ServerPlays(cfg: Setting)
    ensures ServerToSend(cfg, StartAccept) == ServerScript(cfg) && ServerToRead(cfg, StartAccept) == ClientScript(cfg)
  {
    hide ServerToSend, ServerToRead, LastServerFlight, LastClientFlight, KeyFlight, ServerFlight;
    ServerEnds(cfg);
    if !cfg.resumed {
      ServerFull(cfg);
    }
    ServerUnfold(cfg, SendServerHello);
    ServerUnfold(cfg, SelectParameters);
    ServerUnfold(cfg, SelectCertificate);
    ServerUnfold(cfg, ReadClientHello);
    ServerUnfold(cfg, StartAccept);
  }

  // ---------------------------------------------------------------- one step of one side

  /** The flags that the sides remember are those of the setting, once they
      have read what sets them. */
  predicate ClientFlagOk(cfg: Setting, st: ClientState, certRequested: bool) {
    certRequested == (cfg.RequestsCert() && ClientRank(false, st) < ClientRank(false, ReadCertificateRequest))
  }

  predicate ServerFlagOk(cfg: Setting, st: ServerState, peerCert: bool) {
    peerCert == (cfg.RequestsCert() && cfg.clientCert && ServerRank(false, st) < ServerRank(false, ReadClientCertificate))
  }

  /** No resumed handshake is in a state of the full one. */
  predicate ClientMode(cfg: Setting, st: ClientState) {
    cfg.resumed ==> ClientRank(true, st) <= 6 || ClientRank(true, st) >= 17
  }

  predicate ServerMode(cfg: Setting, st: ServerState) {
    cfg.resumed ==> ServerRank(true, st) <= 8 || ServerRank(true, st) >= 16
  }

  predicate HeadOk(toRead: Script, head: Option<Kind>) {
    head.Some? ==> toRead.Then? && head.value == toRead.kind && head.value != ChangeCipherSpec
  }

  /** What a step leaves to read: all, or what is behind the message it used. A
      ChangeCipherSpec is used before the step that processes it. */
  function LeftToRead(toRead: Script, consumes: bool): Script {
    if consumes && toRead.Then? then toRead.rest else toRead
  }

  /** Where a message is only looked at, what it is told apart from. */
  predicate ClientPeeks(cfg: Setting, st: ClientState, head: Kind) {
    match st
    case ReadHelloVerifyRequest => head != HelloVerifyRequest
    case ReadCertificateStatus => head == CertificateStatus ==> cfg.certAuth && cfg.status
    case ReadServerKeyExchange => head == ServerKeyExchange <==> cfg.SendsKeyExchange()
    case ReadCertificateRequest => cfg.certAuth ==> head == if cfg.RequestsCert() then CertificateRequest else ServerHelloDone
    case _ => true
  }

  lemma ClientHeads(cfg: Setting, st: ClientState, head: Kind)
    requires st != ClientDone && ClientMode(cfg, st) && HeadOk(ClientToRead(cfg, st), Some(head))
    ensures ClientPeeks(cfg, st, head)
  {
    hide ClientToRead, LastServerFlight, KeyFlight, LastClientFlight;
    if !cfg.resumed {
      ClientFull(cfg);
    }
    ClientUnfold(cfg, st);
    ClientUnfold(cfg, ReadServerHello);
  }

  /** States that may wait for a handshake message. */
  predicate ClientReading(cfg: Setting, st: ClientState) {
    || st.ReadHelloVerifyRequest? || st.ReadServerHello? || st.ReadServerCertificate? || st.ReadCertificateStatus?
    || st.ReadServerKeyExchange? || st.ReadCertificateRequest? || st.ReadServerHelloDone?
    || (st.ReadSessionTicket? && cfg.ticket) || st.ReadServerFinished?
  }

  predicate ServerReading(cfg: Setting, st: ServerState) {
    || st.ReadClientHello? || st.SelectCertificate? || st.SelectParameters? || st.ReadClientCertificate? || st.ReadClientKeyExchange?
    || (st.ReadClientCertificateVerify? && cfg.RequestsCert() && cfg.clientCert)
    || st.ReadNextProto? || st.ReadChannelId? || st.ReadClientFinished?
  }

  /** A step moves to the next state or stays; it waits for a message only if
      there is none, and for a ChangeCipherSpec only before processing it. */
  ghost predicate ClientMoves(cfg: Setting, st: ClientState, o: Outcome<ClientState>, head: Option<Kind>) {
    && o.wait != Failed
    && (o.wait == ReadMessage ==> o.state == st && head.None? && ClientReading(cfg, st))
    && (o.wait == ReadCcs <==> o.state == ClientProcessCcs)
    && (o.state == st ==> o.adds == [] && !o.consumes)
    && (o.state != st ==> o.state == ClientNext(cfg, st))
    && (o.consumes ==> head.Some?)
  }

  lemma ClientDoMoves(cfg: Setting, st: ClientState, certRequested: bool, head: Option<Kind>, pause: bool, toRead: Script)
    requires st != ClientDone && st != ClientProcessCcs
    requires HeadOk(ClientTakes(cfg, st, toRead), head) && (head.Some? ==> ClientPeeks(cfg, st, head.value))
    ensures ClientMoves(cfg, st, ClientDo(cfg, st, certRequested, head, pause), head)
  {
    hide LastClientFlight;
  }

  /** If it moves, it uses up what the script says. */
  lemma ClientDoTakes(cfg: Setting, st: ClientState, certRequested: bool, head: Option<Kind>, pause: bool, toRead: Script)
    requires st != ClientDone && st != ClientProcessCcs
    requires HeadOk(ClientTakes(cfg, st, toRead), head) && (head.Some? ==> ClientPeeks(cfg, st, head.value))
    ensures var o := ClientDo(cfg, st, certRequested, head, pause);
            o.state != st ==> toRead == LeftToRead(ClientTakes(cfg, st, toRead), o.consumes)
  {
    hide LastClientFlight;
  }

  /** If it moves, it adds what the script says. */
  lemma ClientDoAdds(cfg: Setting, st: ClientState, certRequested: bool, head: Option<Kind>, pause: bool, toSend: Script)
    requires st != ClientDone && ClientFlagOk(cfg, st, certRequested) && (head.Some? ==> ClientPeeks(cfg, st, head.value))
    ensures var o := ClientDo(cfg, st, certRequested, head, pause);
            o.state != st ==> Behind(o.adds, toSend) == ClientAdds(cfg, st, toSend)
  {
    hide LastClientFlight, Behind;
    BehindOne(ClientHello, toSend);
    BehindOne(Certificate(!cfg.clientCert), toSend);
    BehindOne(ClientKeyExchange, toSend);
    BehindOne(CertificateVerify, toSend);
    BehindLast(cfg, toSend);
  }

  lemma BehindOne(k: Kind, s: Script)
    ensures Behind([k], s) == Then(k, s) && Behind([], s) == s
  {
    assert [k][1..] == [];
  }

  lemma BehindLast(cfg: Setting, s: Script)
    ensures Behind([ChangeCipherSpec] + If(cfg.npn, NextProto) + If(cfg.channelId, ChannelId) + [Finished], s) == LastClientFlight(cfg, s)
  {
    BehindBehind([ChangeCipherSpec] + If(cfg.npn, NextProto) + If(cfg.channelId, ChannelId), [Finished], s);
    BehindOne(Finished, s);
    var s1 := Then(Finished, s);
    BehindBehind([ChangeCipherSpec] + If(cfg.npn, NextProto), If(cfg.channelId, ChannelId), s1);
    BehindOne(ChannelId, s1);
    var s2 := May(cfg.channelId, ChannelId, s1);
    BehindBehind([ChangeCipherSpec], If(cfg.npn, NextProto), s2);
    BehindOne(NextProto, s2);
    BehindOne(ChangeCipherSpec, May(cfg.npn, NextProto, s2));
  }

  ghost predicate ServerMoves(cfg: Setting, st: ServerState, o: Outcome<ServerState>, head: Option<Kind>) {
    && o.wait != Failed
    && (o.wait == ReadMessage ==> o.state == st && head.None? && ServerReading(cfg, st))
    && (o.wait == ReadCcs <==> o.state == ServerProcessCcs)
    && (o.state == st ==> o.adds == [] && !o.consumes)
    && (o.state != st ==> o.state == ServerNext(cfg, st))
    && (o.consumes ==> head.Some?)
  }

  predicate ServerPeeks(cfg: Setting, st: ServerState, head: Kind) {
    st.ReadClientHello? || st.SelectCertificate? ==> head == ClientHello
  }

  lemma ServerHeads(cfg: Setting, st: ServerState, head: Kind)
    requires st != ServerDone && HeadOk(ServerToRead(cfg, st), Some(head))
    ensures ServerPeeks(cfg, st, head)
  {
    hide ServerToRead;
    if st.ReadClientHello? || st.SelectCertificate? {
      ServerExpectsHello(cfg, st);
    }
  }

  lemma ServerDoMoves(cfg: Setting, st: ServerState, peerCert: bool, head: Option<Kind>, pause: bool, toRead: Script)
    requires st != ServerDone && st != ServerProcessCcs && ServerFlagOk(cfg, st, peerCert)
    requires HeadOk(ServerTakes(cfg, st, toRead), head) && (head.Some? ==> ServerPeeks(cfg, st, head.value))
    ensures ServerMoves(cfg, st, ServerDo(cfg, st, peerCert, head, pause), head)
  {
    hide ServerDo, ServerFlagOk, ServerTakes, ServerReading;
    ServerDoGoes(cfg, st, peerCert, head, pause);
    ServerDoWaits(cfg, st, peerCert, head, pause);
    ServerDoFits(cfg, st, peerCert, head, pause, toRead);
  }

  lemma ServerDoGoes(cfg: Setting, st: ServerState, peerCert: bool, head: Option<Kind>, pause: bool)
    requires st != ServerDone && st != ServerProcessCcs
    ensures var o := ServerDo(cfg, st, peerCert, head, pause);
            && (o.state == st ==> o.adds == [] && !o.consumes)
            && (o.state != st ==> o.state == ServerNext(cfg, st))
  {
  }

  lemma ServerDoWaits(cfg: Setting, st: ServerState, peerCert: bool, head: Option<Kind>, pause: bool)
    requires st != ServerDone && st != ServerProcessCcs
    ensures var o := ServerDo(cfg, st, peerCert, head, pause);
            (o.wait == ReadCcs <==> o.state == ServerProcessCcs) && (o.consumes ==> head.Some?)
  {
  }

  lemma ServerDoFits(cfg: Setting, st: ServerState, peerCert: bool, head: Option<Kind>, pause: bool, toRead: Script)
    requires st != ServerDone && st != ServerProcessCcs && ServerFlagOk(cfg, st, peerCert)
    requires HeadOk(ServerTakes(cfg, st, toRead), head) && (head.Some? ==> ServerPeeks(cfg, st, head.value))
    ensures var o := ServerDo(cfg, st, peerCert, head, pause);
            && o.wait != Failed
            && (o.wait == ReadMessage ==> o.state == st && head.None? && ServerReading(cfg, st))
  {
  }

  lemma ServerDoTakes(cfg: Setting, st: ServerState, peerCert: bool, head: Option<Kind>, pause: bool, toRead: Script)
    requires st != ServerDone && st != ServerProcessCcs && ServerFlagOk(cfg, st, peerCert)
    requires HeadOk(ServerTakes(cfg, st, toRead), head) && (head.Some? ==> ServerPeeks(cfg, st, head.value))
    ensures var o := ServerDo(cfg, st, peerCert, head, pause);
            o.state != st ==> toRead == LeftToRead(ServerTakes(cfg, st, toRead), o.consumes)
  {
    hide LastServerFlight;
  }

  lemma BehindIf(b: bool, k: Kind, s: Script)
    ensures Behind(If(b, k), s) == May(b, k, s)
  {
    BehindOne(k, s);
  }

  lemma ServerDoAdds(cfg: Setting, st: ServerState, peerCert: bool, head: Option<Kind>, pause: bool, toSend: Script)
    requires st != ServerDone
    ensures var o := ServerDo(cfg, st, peerCert, head, pause);
            o.state != st ==> Behind(o.adds, toSend) == ServerAdds(cfg, st, toSend)
  {
    hide Behind, If, May;
    BehindOne(ServerHello, toSend);
    BehindOne(ServerKeyExchange, toSend);
    MayIs(cfg.SendsKeyExchange(), ServerKeyExchange, toSend);
    BehindIf(cfg.certAuth && cfg.status, CertificateStatus, toSend);
    BehindIf(cfg.certAuth, Certificate(false), May(cfg.certAuth && cfg.status, CertificateStatus, toSend));
    BehindBehind(If(cfg.certAuth, Certificate(false)), If(cfg.certAuth && cfg.status, CertificateStatus), toSend);
    BehindOne(ServerHelloDone, toSend);
    BehindIf(cfg.RequestsCert(), CertificateRequest, Then(ServerHelloDone, toSend));
    BehindBehind(If(cfg.RequestsCert(), CertificateRequest), [ServerHelloDone], toSend);
    BehindPair(ChangeCipherSpec, Finished, toSend);
    BehindIf(cfg.ticket, NewSessionTicket, Then(ChangeCipherSpec, Then(Finished, toSend)));
    BehindBehind(If(cfg.ticket, NewSessionTicket), [ChangeCipherSpec, Finished], toSend);
  }

  lemma MayIs(b: bool, k: Kind, s: Script)
    ensures May(b, k, s) == if b then Then(k, s) else s
  {
  }

  lemma BehindPair(a: Kind, b: Kind, s: Script)
    ensures Behind([a, b], s) == Then(a, Then(b, s))
  {
    BehindOne(b, s);
    assert [a, b][1..] == [b];
  }

  /** Where a handshake message is waited for, one comes next. */
  lemma ClientExpectsMessage(cfg: Setting, st: ClientState)
    requires ClientReading(cfg, st) && ClientMode(cfg, st)
    ensures ClientToRead(cfg, st).Then? && ClientToRead(cfg, st).kind != ChangeCipherSpec
  {
    hide ClientToRead, ClientToSend, ClientAdds, LastServerFlight, LastClientFlight, KeyFlight;
    if !cfg.resumed {
      ClientFull(cfg);
      ClientUnfold(cfg, ReadCertificateStatus);
    }
    ClientUnfold(cfg, ReadServerHello);
    ClientUnfold(cfg, ReadHelloVerifyRequest);
    ClientUnfold(cfg, ReadSessionTicket);
    ClientUnfold(cfg, ReadServerFinished);
  }

  lemma ServerExpectsMessage(cfg: Setting, st: ServerState)
    requires ServerReading(cfg, st)
    ensures ServerToRead(cfg, st).Then? && ServerToRead(cfg, st).kind != ChangeCipherSpec
  {
    hide ServerToRead;
    if st.ReadClientHello? || st.SelectCertificate? || st.SelectParameters? {
      ServerExpectsHello(cfg, st);
    } else if st.ReadNextProto? || st.ReadChannelId? || st.ReadClientFinished? {
      ServerExpectsLast(cfg, st);
    } else {
      ServerExpectsKeys(cfg, st);
    }
  }

  lemma ServerExpectsHello(cfg: Setting, st: ServerState)
    requires st.ReadClientHello? || st.SelectCertificate? || st.SelectParameters?
    ensures ServerToRead(cfg, st).Then? && ServerToRead(cfg, st).kind == ClientHello
  {
    hide ServerToRead, ServerToSend, ServerAdds;
    ServerUnfold(cfg, SelectParameters);
    ServerUnfold(cfg, SelectCertificate);
    ServerUnfold(cfg, ReadClientHello);
  }

  lemma ServerExpectsKeys(cfg: Setting, st: ServerState)
    requires st.ReadClientCertificate? || st.ReadClientKeyExchange? || (st.ReadClientCertificateVerify? && cfg.RequestsCert() && cfg.clientCert)
    ensures ServerToRead(cfg, st).Then? && ServerToRead(cfg, st).kind != ChangeCipherSpec
  {
    hide ServerToRead, ServerToSend, ServerAdds;
    ServerUnfold(cfg, st);
    if st.ReadClientCertificate? {
      ServerUnfold(cfg, VerifyClientCertificate);
      ServerUnfold(cfg, ReadClientKeyExchange);
    }
  }

  lemma ServerExpectsLast(cfg: Setting, st: ServerState)
    requires st.ReadNextProto? || st.ReadChannelId? || st.ReadClientFinished?
    ensures ServerToRead(cfg, st).Then? && ServerToRead(cfg, st).kind != ChangeCipherSpec
  {
    hide ServerToRead, ServerToSend, ServerAdds;
    ServerUnfold(cfg, ReadClientFinished);
    ServerUnfold(cfg, ReadChannelId);
    ServerUnfold(cfg, ReadNextProto);
  }
}
