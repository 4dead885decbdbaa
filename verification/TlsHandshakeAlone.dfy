/** One side against a peer that may send anything, in any order: a side that
    comes to its end has been sent one of the handshakes of section 7.3 of RFC
    5246, and nothing else. */
module TlsHandshakeAlone {
  import opened Wrappers
  import opened TlsHandshakeSpec
  import opened TlsDuality
  import opened TlsHandshakeRuns

  // ---------------------------------------------------------------- what a client accepts

  /** What a client leaves to the server: a HelloVerifyRequest, a
      CertificateStatus, a ServerKeyExchange and a CertificateRequest. */
  datatype Choices = Choices(verify: bool, status: bool, keyExchange: bool, request: bool)

  /** A status only if one is expected, a key exchange if the cipher requires it, a
      request only from a server with a certificate. */
  predicate Allowed(cfg: Setting, ch: Choices) {
    (ch.status ==> cfg.status) && (cfg.skeRequired ==> ch.keyExchange) && (ch.request ==> cfg.certAuth)
  }

  /** The server's messages, with these choices. */
  function ServerSays(cfg: Setting, ch: Choices): Script {
    May(cfg.dtls && ch.verify, HelloVerifyRequest,
      Then(ServerHello,
        if cfg.resumed then LastServerFlight(cfg, End)
        else
          May(cfg.certAuth, Certificate(false),
            May(ch.status, CertificateStatus,
              May(ch.keyExchange, ServerKeyExchange,
                May(ch.request, CertificateRequest, Then(ServerHelloDone, LastServerFlight(cfg, End))))))))
  }

  /** What is read in a state, before `rest`. */
  function HearsAt(cfg: Setting, ch: Choices, st: ClientState, rest: Script): Script {
    match st
    case ReadHelloVerifyRequest => May(ch.verify, HelloVerifyRequest, rest)
    case ReadServerHello => Then(ServerHello, rest)
    case ReadServerCertificate => May(cfg.certAuth, Certificate(false), rest)
    case ReadCertificateStatus => May(ch.status, CertificateStatus, rest)
    case ReadServerKeyExchange => May(ch.keyExchange, ServerKeyExchange, rest)
    case ReadCertificateRequest => May(ch.request, CertificateRequest, rest)
    case ReadServerHelloDone => Then(ServerHelloDone, rest)
    case ReadSessionTicket => May(cfg.ticket, NewSessionTicket, rest)
    case ClientProcessCcs => Then(ChangeCipherSpec, rest)
    case ReadServerFinished => Then(Finished, rest)
    case _ => rest
  }

  function Hears(cfg: Setting, ch: Choices, st: ClientState): Script
    decreases ClientRank(cfg.resumed, st)
  {
    if st == ClientDone then End else HearsAt(cfg, ch, st, Hears(cfg, ch, ClientNext(cfg, st)))
  }

  lemma HearsUnfolds(cfg: Setting, ch: Choices, st: ClientState)
    requires st != ClientDone
    ensures Hears(cfg, ch, st) == HearsAt(cfg, ch, st, Hears(cfg, ch, ClientNext(cfg, st)))
  {
  }

  lemma HearsEnd(cfg: Setting, ch: Choices)
    ensures Hears(cfg, ch, SendClientFinished) == if cfg.resumed then End else LastServerFlight(cfg, End)
    ensures Hears(cfg, ch, ReadSessionTicket) == LastServerFlight(cfg, End)
  {
    hide Hears;
    assert Hears(cfg, ch, ClientDone) == End by { HearsNothing(cfg, ch); }
    HearsUnfolds(cfg, ch, FinishClientHandshake);
    HearsUnfolds(cfg, ch, FinishFlight);
    HearsUnfolds(cfg, ch, SendClientFinished);
    HearsUnfolds(cfg, ch, ReadServerFinished);
    HearsUnfolds(cfg, ch, ClientProcessCcs);
    HearsUnfolds(cfg, ch, ReadSessionTicket);
  }

  lemma HearsNothing(cfg: Setting, ch: Choices)
    ensures Hears(cfg, ch, ClientDone) == End
  {
  }

  lemma HearsKeys(cfg: Setting, ch: Choices)
    requires !cfg.resumed
    ensures Hears(cfg, ch, ReadServerHelloDone) == Then(ServerHelloDone, LastServerFlight(cfg, End))
  {
    hide Hears, LastServerFlight;
    HearsEnd(cfg, ch);
    HearsUnfolds(cfg, ch, SendClientCertificateVerify);
    HearsUnfolds(cfg, ch, SendClientKeyExchange);
    HearsUnfolds(cfg, ch, SendClientCertificate);
    HearsUnfolds(cfg, ch, ReadServerHelloDone);
  }

  /** Read from the start, that is what the server says. */
  lemma HearsAll(cfg: Setting, ch: Choices)
    ensures Hears(cfg, ch, StartConnect) == ServerSays(cfg, ch)
  {
    hide Hears, LastServerFlight, May;
    HearsEnd(cfg, ch);
    if !cfg.resumed {
      HearsKeys(cfg, ch);
      HearsUnfolds(cfg, ch, ReadCertificateRequest);
      HearsUnfolds(cfg, ch, ReadServerKeyExchange);
      HearsUnfolds(cfg, ch, VerifyServerCertificate);
      HearsUnfolds(cfg, ch, ReadCertificateStatus);
      HearsUnfolds(cfg, ch, ReadServerCertificate);
    }
    HearsUnfolds(cfg, ch, ReadServerHello);
    HearsUnfolds(cfg, ch, ReadHelloVerifyRequest);
    HearsUnfolds(cfg, ch, EnterEarlyData);
    HearsUnfolds(cfg, ch, StartConnect);
    NoVerify(ch, Hears(cfg, ch, ReadServerHello));
  }

  lemma NoVerify(ch: Choices, s: Script)
    ensures May(false, HelloVerifyRequest, s) == s
  {
  }

  // ---------------------------------------------------------------- the client so far

  /** How many of the four choices have been made before a state. */
  function ChoicesMade(st: ClientState): nat {
    match st
    case StartConnect => 0
    case EnterEarlyData => 0
    case ReadHelloVerifyRequest => 0
    case ReadServerHello => 1
    case ReadServerCertificate => 1
    case ReadCertificateStatus => 1
    case VerifyServerCertificate => 2
    case ReadServerKeyExchange => 2
    case ReadCertificateRequest => 3
    case _ => 4
  }

  /** The two agree on the first n choices. */
  predicate SameFirst(n: nat, a: Choices, b: Choices) {
    && (n >= 1 ==> a.verify == b.verify) && (n >= 2 ==> a.status == b.status)
    && (n >= 3 ==> a.keyExchange == b.keyExchange) && (n >= 4 ==> a.request == b.request)
  }

  /** What is left to read; a ChangeCipherSpec is read before it is processed. */
  function LeftFor(cfg: Setting, ch: Choices, c: Side<ClientState>): Script {
    LeftToRead(Hears(cfg, ch, c.state), c.state == ClientProcessCcs && c.wait == Ready)
  }

  /** Whatever the choices still to be made, what has been read and what will be
      make up what the server says with them. */
  ghost predicate Follows(cfg: Setting, c: Side<ClientState>, got: seq<Kind>, past: Choices) {
    && Allowed(cfg, past)
    && forall ch | SameFirst(ChoicesMade(c.state), ch, past) :: Behind(got, LeftFor(cfg, ch, c)) == ServerSays(cfg, ch)
  }

  predicate CcsWaits(c: Side<ClientState>) {
    && (c.wait == ReadCcs ==> c.state == ClientProcessCcs)
    && (c.state == ClientProcessCcs ==> c.wait == ReadCcs || c.wait == Ready || c.wait == Failed)
  }

  ghost predicate ClientFollows(cfg: Setting, c: Side<ClientState>, got: seq<Kind>) {
    CcsWaits(c) && exists past :: Follows(cfg, c, got, past)
  }

  /** The choices with the one that is made in a state, given the message there. */
  function Choose(cfg: Setting, st: ClientState, past: Choices, head: Option<Kind>): Choices {
    match st
    case ReadHelloVerifyRequest => past.(verify := head == Some(HelloVerifyRequest))
    case ReadCertificateStatus => past.(status := cfg.status && head == Some(CertificateStatus))
    case ReadServerKeyExchange => past.(keyExchange := head == Some(ServerKeyExchange))
    case ReadCertificateRequest => past.(request := cfg.certAuth && head == Some(CertificateRequest))
    case _ => past
  }

  /** Where one step goes. */
  lemma StepGoes(cfg: Setting, st: ClientState, flag: bool, head: Option<Kind>, pause: bool)
    requires st != ClientDone && st != ClientProcessCcs
    ensures var o := ClientDo(cfg, st, flag, head, pause);
            && (o.state == st ==> !o.consumes)
            && (o.state != st ==> o.state == ClientNext(cfg, st))
  {
    hide LastClientFlight;
  }

  lemma StepWaits(cfg: Setting, st: ClientState, flag: bool, head: Option<Kind>, pause: bool)
    requires st != ClientDone && st != ClientProcessCcs
    ensures var o := ClientDo(cfg, st, flag, head, pause);
            (o.wait == ReadCcs <==> o.state == ClientProcessCcs) && (o.consumes ==> head.Some?)
  {
    hide LastClientFlight;
  }

  /** A choice is made once, and only as allowed. */
  lemma StepChooses(cfg: Setting, st: ClientState, flag: bool, head: Option<Kind>, pause: bool, past: Choices, ch: Choices)
    requires st != ClientDone && st != ClientProcessCcs && Allowed(cfg, past)
    requires ClientDo(cfg, st, flag, head, pause).state == ClientNext(cfg, st) != st
    requires SameFirst(ChoicesMade(ClientNext(cfg, st)), ch, Choose(cfg, st, past, head))
    ensures Allowed(cfg, Choose(cfg, st, past, head))
    ensures SameFirst(ChoicesMade(st), ch, past)
    ensures st.ReadHelloVerifyRequest? ==> ch.verify == (head == Some(HelloVerifyRequest))
    ensures st.ReadCertificateStatus? ==> ch.status == (cfg.status && head == Some(CertificateStatus))
    ensures st.ReadServerKeyExchange? ==> ch.keyExchange == (head == Some(ServerKeyExchange))
    ensures st.ReadCertificateRequest? ==> ch.request == (cfg.certAuth && head == Some(CertificateRequest))
  {
    hide LastClientFlight;
    if st == ReadServerKeyExchange {
    } else {
      hide ClientDo;
    }
  }

  /** What one step reads is what the script with its choice says. */
  lemma StepReads(cfg: Setting, st: ClientState, flag: bool, head: Option<Kind>, pause: bool, ch: Choices, rest: Script)
    requires st != ClientDone && st != ClientProcessCcs
    requires ClientDo(cfg, st, flag, head, pause).state != st
    requires st.ReadHelloVerifyRequest? ==> ch.verify == (head == Some(HelloVerifyRequest))
    requires st.ReadCertificateStatus? ==> ch.status == (cfg.status && head == Some(CertificateStatus))
    requires st.ReadServerKeyExchange? ==> ch.keyExchange == (head == Some(ServerKeyExchange))
    requires st.ReadCertificateRequest? ==> ch.request == (cfg.certAuth && head == Some(CertificateRequest))
    ensures var o := ClientDo(cfg, st, flag, head, pause);
            if o.consumes then head.Some? && HearsAt(cfg, ch, st, rest) == Then(head.value, rest) else HearsAt(cfg, ch, st, rest) == rest
  {
    hide LastClientFlight;
  }

  // ---------------------------------------------------------------- a client alone

  /** The client runs, with callbacks ready or not; the peer sends anything; or
      some of what the client has added goes out. */
  datatype AloneMove = Runs(pause: bool) | PeerSends(ks: seq<Kind>, delivered: nat) | Flushes(n: nat)

  function ClientAlone(cfg: Setting, w: World, mv: AloneMove): World {
    match mv
    case Runs(pause) => ClientMove(cfg, w, pause)
    case PeerSends(ks, n) => w.(toClient := Flushed(w.toClient.Added(ks), n))
    case Flushes(n) => w.(toServer := Flushed(w.toServer, n))
  }

  ghost predicate IsClientAlone(cfg: Setting, mvs: seq<AloneMove>, ws: seq<World>) {
    && |ws| == |mvs| + 1 && ws[0] == Start()
    && forall i {:trigger mvs[i]} | 0 <= i < |mvs| :: ws[i + 1] == ClientAlone(cfg, ws[i], mvs[i])
  }

  lemma ClientBegins(cfg: Setting)
    ensures ClientFollows(cfg, Start().c, [])
  {
    hide Hears, ServerSays;
    var past := Choices(false, false, true, false);
    forall ch ensures LeftFor(cfg, ch, Start().c) == ServerSays(cfg, ch) {
      HearsAll(cfg, ch);
    }
    assert Follows(cfg, Start().c, [], past);
  }

  lemma CcsRead(cfg: Setting, w: World)
    requires ClientFollows(cfg, w.c, w.cGot) && w.c.wait != Ready
    ensures var w' := ClientMove(cfg, w, false); ClientFollows(cfg, w'.c, w'.cGot)
    ensures ClientMove(cfg, w, true) == ClientMove(cfg, w, false)
  {
    hide Hears, ServerSays, Behind, ClientDo;
    var w' := ClientMove(cfg, w, false);
    var past :| Follows(cfg, w.c, w.cGot, past);
    forall ch | SameFirst(ChoicesMade(w'.c.state), ch, past) ensures Behind(w'.cGot, LeftFor(cfg, ch, w'.c)) == ServerSays(cfg, ch) {
      if w.c.state == ClientProcessCcs {
        HearsUnfolds(cfg, ch, ClientProcessCcs);
        GotOne(w.cGot, ChangeCipherSpec, Hears(cfg, ch, ReadServerFinished));
      }
    }
    assert Follows(cfg, w'.c, w'.cGot, past);
  }

  lemma CcsStep(cfg: Setting, w: World, pause: bool)
    requires ClientFollows(cfg, w.c, w.cGot) && w.c.wait == Ready && w.c.state == ClientProcessCcs
    ensures var w' := ClientMove(cfg, w, pause); ClientFollows(cfg, w'.c, w'.cGot)
  {
    hide Hears, ServerSays, Behind, ClientDo;
    CcsProcessed(cfg, w.c.flag, Message(w.toClient), pause);
    var w' := ClientMove(cfg, w, pause);
    assert w.cGot + [] == w.cGot;
    var past :| Follows(cfg, w.c, w.cGot, past);
    forall ch | SameFirst(ChoicesMade(w'.c.state), ch, past) ensures Behind(w'.cGot, LeftFor(cfg, ch, w'.c)) == ServerSays(cfg, ch) {
      HearsUnfolds(cfg, ch, ClientProcessCcs);
    }
    assert Follows(cfg, w'.c, w'.cGot, past);
  }

  lemma OtherStep(cfg: Setting, w: World, pause: bool)
    requires ClientFollows(cfg, w.c, w.cGot) && w.c.wait == Ready && w.c.state != ClientProcessCcs && w.c.state != ClientDone
    ensures var w' := ClientMove(cfg, w, pause); ClientFollows(cfg, w'.c, w'.cGot)
  {
    hide Hears, HearsAt, ServerSays, Behind, ClientDo, ClientNext, ChoicesMade, Choose;
    var st, head := w.c.state, Message(w.toClient);
    var o := ClientDo(cfg, st, w.c.flag, head, pause);
    var w' := ClientMove(cfg, w, pause);
    StepGoes(cfg, st, w.c.flag, head, pause);
    StepWaits(cfg, st, w.c.flag, head, pause);
    assert w.cGot + [] == w.cGot;
    var past :| Follows(cfg, w.c, w.cGot, past);
    if o.state == st {
      assert Follows(cfg, w'.c, w'.cGot, past);
    } else {
      var next := Choose(cfg, st, past, head);
      StepChooses(cfg, st, w.c.flag, head, pause, past, next);
      forall ch | SameFirst(ChoicesMade(o.state), ch, next) ensures Behind(w'.cGot, LeftFor(cfg, ch, w'.c)) == ServerSays(cfg, ch) {
        StepChooses(cfg, st, w.c.flag, head, pause, past, ch);
        StepReads(cfg, st, w.c.flag, head, pause, ch, Hears(cfg, ch, o.state));
        HearsUnfolds(cfg, ch, st);
        if o.consumes {
          GotOne(w.cGot, head.value, Hears(cfg, ch, o.state));
        }
      }
      assert Follows(cfg, w'.c, w'.cGot, next);
    }
  }

  lemma {:induction false} ClientFollowsAlways(cfg: Setting, mvs: seq<AloneMove>, ws: seq<World>, n: nat)
    requires IsClientAlone(cfg, mvs, ws) && n <= |mvs|
    ensures ClientFollows(cfg, ws[n].c, ws[n].cGot)
  {
    hide ClientFollows, ClientMove;
    if n == 0 {
      ClientBegins(cfg);
    } else {
      var w := ws[n - 1];
      ClientFollowsAlways(cfg, mvs, ws, n - 1);
      if mvs[n - 1].Runs? {
        var pause := mvs[n - 1].pause;
        if w.c.wait != Ready {
          CcsRead(cfg, w);
        } else if w.c.state == ClientProcessCcs {
          CcsStep(cfg, w, pause);
        } else if w.c.state != ClientDone {
          OtherStep(cfg, w, pause);
        } else {
          DoneStays(cfg, w, pause);
        }
      }
    }
  }

  lemma DoneStays(cfg: Setting, w: World, pause: bool)
    requires w.c.wait == Ready && w.c.state == ClientDone
    ensures ClientMove(cfg, w, pause) == w
  {
  }

  /** Whatever a peer sends, a client that comes to its end has read a server's
      side of a handshake from start to end, with choices it allows, and that
      ends in the one Finished and has the one ChangeCipherSpec before it. */
  lemma ClientAcceptsOnly(cfg: Setting, mvs: seq<AloneMove>, ws: seq<World>, n: nat) returns (ch: Choices)
    requires IsClientAlone(cfg, mvs, ws) && n <= |mvs| && ws[n].c.state == ClientDone
    ensures Allowed(cfg, ch) && ws[n].cGot == Messages(ServerSays(cfg, ch)) && EndsInFinished(ws[n].cGot)
    ensures Count(ServerSays(cfg, ch), ChangeCipherSpec) == 1
  {
    hide ServerSays, Hears, LastServerFlight;
    ClientFollowsAlways(cfg, mvs, ws, n);
    ch :| Follows(cfg, ws[n].c, ws[n].cGot, ch);
    HearsNothing(cfg, ch);
    assert Behind(ws[n].cGot, End) == ServerSays(cfg, ch);
    MessagesBehind(ws[n].cGot);
    SaysCloses(cfg, ch);
    ScriptEndsInFinished(ServerSays(cfg, ch));
  }

  lemma SaysCloses(cfg: Setting, ch: Choices)
    ensures Closes(ServerSays(cfg, ch), 1)
  {
    hide May, Closes, LastServerFlight;
    LastFlightsClose(cfg);
    var last := LastServerFlight(cfg, End);
    var done := Then(ServerHelloDone, last);
    MayCloses(false, ServerHelloDone, last, 1);
    MayCloses(ch.request, CertificateRequest, done, 1);
    var s1 := May(ch.request, CertificateRequest, done);
    MayCloses(ch.keyExchange, ServerKeyExchange, s1, 1);
    var s2 := May(ch.keyExchange, ServerKeyExchange, s1);
    MayCloses(ch.status, CertificateStatus, s2, 1);
    var s3 := May(ch.status, CertificateStatus, s2);
    MayCloses(cfg.certAuth, Certificate(false), s3, 1);
    var s4 := if cfg.resumed then last else May(cfg.certAuth, Certificate(false), s3);
    MayCloses(false, ServerHello, s4, 1);
    MayCloses(cfg.dtls && ch.verify, HelloVerifyRequest, Then(ServerHello, s4), 1);
  }

  // ---------------------------------------------------------------- a server alone

  /** The setting of a client that has a certificate, or has none: the one choice
      that a server leaves to it. */
  function With(cfg: Setting, cert: bool): Setting {
    cfg.(clientCert := cert)
  }

  /** The client's certificate has been read, or would have been. */
  predicate CertPast(st: ServerState) {
    ServerRank(false, st) < ServerRank(false, ReadClientCertificate)
  }

  /** The hello stays at hand until it is used. */
  predicate HelloAtHand(w: World) {
    w.s.state.SelectCertificate? || w.s.state.SelectParameters? ==> Message(w.toServer) == Some(ClientHello)
  }

  ghost predicate ServerFits(cfg: Setting, s: Side<ServerState>, got: seq<Kind>, cert: bool) {
    && ServerFlagOk(With(cfg, cert), s.state, s.flag)
    && forall e | CertPast(s.state) ==> e == cert ::
         Behind(got, LeftToRead(ServerToRead(With(cfg, e), s.state), s.state == ServerProcessCcs && s.wait == Ready)) == ClientScript(With(cfg, e))
  }

  ghost predicate ServerFollows(cfg: Setting, w: World) {
    && HelloAtHand(w) && ServerMode(cfg, w.s.state)
    && (w.s.wait == ReadCcs ==> w.s.state == ServerProcessCcs)
    && (w.s.state == ServerProcessCcs ==> w.s.wait == ReadCcs || w.s.wait == Ready || w.s.wait == Failed)
    && exists cert :: ServerFits(cfg, w.s, w.sGot, cert)
  }

  function ServerAlone(cfg: Setting, w: World, mv: AloneMove): World {
    match mv
    case Runs(pause) => ServerMove(cfg, w, pause)
    case PeerSends(ks, n) => w.(toServer := Flushed(w.toServer.Added(ks), n))
    case Flushes(n) => w.(toClient := Flushed(w.toClient, n))
  }

  ghost predicate IsServerAlone(cfg: Setting, mvs: seq<AloneMove>, ws: seq<World>) {
    && |ws| == |mvs| + 1 && ws[0] == Start()
    && forall i {:trigger mvs[i]} | 0 <= i < |mvs| :: ws[i + 1] == ServerAlone(cfg, ws[i], mvs[i])
  }

  lemma BeginningFlags(cfg: Setting)
    ensures ServerFlagOk(With(cfg, false), StartAccept, false) && ServerMode(cfg, StartAccept)
  {
  }

  lemma ServerBegins(cfg: Setting)
    ensures ServerFollows(cfg, Start())
  {
    hide ServerToRead, ClientScript, ServerFlagOk, ServerMode, CertPast, Behind, With;
    BeginningFlags(cfg);
    forall e ensures Behind([], ServerToRead(With(cfg, e), StartAccept)) == ClientScript(With(cfg, e)) {
      ServerPlays(With(cfg, e));
      BehindNone(ServerToRead(With(cfg, e), StartAccept));
    }
    assert ServerFits(cfg, Start().s, [], false);
  }

  /** The ChangeCipherSpec is read, and then processed. */
  lemma CcsFits(cfg: Setting, flag: bool, got: seq<Kind>, cert: bool)
    requires ServerFits(cfg, Side(ServerProcessCcs, ReadCcs, flag), got, cert)
    ensures ServerFits(cfg, Side(ServerProcessCcs, Ready, flag), got + [ChangeCipherSpec], cert)
  {
    hide ServerToRead, ClientScript, Behind, ServerFlagOk, With;
    forall e | CertPast(ServerProcessCcs) ==> e == cert
      ensures Behind(got + [ChangeCipherSpec], LeftToRead(ServerToRead(With(cfg, e), ServerProcessCcs), true)) == ClientScript(With(cfg, e))
    {
      ServerUnfold(With(cfg, e), ServerProcessCcs);
      GotOne(got, ChangeCipherSpec, ServerToRead(With(cfg, e), ReadNextProto));
    }
  }

  lemma ProcessedFits(cfg: Setting, flag: bool, got: seq<Kind>, cert: bool)
    requires ServerFits(cfg, Side(ServerProcessCcs, Ready, flag), got, cert)
    ensures ServerFits(cfg, Side(ReadNextProto, Ready, flag), got, cert)
  {
    hide ServerToRead, ClientScript, Behind, With, ServerFlagOk, CertPast;
    AfterCcs(With(cfg, cert), flag);
    forall e | CertPast(ReadNextProto) ==> e == cert
      ensures Behind(got, ServerToRead(With(cfg, e), ReadNextProto)) == ClientScript(With(cfg, e))
    {
      ServerUnfold(With(cfg, e), ServerProcessCcs);
    }
  }

  lemma AfterCcs(cfg: Setting, flag: bool)
    ensures ServerFlagOk(cfg, ReadNextProto, flag) == ServerFlagOk(cfg, ServerProcessCcs, flag)
    ensures CertPast(ReadNextProto) && CertPast(ServerProcessCcs)
  {
  }

  /** Only the ChangeCipherSpec state looks at the wait. */
  lemma WaitFits(cfg: Setting, s: Side<ServerState>, wait: Wait, got: seq<Kind>, cert: bool)
    requires ServerFits(cfg, s, got, cert) && (s.state == ServerProcessCcs ==> s.wait != Ready && wait != Ready)
    ensures ServerFits(cfg, s.(wait := wait), got, cert)
  {
    hide ServerToRead, ClientScript, Behind, ServerFlagOk, With, CertPast;
  }

  lemma ServerCcsRead(cfg: Setting, w: World)
    requires ServerFollows(cfg, w) && w.s.wait != Ready
    ensures ServerFollows(cfg, ServerMove(cfg, w, false)) && ServerMove(cfg, w, true) == ServerMove(cfg, w, false)
  {
    hide ServerFits, ServerDo, ServerMode;
    var w' := ServerMove(cfg, w, false);
    var cert :| ServerFits(cfg, w.s, w.sGot, cert);
    if w.s.wait == ReadCcs && w'.s.wait == Ready {
      CcsFits(cfg, w.s.flag, w.sGot, cert);
    } else {
      WaitFits(cfg, w.s, w'.s.wait, w.sGot, cert);
    }
    assert ServerFits(cfg, w'.s, w'.sGot, cert);
  }

  lemma ServerCcsStep(cfg: Setting, w: World, pause: bool)
    requires ServerFollows(cfg, w) && w.s.wait == Ready && w.s.state == ServerProcessCcs
    ensures ServerFollows(cfg, ServerMove(cfg, w, pause))
  {
    hide ServerFits, ServerDo, ServerMode;
    assert ServerDo(cfg, ServerProcessCcs, w.s.flag, Message(w.toServer), pause) == Go(ReadNextProto) && ServerMode(cfg, ReadNextProto) by {
      NextAfterCcs(cfg, w.s.flag, Message(w.toServer), pause);
    }
    var w' := ServerMove(cfg, w, pause);
    assert w.sGot + [] == w.sGot;
    var cert :| ServerFits(cfg, w.s, w.sGot, cert);
    ProcessedFits(cfg, w.s.flag, w.sGot, cert);
    assert ServerFits(cfg, w'.s, w'.sGot, cert);
  }

  lemma NextAfterCcs(cfg: Setting, flag: bool, head: Option<Kind>, pause: bool)
    ensures ServerDo(cfg, ServerProcessCcs, flag, head, pause) == Go(ReadNextProto) && ServerMode(cfg, ReadNextProto)
  {
  }

  /** The choice, once it is made. */
  function CertChosen(cfg: Setting, st: ServerState, cert: bool, head: Option<Kind>): bool {
    if st == ReadClientCertificate then cfg.RequestsCert() && head == Some(Certificate(false)) else cert
  }

  /** The hello is looked at before it is used. */
  lemma HelloLookedAt(cfg: Setting, st: ServerState, peerCert: bool, head: Option<Kind>, pause: bool)
    requires st != ServerDone && st != ServerProcessCcs
    ensures var o := ServerDo(cfg, st, peerCert, head, pause);
            o.state != st && (o.state.SelectCertificate? || o.state.SelectParameters?) ==>
              !o.consumes && if st.ReadClientHello? then head == Some(ClientHello) else st.SelectCertificate?
  {
  }

  /** The choice is made where the certificate would be read. */
  lemma CertChoice(cfg: Setting, st: ServerState, cert: bool, head: Option<Kind>, e: bool)
    requires ServerMode(cfg, st) && (CertPast(ServerNext(cfg, st)) ==> e == CertChosen(cfg, st, cert, head))
    ensures CertPast(st) ==> e == cert
    ensures st.ReadClientCertificate? ==> e == CertChosen(cfg, st, cert, head)
  {
  }

  lemma ServerStepReads(cfg: Setting, st: ServerState, peerCert: bool, head: Option<Kind>, pause: bool, e: bool, rest: Script)
    requires st != ServerDone && st != ServerProcessCcs
    requires ServerDo(cfg, st, peerCert, head, pause).state == ServerNext(cfg, st) != st
    requires st.SelectParameters? ==> head == Some(ClientHello)
    requires st.ReadClientCertificate? ==> e == (cfg.RequestsCert() && head == Some(Certificate(false)))
    requires st.ReadClientCertificateVerify? ==> peerCert == (cfg.RequestsCert() && e)
    ensures var o := ServerDo(cfg, st, peerCert, head, pause);
            ServerTakes(With(cfg, e), st, rest) == if o.consumes && head.Some? then Then(head.value, rest) else rest
  {
  }

  lemma ServerFlagKept(cfg: Setting, st: ServerState, peerCert: bool, head: Option<Kind>, pause: bool, cert: bool)
    requires st != ServerDone && st != ServerProcessCcs && ServerFlagOk(With(cfg, cert), st, peerCert) && ServerMode(cfg, st)
    requires ServerDo(cfg, st, peerCert, head, pause).state == ServerNext(cfg, st) != st
    ensures var o := ServerDo(cfg, st, peerCert, head, pause);
            ServerFlagOk(With(cfg, CertChosen(cfg, st, cert, head)), o.state,
                         peerCert || (st == ReadClientCertificate && o.consumes && head == Some(Certificate(false))))
  {
    if st == ReadClientCertificate {
    } else {
      hide ServerDo;
    }
  }

  lemma ServerOtherStep(cfg: Setting, w: World, pause: bool)
    requires ServerFollows(cfg, w) && w.s.wait == Ready && w.s.state != ServerProcessCcs && w.s.state != ServerDone
    ensures ServerFollows(cfg, ServerMove(cfg, w, pause))
  {
    hide ServerToRead, ServerTakes, ClientScript, Behind, ServerDo, ServerNext, ServerFlagOk, ServerMode, CertPast, With, CertChosen;
    var st, head := w.s.state, Message(w.toServer);
    var o := ServerDo(cfg, st, w.s.flag, head, pause);
    var w' := ServerMove(cfg, w, pause);
    ServerDoGoes(cfg, st, w.s.flag, head, pause);
    ServerDoWaits(cfg, st, w.s.flag, head, pause);
    HelloLookedAt(cfg, st, w.s.flag, head, pause);
    ServerModeKept(cfg, st);
    assert w.sGot + [] == w.sGot;
    var cert :| ServerFits(cfg, w.s, w.sGot, cert);
    if o.state == st {
      ServerStays(cfg, w, pause);
      assert ServerFits(cfg, w'.s, w'.sGot, cert);
    } else {
      var next := CertChosen(cfg, st, cert, head);
      ServerFlagKept(cfg, st, w.s.flag, head, pause, cert);
      forall e | CertPast(o.state) ==> e == next
        ensures Behind(w'.sGot, LeftToRead(ServerToRead(With(cfg, e), o.state), o.state == ServerProcessCcs && o.wait == Ready)) == ClientScript(With(cfg, e))
      {
        CertChoice(cfg, st, cert, head, e);
        VerifyFlag(cfg, st, w.s.flag, cert, head);
        ServerStepReads(cfg, st, w.s.flag, head, pause, e, ServerToRead(With(cfg, e), o.state));
        ServerUnfold(With(cfg, e), st);
        SameNext(cfg, e, st);
        if o.consumes {
          GotOne(w.sGot, head.value, ServerToRead(With(cfg, e), o.state));
        }
      }
      assert ServerFits(cfg, w'.s, w'.sGot, next);
    }
  }

  lemma VerifyFlag(cfg: Setting, st: ServerState, peerCert: bool, cert: bool, head: Option<Kind>)
    requires ServerFlagOk(With(cfg, cert), st, peerCert)
    ensures st.ReadClientCertificateVerify? ==> CertPast(st) && peerCert == (cfg.RequestsCert() && cert)
    ensures st.ReadClientCertificate? ==> CertChosen(cfg, st, cert, head) == (cfg.RequestsCert() && head == Some(Certificate(false)))
  {
  }

  lemma ServerModeKept(cfg: Setting, st: ServerState)
    ensures ServerMode(cfg, st) ==> ServerMode(cfg, ServerNext(cfg, st))
  {
  }

  lemma SameNext(cfg: Setting, e: bool, st: ServerState)
    ensures ServerNext(With(cfg, e), st) == ServerNext(cfg, st)
  {
  }

  lemma ServerStays(cfg: Setting, w: World, pause: bool)
    requires w.s.wait == Ready && w.s.state != ServerDone && w.s.state != ServerProcessCcs
    requires ServerDo(cfg, w.s.state, w.s.flag, Message(w.toServer), pause).state == w.s.state
    ensures ServerMove(cfg, w, pause).s.flag == w.s.flag && ServerMove(cfg, w, pause).sGot == w.sGot
    ensures ServerMove(cfg, w, pause).toServer == w.toServer && ServerMove(cfg, w, pause).s.wait != ReadCcs
  {
    hide ServerDo;
    ServerDoGoes(cfg, w.s.state, w.s.flag, Message(w.toServer), pause);
    ServerDoWaits(cfg, w.s.state, w.s.flag, Message(w.toServer), pause);
    assert w.sGot + [] == w.sGot;
  }

  /** More input, and more of it delivered, leaves the message at hand. */
  lemma MoreInput(x: Queue, ks: seq<Kind>, n: nat)
    ensures Message(x).Some? ==> Message(Flushed(x.Added(ks), n)) == Message(x)
  {
  }

  lemma {:induction false} ServerFollowsAlways(cfg: Setting, mvs: seq<AloneMove>, ws: seq<World>, n: nat)
    requires IsServerAlone(cfg, mvs, ws) && n <= |mvs|
    ensures ServerFollows(cfg, ws[n])
  {
    hide ServerMove, ServerFits, ServerMode;
    if n == 0 {
      ServerBegins(cfg);
    } else {
      var w := ws[n - 1];
      ServerFollowsAlways(cfg, mvs, ws, n - 1);
      match mvs[n - 1]
      case Runs(pause) =>
        if w.s.wait != Ready {
          ServerCcsRead(cfg, w);
        } else if w.s.state == ServerProcessCcs {
          ServerCcsStep(cfg, w, pause);
        } else if w.s.state != ServerDone {
          ServerOtherStep(cfg, w, pause);
        } else {
          ServerDoneStays(cfg, w, pause);
        }
      case PeerSends(ks, k) => MoreInput(w.toServer, ks, k);
      case Flushes(k) =>
    }
  }

  lemma ServerDoneStays(cfg: Setting, w: World, pause: bool)
    requires w.s.wait == Ready && w.s.state == ServerDone
    ensures ServerMove(cfg, w, pause) == w
  {
  }

  /** Whatever a peer sends, a server that comes to its end has read a client's
      side of a handshake from start to end, of a client with a certificate or
      of one without, and with a CertificateVerify exactly if there was one. */
  lemma ServerAcceptsOnly(cfg: Setting, mvs: seq<AloneMove>, ws: seq<World>, n: nat) returns (cert: bool)
    requires IsServerAlone(cfg, mvs, ws) && n <= |mvs| && ws[n].s.state == ServerDone
    ensures ws[n].sGot == Messages(ClientScript(With(cfg, cert))) && EndsInFinished(ws[n].sGot)
    ensures Count(ClientScript(With(cfg, cert)), ChangeCipherSpec) == 1
  {
    hide ClientScript, ServerToRead, With;
    ServerFollowsAlways(cfg, mvs, ws, n);
    cert :| ServerFits(cfg, ws[n].s, ws[n].sGot, cert);
    AllDone(With(cfg, cert));
    assert Behind(ws[n].sGot, End) == ClientScript(With(cfg, cert));
    MessagesBehind(ws[n].sGot);
    OneFinished(With(cfg, cert));
    ScriptEndsInFinished(ClientScript(With(cfg, cert)));
  }
}
