/** Whole handshakes: both drivers (handshake.cc, `ssl_run_handshake`) and the
    connection between them, in any interleaving. */
module TlsHandshakeRuns {
  import opened Wrappers
  import opened TlsHandshakeSpec
  import opened TlsDuality

  // ---------------------------------------------------------------- both ends

  /** State of one side's machine, what it waits for, and its flag. */
  datatype Side<S> = Side(state: S, wait: Wait, flag: bool)

  /** Messages added by one side and not yet used up by the other, of which the
      first `flushed` have been delivered. */
  datatype Queue = Queue(q: seq<Kind>, flushed: nat)
  {
    function Head(): Option<Kind> {
      if 0 < flushed && q != [] then Some(q[0]) else None
    }

    function Added(ks: seq<Kind>): Queue {
      Queue(q + ks, flushed)
    }

    function Popped(): Queue {
      if Head().Some? then Queue(q[1..], flushed - 1) else this
    }
  }

  predicate QueueOk(x: Queue) {
    x.flushed <= |x.q|
  }

  /** `cGot` and `sGot`: the messages each side has used up, in order. */
  datatype World = World(c: Side<ClientState>, s: Side<ServerState>, toServer: Queue, toClient: Queue, cGot: seq<Kind>, sGot: seq<Kind>)

  /** One side runs, with callbacks ready or not; or some of what it has added
      goes out. */
  datatype Move = ClientRuns(pause: bool) | ServerRuns(pause: bool) | ClientFlushes(n: nat) | ServerFlushes(n: nat)

  function Used(head: Option<Kind>, consumes: bool): seq<Kind> {
    if consumes && head.Some? then [head.value] else []
  }

  /** get_message never returns a ChangeCipherSpec. */
  function Message(x: Queue): Option<Kind> {
    if x.Head() == Some(ChangeCipherSpec) then None else x.Head()
  }

  /** What one side waits for, once more: what came of it, and whether a
      ChangeCipherSpec was used up. */
  function Resolve(wait: Wait, input: Queue, output: Queue): (Wait, bool) {
    match wait
    case Flush => (if output.flushed >= |output.q| then Ready else Flush, false)
    case ReadMessage =>
      if input.Head().None? then (ReadMessage, false)
      else if input.Head().value == ChangeCipherSpec then (Failed, false)
      else (Ready, false)
    case ReadCcs =>
      if input.Head().None? then (ReadCcs, false)
      else if input.Head().value == ChangeCipherSpec then (Ready, true)
      else (Failed, false)
    case Paused => (Ready, false)
    case _ => (wait, false)
  }

  function ClientMove(cfg: Setting, w: World, pause: bool): World {
    if w.c.wait != Ready then
      var (wait, ccs) := Resolve(w.c.wait, w.toClient, w.toServer);
      if ccs then
        w.(c := w.c.(wait := wait), toClient := w.toClient.Popped(), cGot := w.cGot + Used(w.toClient.Head(), true))
      else w.(c := w.c.(wait := wait))
    else if w.c.state == ClientDone then w
    else
      var head := Message(w.toClient);
      var o := ClientDo(cfg, w.c.state, w.c.flag, head, pause);
      var flag := w.c.flag || (w.c.state == ReadCertificateRequest && o.consumes);
      w.(c := Side(o.state, o.wait, flag), toServer := w.toServer.Added(o.adds),
         toClient := if o.consumes then w.toClient.Popped() else w.toClient, cGot := w.cGot + Used(head, o.consumes))
  }

  function ServerMove(cfg: Setting, w: World, pause: bool): World {
    if w.s.wait != Ready then
      var (wait, ccs) := Resolve(w.s.wait, w.toServer, w.toClient);
      if ccs then
        w.(s := w.s.(wait := wait), toServer := w.toServer.Popped(), sGot := w.sGot + Used(w.toServer.Head(), true))
      else w.(s := w.s.(wait := wait))
    else if w.s.state == ServerDone then w
    else
      var head := Message(w.toServer);
      var o := ServerDo(cfg, w.s.state, w.s.flag, head, pause);
      var flag := w.s.flag || (w.s.state == ReadClientCertificate && o.consumes && head == Some(Certificate(false)));
      w.(s := Side(o.state, o.wait, flag), toClient := w.toClient.Added(o.adds),
         toServer := if o.consumes then w.toServer.Popped() else w.toServer, sGot := w.sGot + Used(head, o.consumes))
  }

  function Flushed(x: Queue, n: nat): Queue {
    if x.flushed + n <= |x.q| then x.(flushed := x.flushed + n) else x
  }

  function Step(cfg: Setting, w: World, mv: Move): World {
    match mv
    case ClientRuns(pause) => ClientMove(cfg, w, pause)
    case ServerRuns(pause) => ServerMove(cfg, w, pause)
    case ClientFlushes(n) => w.(toServer := Flushed(w.toServer, n))
    case ServerFlushes(n) => w.(toClient := Flushed(w.toClient, n))
  }

  function Start(): World {
    World(Side(StartConnect, Ready, false), Side(StartAccept, Ready, false), Queue([], 0), Queue([], 0), [], [])
  }

  /** The states of a handshake, one before the first move and one after each. */
  ghost predicate IsRun(cfg: Setting, mvs: seq<Move>, ws: seq<World>) {
    && |ws| == |mvs| + 1 && ws[0] == Start()
    && forall i {:trigger mvs[i]} | 0 <= i < |mvs| :: ws[i + 1] == Step(cfg, ws[i], mvs[i])
  }

  // ---------------------------------------------------------------- the invariant

  /** What is left to read, once a ChangeCipherSpec has been used up early. */
  function ClientLeft(cfg: Setting, c: Side<ClientState>): Script {
    LeftToRead(ClientToRead(cfg, c.state), c.state == ClientProcessCcs && c.wait != ReadCcs)
  }

  function ServerLeft(cfg: Setting, s: Side<ServerState>): Script {
    LeftToRead(ServerToRead(cfg, s.state), s.state == ServerProcessCcs && s.wait != ReadCcs)
  }

  ghost predicate ClientOk(cfg: Setting, c: Side<ClientState>) {
    && c.wait != Failed && ClientFlagOk(cfg, c.state, c.flag) && ClientMode(cfg, c.state)
    && (c.wait == ReadCcs ==> c.state == ClientProcessCcs) && (c.wait == ReadMessage ==> ClientReading(cfg, c.state))
    && (c.state == ClientProcessCcs ==> c.wait == ReadCcs || c.wait == Ready)
  }

  ghost predicate ServerOk(cfg: Setting, s: Side<ServerState>) {
    && s.wait != Failed && ServerFlagOk(cfg, s.state, s.flag) && ServerMode(cfg, s.state)
    && (s.wait == ReadCcs ==> s.state == ServerProcessCcs) && (s.wait == ReadMessage ==> ServerReading(cfg, s.state))
    && (s.state == ServerProcessCcs ==> s.wait == ReadCcs || s.wait == Ready)
  }

  /** What is under way and will still be sent to the one is what the other will
      still read; and both have kept to the script so far. */
  ghost predicate Dual(cfg: Setting, w: World) {
    && Behind(w.toServer.q, ClientToSend(cfg, w.c.state)) == ServerLeft(cfg, w.s)
    && Behind(w.toClient.q, ServerToSend(cfg, w.s.state)) == ClientLeft(cfg, w.c)
    && Behind(w.cGot, ClientLeft(cfg, w.c)) == ServerScript(cfg)
    && Behind(w.sGot, ServerLeft(cfg, w.s)) == ClientScript(cfg)
  }

  ghost predicate Inv(cfg: Setting, w: World) {
    ClientOk(cfg, w.c) && ServerOk(cfg, w.s) && QueueOk(w.toServer) && QueueOk(w.toClient) && Dual(cfg, w)
  }

  lemma StartInv(cfg: Setting)
    ensures Inv(cfg, Start())
  {
    hide ClientToSend, ClientToRead, ServerToSend, ServerToRead, ClientOk, ServerOk, ClientScript, ServerScript;
    StartOk(cfg);
    ClientPlays(cfg);
    ServerPlays(cfg);
  }

  lemma StartOk(cfg: Setting)
    ensures ClientOk(cfg, Start().c) && ServerOk(cfg, Start().s)
  {
  }

  /** Taking the head of a queue whose messages are the script `s`. */
  lemma PopBehind(x: Queue, rest: Script, s: Script)
    requires QueueOk(x) && x.Head().Some? && Behind(x.q, rest) == s
    ensures s.Then? && s.kind == x.Head().value && Behind(x.Popped().q, rest) == s.rest && QueueOk(x.Popped())
  {
  }

  lemma GotOne(got: seq<Kind>, k: Kind, s: Script)
    ensures Behind(got + [k], s) == Behind(got, Then(k, s))
  {
    BehindBehind(got, [k], s);
    BehindOne(k, s);
  }

  // ---------------------------------------------------------------- every move keeps it

  /** The client's own part of a step. */
  lemma ClientDoKeeps(cfg: Setting, c: Side<ClientState>, head: Option<Kind>, pause: bool)
    requires ClientOk(cfg, c) && c.wait == Ready && c.state != ClientDone && HeadOk(ClientLeft(cfg, c), head)
    ensures var o := ClientDo(cfg, c.state, c.flag, head, pause);
            var c' := Side(o.state, o.wait, c.flag || (c.state == ReadCertificateRequest && o.consumes));
            && ClientOk(cfg, c') && (o.consumes ==> head.Some?)
            && ClientToSend(cfg, c.state) == Behind(o.adds, ClientToSend(cfg, o.state))
            && ClientLeft(cfg, c') == LeftToRead(ClientLeft(cfg, c), o.consumes)
  {
    hide ClientToSend, ClientToRead, ClientDo, ClientTakes, ClientAdds, ClientNext, ClientPeeks, ClientFlagOk, ClientMode, ClientReading;
    var st := c.state;
    var toSend, toRead := ClientToSend(cfg, ClientNext(cfg, st)), ClientToRead(cfg, ClientNext(cfg, st));
    if st == ClientProcessCcs {
      ClientCcsKeeps(cfg, c, head, pause);
    } else {
      ClientUnfold(cfg, st);
      if head.Some? {
        ClientHeads(cfg, st, head.value);
      }
      ClientDoMoves(cfg, st, c.flag, head, pause, toRead);
      ClientDoTakes(cfg, st, c.flag, head, pause, toRead);
      ClientDoAdds(cfg, st, c.flag, head, pause, toSend);
      ClientFlagKept(cfg, c, head, pause);
      BehindNone(ClientToSend(cfg, st));
    }
  }

  lemma ClientCcsKeeps(cfg: Setting, c: Side<ClientState>, head: Option<Kind>, pause: bool)
    requires ClientOk(cfg, c) && c.wait == Ready && c.state == ClientProcessCcs
    ensures var o := ClientDo(cfg, c.state, c.flag, head, pause);
            var c' := Side(o.state, o.wait, c.flag);
            && ClientOk(cfg, c') && !o.consumes
            && ClientToSend(cfg, c.state) == Behind(o.adds, ClientToSend(cfg, o.state))
            && ClientLeft(cfg, c') == ClientLeft(cfg, c)
  {
    hide ClientToSend, ClientToRead, LastClientFlight, May, Behind, ClientDo, ClientOk;
    CcsFlags(cfg, c);
    assert ClientDo(cfg, ClientProcessCcs, c.flag, head, pause) == Go(ReadServerFinished) by { CcsProcessed(cfg, c.flag, head, pause); }
    ClientUnfold(cfg, ClientProcessCcs);
    BehindNone(ClientToSend(cfg, ReadServerFinished));
  }

  lemma CcsFlags(cfg: Setting, c: Side<ClientState>)
    requires ClientOk(cfg, c) && c.state == ClientProcessCcs
    ensures ClientOk(cfg, Side(ReadServerFinished, Ready, c.flag))
  {
  }

  lemma CcsProcessed(cfg: Setting, flag: bool, head: Option<Kind>, pause: bool)
    ensures ClientDo(cfg, ClientProcessCcs, flag, head, pause) == Go(ReadServerFinished)
  {
  }

  lemma BehindNone(s: Script)
    ensures Behind([], s) == s
  {
  }

  lemma ClientFlagKept(cfg: Setting, c: Side<ClientState>, head: Option<Kind>, pause: bool)
    requires ClientFlagOk(cfg, c.state, c.flag) && ClientMode(cfg, c.state) && c.state != ClientDone
    requires head.Some? ==> ClientPeeks(cfg, c.state, head.value)
    ensures var o := ClientDo(cfg, c.state, c.flag, head, pause);
            o.state == c.state || o.state == ClientNext(cfg, c.state) ==>
              && ClientFlagOk(cfg, o.state, c.flag || (c.state == ReadCertificateRequest && o.consumes)) && ClientMode(cfg, o.state)
              && (o.state == ClientProcessCcs && o.state != c.state ==> o.wait == ReadCcs)
  {
    hide ClientDo, ClientNext, ClientFlagOk, ClientMode, ClientPeeks;
    ClientNextKeeps(cfg, c.state, c.flag);
    ClientCcsNext(cfg, c.state, c.flag, head, pause);
    if c.state == ReadCertificateRequest {
      ClientFlagSet(cfg, c, head, pause);
    }
  }

  lemma ClientNextKeeps(cfg: Setting, st: ClientState, flag: bool)
    requires ClientFlagOk(cfg, st, flag) && ClientMode(cfg, st)
    ensures ClientMode(cfg, ClientNext(cfg, st))
    ensures st != ReadCertificateRequest ==> ClientFlagOk(cfg, ClientNext(cfg, st), flag)
    ensures st == ReadCertificateRequest ==> !flag && ClientFlagOk(cfg, ClientNext(cfg, st), cfg.RequestsCert())
  {
  }

  lemma ClientFlagSet(cfg: Setting, c: Side<ClientState>, head: Option<Kind>, pause: bool)
    requires c.state == ReadCertificateRequest && (head.Some? ==> ClientPeeks(cfg, c.state, head.value))
    ensures var o := ClientDo(cfg, c.state, c.flag, head, pause);
            && (o.state == c.state ==> !o.consumes)
            && (o.state != c.state ==> (o.consumes <==> cfg.RequestsCert()))
  {
  }

  lemma ClientCcsNext(cfg: Setting, st: ClientState, flag: bool, head: Option<Kind>, pause: bool)
    ensures var o := ClientDo(cfg, st, flag, head, pause); o.state == ClientProcessCcs && o.state != st ==> o.wait == ReadCcs
  {
    hide LastClientFlight;
  }

  lemma ServerDoKeeps(cfg: Setting, c: Side<ServerState>, head: Option<Kind>, pause: bool)
    requires ServerOk(cfg, c) && c.wait == Ready && c.state != ServerDone && HeadOk(ServerLeft(cfg, c), head)
    ensures var o := ServerDo(cfg, c.state, c.flag, head, pause);
            var c' := Side(o.state, o.wait, c.flag || (c.state == ReadClientCertificate && o.consumes && head == Some(Certificate(false))));
            && ServerOk(cfg, c') && (o.consumes ==> head.Some?)
            && ServerToSend(cfg, c.state) == Behind(o.adds, ServerToSend(cfg, o.state))
            && ServerLeft(cfg, c') == LeftToRead(ServerLeft(cfg, c), o.consumes)
  {
    hide ServerToSend, ServerToRead, ServerDo, ServerTakes, ServerAdds, ServerNext, ServerPeeks, ServerFlagOk, ServerMode, ServerReading;
    var st := c.state;
    var toSend, toRead := ServerToSend(cfg, ServerNext(cfg, st)), ServerToRead(cfg, ServerNext(cfg, st));
    if st == ServerProcessCcs {
      ServerCcsKeeps(cfg, c, head, pause);
    } else {
      ServerUnfold(cfg, st);
      if head.Some? {
        ServerHeads(cfg, st, head.value);
      }
      ServerDoMoves(cfg, st, c.flag, head, pause, toRead);
      ServerDoTakes(cfg, st, c.flag, head, pause, toRead);
      ServerDoAdds(cfg, st, c.flag, head, pause, toSend);
      ServerFlagKept(cfg, c, head, pause, toRead);
      BehindNone(ServerToSend(cfg, st));
    }
  }

  lemma ServerCcsKeeps(cfg: Setting, c: Side<ServerState>, head: Option<Kind>, pause: bool)
    requires ServerOk(cfg, c) && c.wait == Ready && c.state == ServerProcessCcs
    ensures var o := ServerDo(cfg, c.state, c.flag, head, pause);
            var c' := Side(o.state, o.wait, c.flag);
            && ServerOk(cfg, c') && !o.consumes
            && ServerToSend(cfg, c.state) == Behind(o.adds, ServerToSend(cfg, o.state))
            && ServerLeft(cfg, c') == ServerLeft(cfg, c)
  {
    hide ServerToSend, ServerToRead, LastServerFlight, May, Behind;
    ServerUnfold(cfg, ServerProcessCcs);
    BehindNone(ServerToSend(cfg, ReadNextProto));
  }

  lemma ServerFlagKept(cfg: Setting, c: Side<ServerState>, head: Option<Kind>, pause: bool, toRead: Script)
    requires ServerFlagOk(cfg, c.state, c.flag) && ServerMode(cfg, c.state) && c.state != ServerDone
    requires HeadOk(ServerTakes(cfg, c.state, toRead), head)
    ensures var o := ServerDo(cfg, c.state, c.flag, head, pause);
            o.state == c.state || o.state == ServerNext(cfg, c.state) ==>
              && ServerFlagOk(cfg, o.state, c.flag || (c.state == ReadClientCertificate && o.consumes && head == Some(Certificate(false))))
              && ServerMode(cfg, o.state)
              && (o.state == ServerProcessCcs && o.state != c.state ==> o.wait == ReadCcs)
  {
    hide ServerDo, ServerNext, ServerFlagOk, ServerMode, ServerTakes;
    ServerNextKeeps(cfg, c.state, c.flag);
    ServerCcsNext(cfg, c.state, c.flag, head, pause);
    if c.state == ReadClientCertificate {
      ServerFlagSet(cfg, c, head, pause, toRead);
    }
  }

  lemma ServerNextKeeps(cfg: Setting, st: ServerState, flag: bool)
    requires ServerFlagOk(cfg, st, flag) && ServerMode(cfg, st)
    ensures ServerMode(cfg, ServerNext(cfg, st))
    ensures st != ReadClientCertificate ==> ServerFlagOk(cfg, ServerNext(cfg, st), flag)
    ensures st == ReadClientCertificate ==> !flag && ServerFlagOk(cfg, ServerNext(cfg, st), cfg.RequestsCert() && cfg.clientCert)
  {
  }

  lemma ServerFlagSet(cfg: Setting, c: Side<ServerState>, head: Option<Kind>, pause: bool, toRead: Script)
    requires c.state == ReadClientCertificate && HeadOk(ServerTakes(cfg, c.state, toRead), head)
    ensures var o := ServerDo(cfg, c.state, c.flag, head, pause);
            && (o.state == c.state ==> !o.consumes)
            && (o.state != c.state ==> (o.consumes && head == Some(Certificate(false)) <==> cfg.RequestsCert() && cfg.clientCert))
  {
  }

  lemma ServerCcsNext(cfg: Setting, st: ServerState, flag: bool, head: Option<Kind>, pause: bool)
    ensures var o := ServerDo(cfg, st, flag, head, pause); o.state == ServerProcessCcs && o.state != st ==> o.wait == ReadCcs
  {
    hide LastServerFlight;
  }

  /** What the client reads from the queue is what it expects next. */
  lemma HeadExpected(x: Queue, rest: Script, left: Script)
    requires QueueOk(x) && Behind(x.q, rest) == left
    ensures HeadOk(left, Message(x)) && (x.Head().Some? ==> left.Then? && left.kind == x.Head().value)
  {
    if x.Head().Some? {
      PopBehind(x, rest, left);
    }
  }

  /** The client may block reading a handshake message, or a ChangeCipherSpec;
      what arrives is of the kind that it waits for. */
  lemma ClientWaitsRight(cfg: Setting, c: Side<ClientState>)
    requires ClientOk(cfg, c)
    ensures c.wait == ReadMessage ==> ClientLeft(cfg, c).Then? && ClientLeft(cfg, c).kind != ChangeCipherSpec
    ensures c.wait == ReadCcs ==> ClientLeft(cfg, c).Then? && ClientLeft(cfg, c).kind == ChangeCipherSpec
  {
    hide ClientToRead, ClientReading, ClientMode;
    if c.wait == ReadCcs {
      ClientUnfold(cfg, ClientProcessCcs);
    } else if c.wait == ReadMessage {
      ClientExpectsMessage(cfg, c.state);
    }
  }

  lemma ServerWaitsRight(cfg: Setting, c: Side<ServerState>)
    requires ServerOk(cfg, c)
    ensures c.wait == ReadMessage ==> ServerLeft(cfg, c).Then? && ServerLeft(cfg, c).kind != ChangeCipherSpec
    ensures c.wait == ReadCcs ==> ServerLeft(cfg, c).Then? && ServerLeft(cfg, c).kind == ChangeCipherSpec
  {
    hide ServerToRead, ServerReading, ServerMode;
    if c.wait == ReadCcs {
      ServerUnfold(cfg, ServerProcessCcs);
    } else if c.wait == ReadMessage {
      ServerExpectsMessage(cfg, c.state);
    }
  }

  lemma ClientMoveKeeps(cfg: Setting, w: World, pause: bool)
    requires Inv(cfg, w)
    ensures Inv(cfg, ClientMove(cfg, w, pause))
  {
    hide ClientDo, ClientToSend, ClientToRead, ServerToSend, ServerToRead, ClientOk, ServerOk, ServerLeft, ServerScript, ClientScript;
    var left, rest := ClientLeft(cfg, w.c), ServerToSend(cfg, w.s.state);
    HeadExpected(w.toClient, rest, left);
    assert w.c.wait != Failed by { ClientNotFailed(cfg, w.c); }
    if w.c.wait != Ready {
      ClientWaitsRight(cfg, w.c);
      ClientResolves(cfg, w);
    } else if w.c.state != ClientDone {
      hide ClientLeft;
      var head := Message(w.toClient);
      ClientDoKeeps(cfg, w.c, head, pause);
      var o := ClientDo(cfg, w.c.state, w.c.flag, head, pause);
      BehindBehind(w.toServer.q, o.adds, ClientToSend(cfg, o.state));
      if o.consumes {
        PopBehind(w.toClient, rest, left);
        GotOne(w.cGot, head.value, left.rest);
      } else {
        assert w.cGot + [] == w.cGot;
      }
    }
  }

  lemma ClientNotFailed(cfg: Setting, c: Side<ClientState>)
    ensures ClientOk(cfg, c) ==> c.wait != Failed
  {
  }

  /** Waiting ends well: with a ChangeCipherSpec where one is waited for. */
  lemma ClientResolves(cfg: Setting, w: World)
    requires Inv(cfg, w) && w.c.wait != Ready
    requires w.c.wait == ReadMessage ==> ClientLeft(cfg, w.c).Then? && ClientLeft(cfg, w.c).kind != ChangeCipherSpec
    requires w.c.wait == ReadCcs ==> ClientLeft(cfg, w.c).Then? && ClientLeft(cfg, w.c).kind == ChangeCipherSpec
    requires w.toClient.Head().Some? ==> ClientLeft(cfg, w.c).Then? && ClientLeft(cfg, w.c).kind == w.toClient.Head().value
    ensures Inv(cfg, ClientMove(cfg, w, false))
    ensures ClientMove(cfg, w, true) == ClientMove(cfg, w, false)
  {
    hide ClientToSend, ClientToRead, ServerToSend, ServerToRead, ServerOk, ServerLeft, ServerScript, ClientScript, ClientMode, ClientFlagOk, ClientReading;
    if w.c.wait == ReadCcs && w.toClient.Head().Some? {
      PopBehind(w.toClient, ServerToSend(cfg, w.s.state), ClientLeft(cfg, w.c));
      GotOne(w.cGot, ChangeCipherSpec, ClientLeft(cfg, w.c).rest);
    }
  }

  lemma ServerMoveKeeps(cfg: Setting, w: World, pause: bool)
    requires Inv(cfg, w)
    ensures Inv(cfg, ServerMove(cfg, w, pause))
  {
    hide ServerDo, ClientToSend, ClientToRead, ServerToSend, ServerToRead, ClientOk, ServerOk, ClientLeft, ServerScript, ClientScript, Resolve, ServerLeft;
    var left, rest := ServerLeft(cfg, w.s), ClientToSend(cfg, w.c.state);
    HeadExpected(w.toServer, rest, left);
    if w.s.wait != Ready {
      ServerWaitsRight(cfg, w.s);
      ServerResolves(cfg, w);
    } else if w.s.state != ServerDone {
      var head := Message(w.toServer);
      ServerDoKeeps(cfg, w.s, head, pause);
      var o := ServerDo(cfg, w.s.state, w.s.flag, head, pause);
      BehindBehind(w.toClient.q, o.adds, ServerToSend(cfg, o.state));
      if o.consumes {
        PopBehind(w.toServer, rest, left);
        GotOne(w.sGot, head.value, left.rest);
      } else {
        assert w.sGot + [] == w.sGot;
      }
    }
  }

  lemma ServerResolves(cfg: Setting, w: World)
    requires Inv(cfg, w) && w.s.wait != Ready
    requires w.s.wait == ReadMessage ==> ServerLeft(cfg, w.s).Then? && ServerLeft(cfg, w.s).kind != ChangeCipherSpec
    requires w.s.wait == ReadCcs ==> ServerLeft(cfg, w.s).Then? && ServerLeft(cfg, w.s).kind == ChangeCipherSpec
    requires w.toServer.Head().Some? ==> ServerLeft(cfg, w.s).Then? && ServerLeft(cfg, w.s).kind == w.toServer.Head().value
    ensures Inv(cfg, ServerMove(cfg, w, false))
    ensures ServerMove(cfg, w, true) == ServerMove(cfg, w, false)
  {
    hide ClientToSend, ClientToRead, ServerToSend, ServerToRead, ClientOk, ClientLeft, ServerScript, ClientScript, ServerMode, ServerFlagOk, ServerReading;
    if w.s.wait == ReadCcs && w.toServer.Head().Some? {
      PopBehind(w.toServer, ClientToSend(cfg, w.c.state), ServerLeft(cfg, w.s));
      GotOne(w.sGot, ChangeCipherSpec, ServerLeft(cfg, w.s).rest);
    }
  }

  lemma {:induction false} InvAlways(cfg: Setting, mvs: seq<Move>, ws: seq<World>, n: nat)
    requires IsRun(cfg, mvs, ws) && n <= |mvs|
    ensures Inv(cfg, ws[n])
  {
    hide Inv, ClientMove, ServerMove;
    if n == 0 {
      StartInv(cfg);
    } else {
      var w := ws[n - 1];
      InvAlways(cfg, mvs, ws, n - 1);
      match mvs[n - 1]
      case ClientRuns(pause) => ClientMoveKeeps(cfg, w, pause);
      case ServerRuns(pause) => ServerMoveKeeps(cfg, w, pause);
      case ClientFlushes(k) => FlushKeeps(cfg, w, w.toClient, Flushed(w.toServer, k));
      case ServerFlushes(k) => FlushKeeps(cfg, w, Flushed(w.toClient, k), w.toServer);
    }
  }

  lemma FlushKeeps(cfg: Setting, w: World, toClient: Queue, toServer: Queue)
    requires Inv(cfg, w) && toClient.q == w.toClient.q && toServer.q == w.toServer.q
    requires (QueueOk(w.toClient) ==> QueueOk(toClient)) && (QueueOk(w.toServer) ==> QueueOk(toServer))
    ensures Inv(cfg, w.(toClient := toClient, toServer := toServer))
  {
  }

  // ---------------------------------------------------------------- theorems

  /** The messages of a script. */
  function Messages(s: Script): seq<Kind> {
    if s.End? then [] else [s.kind] + Messages(s.rest)
  }

  lemma {:induction false} MessagesBehind(q: seq<Kind>)
    ensures Messages(Behind(q, End)) == q
  {
    if q == [] {
    } else {
      MessagesBehind(q[1..]);
    }
  }

  /** Neither side ever meets a message of a type it does not expect. */
  lemma NeverUnexpected(cfg: Setting, mvs: seq<Move>, ws: seq<World>, n: nat)
    requires IsRun(cfg, mvs, ws) && n <= |mvs|
    ensures ws[n].c.wait != Failed && ws[n].s.wait != Failed
  {
    InvAlways(cfg, mvs, ws, n);
  }

  /** A client that is done has used up the server's whole script and sent its
      own: what the server has used up of it and what is under way. */
  predicate ClientComplete(cfg: Setting, w: World) {
    w.cGot == Messages(ServerScript(cfg)) && w.sGot + w.toServer.q == Messages(ClientScript(cfg))
  }

  predicate ServerComplete(cfg: Setting, w: World) {
    w.sGot == Messages(ClientScript(cfg)) && w.cGot + w.toClient.q == Messages(ServerScript(cfg))
  }

  lemma DoneIsComplete(cfg: Setting, w: World)
    requires Inv(cfg, w)
    ensures w.c.state == ClientDone ==> ClientComplete(cfg, w)
    ensures w.s.state == ServerDone ==> ServerComplete(cfg, w)
    ensures w.c.state == ClientDone && w.s.state == ServerDone ==> w.toClient.q == [] && w.toServer.q == []
  {
    hide ClientToSend, ClientToRead, ServerToSend, ServerToRead, ServerScript, ClientScript;
    AllDone(cfg);
    if w.c.state == ClientDone {
      MessagesBehind(w.cGot);
      BehindBehind(w.sGot, w.toServer.q, End);
      MessagesBehind(w.sGot + w.toServer.q);
    }
    if w.s.state == ServerDone {
      MessagesBehind(w.sGot);
      BehindBehind(w.cGot, w.toClient.q, End);
      MessagesBehind(w.cGot + w.toClient.q);
    }
  }

  /** A side that is done has used up the peer's whole script and sent its own,
      also while the other still runs; when both are, nothing is under way. */
  lemma DoneMeansAll(cfg: Setting, mvs: seq<Move>, ws: seq<World>, n: nat)
    requires IsRun(cfg, mvs, ws) && n <= |mvs|
    ensures var w := ws[n];
            && (w.c.state == ClientDone ==> ClientComplete(cfg, w))
            && (w.s.state == ServerDone ==> ServerComplete(cfg, w))
            && (w.c.state == ClientDone && w.s.state == ServerDone ==> w.toClient.q == [] && w.toServer.q == [])
  {
    InvAlways(cfg, mvs, ws, n);
    DoneIsComplete(cfg, ws[n]);
  }

  /** Finished is the last message of the script and occurs nowhere else. */
  predicate OnlyFinishedLast(s: Script) {
    s.Then? && if s.rest.End? then s.kind == Finished else s.kind != Finished && OnlyFinishedLast(s.rest)
  }

  function Count(s: Script, k: Kind): nat {
    if s.End? then 0 else (if s.kind == k then 1 else 0) + Count(s.rest, k)
  }

  /** One Finished, at the end, and `n` ChangeCipherSpecs. */
  predicate Closes(s: Script, n: nat) {
    OnlyFinishedLast(s) && Count(s, ChangeCipherSpec) == n
  }

  lemma MayCloses(b: bool, k: Kind, s: Script, n: nat)
    requires Closes(s, n) && k != Finished && k != ChangeCipherSpec
    ensures Closes(May(b, k, s), n) && Closes(Then(k, s), n)
  {
  }

  lemma LastFlightsClose(cfg: Setting)
    ensures Closes(LastServerFlight(cfg, End), 1) && Closes(LastClientFlight(cfg, End), 1)
  {
    hide May;
    var fin := Then(Finished, End);
    assert Closes(fin, 0) && Closes(Then(ChangeCipherSpec, fin), 1);
    MayCloses(cfg.ticket, NewSessionTicket, Then(ChangeCipherSpec, fin), 1);
    MayCloses(cfg.channelId, ChannelId, fin, 0);
    MayCloses(cfg.npn, NextProto, May(cfg.channelId, ChannelId, fin), 0);
  }

  lemma ServerFlightCloses(cfg: Setting, s: Script)
    requires Closes(s, 1)
    ensures Closes(ServerFlight(cfg, s), 1)
  {
    hide May, Closes;
    MayCloses(false, ServerHelloDone, s, 1);
    var s1 := Then(ServerHelloDone, s);
    MayCloses(cfg.RequestsCert(), CertificateRequest, s1, 1);
    var s2 := May(cfg.RequestsCert(), CertificateRequest, s1);
    MayCloses(cfg.SendsKeyExchange(), ServerKeyExchange, s2, 1);
    var s3 := May(cfg.SendsKeyExchange(), ServerKeyExchange, s2);
    MayCloses(cfg.certAuth && cfg.status, CertificateStatus, s3, 1);
    MayCloses(cfg.certAuth, Certificate(false), May(cfg.certAuth && cfg.status, CertificateStatus, s3), 1);
  }

  lemma KeyFlightCloses(cfg: Setting, s: Script)
    requires Closes(s, 1)
    ensures Closes(KeyFlight(cfg, s), 1)
  {
    hide May, Closes;
    MayCloses(cfg.RequestsCert() && cfg.clientCert, CertificateVerify, s, 1);
    var s1 := May(cfg.RequestsCert() && cfg.clientCert, CertificateVerify, s);
    MayCloses(false, ClientKeyExchange, s1, 1);
    MayCloses(cfg.RequestsCert(), Certificate(!cfg.clientCert), Then(ClientKeyExchange, s1), 1);
  }

  /** Each side sends, and the other checks, exactly one Finished, at the end,
      and one ChangeCipherSpec, which so comes before it. */
  lemma OneFinished(cfg: Setting)
    ensures OnlyFinishedLast(ServerScript(cfg)) && Count(ServerScript(cfg), ChangeCipherSpec) == 1
    ensures OnlyFinishedLast(ClientScript(cfg)) && Count(ClientScript(cfg), ChangeCipherSpec) == 1
  {
    hide ServerFlight, KeyFlight, LastClientFlight, LastServerFlight;
    LastFlightsClose(cfg);
    ServerFlightCloses(cfg, LastServerFlight(cfg, End));
    KeyFlightCloses(cfg, LastClientFlight(cfg, End));
  }

  /** One Finished, and nothing behind it. */
  predicate EndsInFinished(ks: seq<Kind>) {
    ks != [] && ks[|ks| - 1] == Finished && Finished !in ks[..|ks| - 1]
  }

  lemma {:induction false} ScriptEndsInFinished(s: Script)
    requires OnlyFinishedLast(s)
    ensures EndsInFinished(Messages(s))
  {
    if s.rest.End? {
      assert Messages(s) == [Finished] + Messages(End);
    } else {
      ScriptEndsInFinished(s.rest);
      var ks := Messages(s.rest);
      assert ([s.kind] + ks)[..|ks|] == [s.kind] + ks[..|ks| - 1];
    }
  }

  /** A side that is done has checked exactly one Finished, and its own is out
      exactly once. */
  lemma DoneMeansFinished(cfg: Setting, mvs: seq<Move>, ws: seq<World>, n: nat)
    requires IsRun(cfg, mvs, ws) && n <= |mvs|
    ensures var w := ws[n];
            && (w.c.state == ClientDone ==> EndsInFinished(w.cGot) && EndsInFinished(w.sGot + w.toServer.q))
            && (w.s.state == ServerDone ==> EndsInFinished(w.sGot) && EndsInFinished(w.cGot + w.toClient.q))
  {
    DoneMeansAll(cfg, mvs, ws, n);
    OneFinished(cfg);
    ScriptEndsInFinished(ServerScript(cfg));
    ScriptEndsInFinished(ClientScript(cfg));
  }

  // ---------------------------------------------------------------- no deadlock

  predicate Has(s: Script, k: Kind) {
    s.Then? && (s.kind == k || Has(s.rest, k))
  }

  lemma MayHas(b: bool, m: Kind, s: Script, k: Kind)
    ensures Has(s, k) ==> Has(May(b, m, s), k)
    ensures m != k ==> (Has(May(b, m, s), k) <==> Has(s, k)) && (Has(Then(m, s), k) <==> Has(s, k))
  {
    assert Has(Then(m, s), k) <==> m == k || Has(s, k) by { HasThen(m, s, k); }
    hide Has;
  }

  lemma HasThen(m: Kind, s: Script, k: Kind)
    ensures Has(Then(m, s), k) <==> m == k || Has(s, k)
  {
  }

  lemma LastFlightsHave(cfg: Setting)
    ensures !Has(LastClientFlight(cfg, End), ClientHello) && !Has(LastServerFlight(cfg, End), ServerHelloDone)
  {
    hide May;
    var fin := Then(Finished, End);
    assert !Has(fin, ClientHello) && !Has(Then(ChangeCipherSpec, fin), ServerHelloDone);
    MayHas(cfg.ticket, NewSessionTicket, Then(ChangeCipherSpec, fin), ServerHelloDone);
    MayHas(cfg.channelId, ChannelId, fin, ClientHello);
    MayHas(cfg.npn, NextProto, May(cfg.channelId, ChannelId, fin), ClientHello);
  }

  lemma KeyFlightHas(cfg: Setting, s: Script)
    ensures Has(KeyFlight(cfg, s), ClientHello) <==> Has(s, ClientHello)
  {
    hide May, Has;
    MayHas(cfg.RequestsCert() && cfg.clientCert, CertificateVerify, s, ClientHello);
    var s1 := May(cfg.RequestsCert() && cfg.clientCert, CertificateVerify, s);
    MayHas(false, ClientKeyExchange, s1, ClientHello);
    MayHas(cfg.RequestsCert(), Certificate(!cfg.clientCert), Then(ClientKeyExchange, s1), ClientHello);
  }

  /** A side has nothing to do before the other acts: it is done, or it waits
      and nothing is there. */
  predicate ClientStuck(w: World) {
    || (w.c.wait == Ready && w.c.state == ClientDone)
    || ((w.c.wait == ReadMessage || w.c.wait == ReadCcs) && w.toClient.Head().None?)
  }

  predicate ServerStuck(w: World) {
    || (w.s.wait == Ready && w.s.state == ServerDone)
    || ((w.s.wait == ReadMessage || w.s.wait == ReadCcs) && w.toServer.Head().None?)
  }

  /** A waiting client has said hello, and either the server still owes it the
      end of its first flight or it has nothing more to send. */
  lemma ClientWaiting(cfg: Setting, st: ClientState)
    requires (ClientReading(cfg, st) || st == ClientProcessCcs) && ClientMode(cfg, st)
    ensures !Has(ClientToSend(cfg, st), ClientHello)
    ensures !cfg.resumed ==> ClientToSend(cfg, st) == End || Has(ClientToRead(cfg, st), ServerHelloDone)
  {
    hide ClientToSend, ClientToRead, LastClientFlight, LastServerFlight, KeyFlight, Has, May;
    LastFlightsHave(cfg);
    KeyFlightHas(cfg, LastClientFlight(cfg, End));
    ClientWaitingSends(cfg, st);
    if !cfg.resumed && ClientRank(false, st) > ClientRank(false, SendClientCertificate) {
      ClientWaitingReads(cfg, st);
    }
    assert !Has(End, ClientHello) by { EndHas(ClientHello); }
  }

  lemma EndHas(k: Kind)
    ensures !Has(End, k)
  {
  }

  lemma ClientWaitingSends(cfg: Setting, st: ClientState)
    requires (ClientReading(cfg, st) || st == ClientProcessCcs) && ClientMode(cfg, st)
    ensures ClientToSend(cfg, st) ==
              if cfg.resumed then LastClientFlight(cfg, End)
              else if ClientRank(false, st) > ClientRank(false, SendClientCertificate) then KeyFlight(cfg, LastClientFlight(cfg, End))
              else End
  {
    hide ClientToSend, ClientToRead, LastClientFlight, KeyFlight;
    if st.ReadSessionTicket? || st.ClientProcessCcs? || st.ReadServerFinished? {
      ClientWaitingSendsLast(cfg, st);
    } else if st.ReadHelloVerifyRequest? || st.ReadServerHello? {
      ClientEnds(cfg);
      if !cfg.resumed {
        ClientFull(cfg);
      }
      ClientUnfold(cfg, ReadServerHello);
      ClientUnfold(cfg, ReadHelloVerifyRequest);
    } else {
      ClientWaitingSendsKeys(cfg, st);
    }
  }

  lemma ClientWaitingSendsLast(cfg: Setting, st: ClientState)
    requires st.ReadSessionTicket? || st.ClientProcessCcs? || st.ReadServerFinished?
    ensures ClientToSend(cfg, st) == if cfg.resumed then LastClientFlight(cfg, End) else End
  {
    hide ClientToSend, ClientToRead, LastClientFlight;
    ClientEnds(cfg);
    ClientUnfold(cfg, ReadSessionTicket);
    ClientUnfold(cfg, ClientProcessCcs);
  }

  lemma ClientWaitingSendsKeys(cfg: Setting, st: ClientState)
    requires !cfg.resumed
    requires st.ReadServerCertificate? || st.ReadCertificateStatus? || st.ReadServerKeyExchange? || st.ReadCertificateRequest? || st.ReadServerHelloDone?
    ensures ClientToSend(cfg, st) == KeyFlight(cfg, LastClientFlight(cfg, End))
  {
    hide ClientToSend, ClientToRead, ClientTakes, LastClientFlight, KeyFlight;
    ClientFull(cfg);
    ClientUnfold(cfg, ReadServerCertificate);
    ClientUnfold(cfg, ReadCertificateStatus);
    ClientUnfold(cfg, VerifyServerCertificate);
    ClientUnfold(cfg, ReadServerKeyExchange);
    ClientUnfold(cfg, ReadCertificateRequest);
  }

  lemma ClientWaitingReads(cfg: Setting, st: ClientState)
    requires !cfg.resumed && ClientReading(cfg, st) && ClientRank(false, st) > ClientRank(false, SendClientCertificate)
    ensures Has(ClientToRead(cfg, st), ServerHelloDone)
  {
    hide ClientToSend, ClientToRead, ClientTakes, ClientAdds, LastServerFlight, ServerFlight, KeyFlight, May, Has;
    var last := LastServerFlight(cfg, End);
    FlightHas(cfg, last);
    ClientFull(cfg);
    ClientWaitingReadsHello(cfg);
    if st.ReadCertificateStatus? {
      ClientWaitingReadsStatus(cfg);
    }
  }

  lemma FlightHas(cfg: Setting, last: Script)
    ensures Has(Then(ServerHelloDone, last), ServerHelloDone) && Has(RequestAndDone(cfg, last), ServerHelloDone)
    ensures Has(May(cfg.SendsKeyExchange(), ServerKeyExchange, RequestAndDone(cfg, last)), ServerHelloDone)
    ensures Has(ServerFlight(cfg, last), ServerHelloDone)
  {
    hide May;
    assert Has(Then(ServerHelloDone, last), ServerHelloDone);
    hide Has;
    MayHas(cfg.RequestsCert(), CertificateRequest, Then(ServerHelloDone, last), ServerHelloDone);
    var s1 := RequestAndDone(cfg, last);
    MayHas(cfg.SendsKeyExchange(), ServerKeyExchange, s1, ServerHelloDone);
    var s2 := May(cfg.SendsKeyExchange(), ServerKeyExchange, s1);
    MayHas(cfg.certAuth && cfg.status, CertificateStatus, s2, ServerHelloDone);
    MayHas(cfg.certAuth, Certificate(false), May(cfg.certAuth && cfg.status, CertificateStatus, s2), ServerHelloDone);
  }

  lemma ClientWaitingReadsHello(cfg: Setting)
    requires !cfg.resumed && Has(ClientToRead(cfg, ReadServerCertificate), ServerHelloDone)
    ensures Has(ClientToRead(cfg, ReadServerHello), ServerHelloDone) && Has(ClientToRead(cfg, ReadHelloVerifyRequest), ServerHelloDone)
  {
    hide ClientToSend, ClientToRead, ClientAdds;
    ClientUnfold(cfg, ReadServerHello);
    ClientUnfold(cfg, ReadHelloVerifyRequest);
  }

  lemma ClientWaitingReadsStatus(cfg: Setting)
    requires !cfg.resumed && Has(ClientToRead(cfg, VerifyServerCertificate), ServerHelloDone)
    ensures Has(ClientToRead(cfg, ReadCertificateStatus), ServerHelloDone)
  {
    hide ClientToSend, ClientToRead, ClientAdds, May, Has;
    ClientUnfold(cfg, ReadCertificateStatus);
    MayHas(cfg.certAuth && cfg.status, CertificateStatus, ClientToRead(cfg, VerifyServerCertificate), ServerHelloDone);
  }

  /** A waiting server still needs the hello, or has sent all of its first
      flight, and all there is if the handshake is resumed. */
  lemma ServerWaiting(cfg: Setting, st: ServerState)
    requires (ServerReading(cfg, st) || st == ServerProcessCcs) && ServerMode(cfg, st)
    ensures || Has(ServerToRead(cfg, st), ClientHello)
            || (if cfg.resumed then ServerToSend(cfg, st) == End else !Has(ServerToSend(cfg, st), ServerHelloDone))
  {
    hide ServerToSend, ServerToRead, LastServerFlight;
    if st.ReadClientHello? || st.SelectCertificate? || st.SelectParameters? {
      ServerUnfold(cfg, SelectParameters);
      ServerUnfold(cfg, SelectCertificate);
      ServerUnfold(cfg, ReadClientHello);
    } else {
      ServerWaitingSends(cfg, st);
      LastFlightsHave(cfg);
    }
  }

  lemma ServerWaitingSends(cfg: Setting, st: ServerState)
    requires ServerRank(cfg.resumed, st) <= 12 && ServerMode(cfg, st) && (ServerReading(cfg, st) || st == ServerProcessCcs)
    ensures ServerToSend(cfg, st) == if cfg.resumed then End else LastServerFlight(cfg, End)
  {
    hide ServerToSend, ServerToRead;
    if !cfg.resumed {
      ServerReadsKeys(cfg);
    }
    ServerReadsEnd(cfg);
  }

  lemma ServerReadsKeys(cfg: Setting)
    requires !cfg.resumed
    ensures ServerToSend(cfg, ReadClientCertificate) == ServerToSend(cfg, ReadClientKeyExchange) == LastServerFlight(cfg, End)
    ensures ServerToSend(cfg, ReadClientCertificateVerify) == LastServerFlight(cfg, End)
  {
    hide ServerToSend, ServerToRead, ServerTakes, LastServerFlight;
    ServerKeys(cfg);
    ServerUnfold(cfg, ReadClientCertificate);
    ServerUnfold(cfg, VerifyClientCertificate);
    ServerUnfold(cfg, ReadClientKeyExchange);
  }

  lemma ServerReadsEnd(cfg: Setting)
    ensures var last := if cfg.resumed then End else LastServerFlight(cfg, End);
            && ServerToSend(cfg, ServerProcessCcs) == ServerToSend(cfg, ReadNextProto) == last
            && ServerToSend(cfg, ReadChannelId) == ServerToSend(cfg, ReadClientFinished) == last
  {
    hide ServerToSend, ServerToRead, ServerTakes, LastServerFlight;
    ServerEnds(cfg);
    ServerUnfold(cfg, ReadChangeCipherSpec);
    ServerUnfold(cfg, ServerProcessCcs);
    ServerUnfold(cfg, ReadNextProto);
    ServerUnfold(cfg, ReadChannelId);
  }

  predicate AllFlushed(w: World) {
    w.toServer.flushed == |w.toServer.q| && w.toClient.flushed == |w.toClient.q|
  }

  lemma StuckIsDone(cfg: Setting, w: World)
    requires Inv(cfg, w) && ClientStuck(w) && ServerStuck(w) && AllFlushed(w)
    ensures w.c.state == ClientDone && w.s.state == ServerDone
  {
    hide ClientToSend, ClientToRead, ServerToSend, ServerToRead, ServerScript, ClientScript, ClientFlagOk, ServerFlagOk, Has,
      ClientReading, ServerReading, ClientMode, ServerMode;
    AllDone(cfg);
    ClientWaitsRight(cfg, w.c);
    ServerWaitsRight(cfg, w.s);
    EndHas(ClientHello);
    if w.c.state != ClientDone && w.s.state != ServerDone {
      ClientWaiting(cfg, w.c.state);
      ServerWaiting(cfg, w.s.state);
    }
  }

  /** No deadlock: when everything has been flushed and neither side can go on,
      both are done. */
  lemma StuckMeansDone(cfg: Setting, mvs: seq<Move>, ws: seq<World>, n: nat)
    requires IsRun(cfg, mvs, ws) && n <= |mvs|
    requires ClientStuck(ws[n]) && ServerStuck(ws[n]) && AllFlushed(ws[n])
    ensures ws[n].c.state == ClientDone && ws[n].s.state == ServerDone
  {
    InvAlways(cfg, mvs, ws, n);
    StuckIsDone(cfg, ws[n]);
  }
}
