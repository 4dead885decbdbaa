/** That a handshake completes: no side waits for the other before all it has
    added is out, every step without a pause leads on, and calling both sides
    in turn reaches the end of both. */
module TlsHandshakeProgress {
  import opened Wrappers
  import opened TlsHandshakeSpec
  import opened TlsDuality
  import opened TlsHandshakeRuns
  import opened TlsHandshake

  // ---------------------------------------------------------------- flushing before waiting

  /** States in which messages may have been added since the last flush. */
  predicate ClientAdding(st: ClientState) {
    st.SendClientKeyExchange? || st.SendClientCertificateVerify? || st.SendClientFinished?
  }

  predicate ServerAdding(st: ServerState) {
    st.SendServerCertificate? || st.SendServerKeyExchange? || st.SendServerHelloDone? || st.SendServerFinished?
  }

  predicate Out(x: Queue) {
    x.flushed == |x.q|
  }

  /** But for those states, and while a flush is waited for, all is out. */
  predicate FlushedFirst(w: World) {
    && QueueOk(w.toServer) && QueueOk(w.toClient)
    && (!ClientAdding(w.c.state) && w.c.wait != Flush && w.c.wait != Failed ==> Out(w.toServer))
    && (!ServerAdding(w.s.state) && w.s.wait != Flush && w.s.wait != Failed ==> Out(w.toClient))
    && (w.c.wait == ReadMessage || w.c.wait == ReadCcs ==> !ClientAdding(w.c.state))
    && (w.s.wait == ReadMessage || w.s.wait == ReadCcs ==> !ServerAdding(w.s.state))
  }

  lemma ClientFlushesFirst(cfg: Setting, st: ClientState, flag: bool, head: Option<Kind>, pause: bool)
    requires st != ClientDone
    ensures var o := ClientDo(cfg, st, flag, head, pause);
            && (o.adds != [] ==> o.wait == Flush || ClientAdding(o.state))
            && (ClientAdding(st) ==> o.wait == Flush || ClientAdding(o.state) || o.wait == Failed)
            && (o.wait == ReadMessage || o.wait == ReadCcs ==> !ClientAdding(o.state) && o.adds == [])
            && (o.consumes ==> head.Some?)
  {
    hide LastClientFlight;
  }

  lemma ServerFlushesFirst(cfg: Setting, st: ServerState, flag: bool, head: Option<Kind>, pause: bool)
    requires st != ServerDone
    ensures var o := ServerDo(cfg, st, flag, head, pause);
            && (o.adds != [] ==> o.wait == Flush || ServerAdding(o.state))
            && (ServerAdding(st) ==> o.wait == Flush || ServerAdding(o.state) || o.wait == Failed)
            && (o.wait == ReadMessage || o.wait == ReadCcs ==> !ServerAdding(o.state) && o.adds == [])
            && (o.consumes ==> head.Some?)
  {
  }

  lemma ClientMoveFlushes(cfg: Setting, w: World, pause: bool)
    requires FlushedFirst(w)
    ensures FlushedFirst(ClientMove(cfg, w, pause))
  {
    hide ClientDo, ClientAdding, ServerAdding;
    if w.c.wait == Ready && w.c.state != ClientDone {
      ClientFlushesFirst(cfg, w.c.state, w.c.flag, Message(w.toClient), pause);
      assert w.toServer.q + [] == w.toServer.q;
    }
  }

  lemma ServerMoveFlushes(cfg: Setting, w: World, pause: bool)
    requires FlushedFirst(w)
    ensures FlushedFirst(ServerMove(cfg, w, pause))
  {
    hide ServerDo, ClientAdding, ServerAdding;
    if w.s.wait == Ready && w.s.state != ServerDone {
      ServerFlushesFirst(cfg, w.s.state, w.s.flag, Message(w.toServer), pause);
      assert w.toClient.q + [] == w.toClient.q;
    }
  }

  lemma {:induction false} FlushedFirstAlways(cfg: Setting, mvs: seq<Move>, ws: seq<World>, n: nat)
    requires IsRun(cfg, mvs, ws) && n <= |mvs|
    ensures FlushedFirst(ws[n])
  {
    hide ClientMove, ServerMove, ClientAdding, ServerAdding;
    if n == 0 {
      NothingToFlush();
    } else {
      var w := ws[n - 1];
      FlushedFirstAlways(cfg, mvs, ws, n - 1);
      match mvs[n - 1]
      case ClientRuns(pause) => ClientMoveFlushes(cfg, w, pause);
      case ServerRuns(pause) => ServerMoveFlushes(cfg, w, pause);
      case ClientFlushes(k) =>
      case ServerFlushes(k) =>
    }
  }

  lemma NothingToFlush()
    ensures FlushedFirst(Start())
  {
  }

  /** A side that waits for a message or a ChangeCipherSpec has nothing of its own
      that is not on its way. */
  lemma WaitsOnlyWhenFlushed(cfg: Setting, mvs: seq<Move>, ws: seq<World>, n: nat)
    requires IsRun(cfg, mvs, ws) && n <= |mvs|
    ensures ws[n].c.wait == ReadMessage || ws[n].c.wait == ReadCcs ==> ws[n].toServer.flushed == |ws[n].toServer.q|
    ensures ws[n].s.wait == ReadMessage || ws[n].s.wait == ReadCcs ==> ws[n].toClient.flushed == |ws[n].toClient.q|
  {
    FlushedFirstAlways(cfg, mvs, ws, n);
  }

  // ---------------------------------------------------------------- every step leads on

  /** Without a pause and with the message at hand, if one is looked for, a step
      goes to the state that follows. */
  lemma ClientLeadsOn(cfg: Setting, st: ClientState, flag: bool, head: Option<Kind>, toRead: Script)
    requires st != ClientDone && (ClientReading(cfg, st) ==> head.Some?)
    requires HeadOk(ClientTakes(cfg, st, toRead), head) && (head.Some? ==> ClientPeeks(cfg, st, head.value))
    requires st != ClientProcessCcs
    ensures ClientDo(cfg, st, flag, head, false).state == ClientNext(cfg, st) != st
  {
    hide LastClientFlight;
  }

  lemma ServerLeadsOn(cfg: Setting, st: ServerState, flag: bool, head: Option<Kind>, toRead: Script)
    requires st != ServerDone && (ServerReading(cfg, st) ==> head.Some?) && ServerFlagOk(cfg, st, flag)
    requires HeadOk(ServerTakes(cfg, st, toRead), head) && (head.Some? ==> ServerPeeks(cfg, st, head.value))
    requires st != ServerProcessCcs
    ensures ServerDo(cfg, st, flag, head, false).state == ServerNext(cfg, st) != st
  {
  }

  // ---------------------------------------------------------------- what a call leaves to do

  /** Twice the rank, and one more for a side that has something to do at once. */
  function ClientToDo(cfg: Setting, c: Side<ClientState>): nat {
    2 * ClientRank(cfg.resumed, c.state)
    + if c.wait == ReadMessage || c.wait == ReadCcs || (c.wait == Ready && c.state == ClientDone) then 0 else 1
  }

  function ServerToDo(cfg: Setting, s: Side<ServerState>): nat {
    2 * ServerRank(cfg.resumed, s.state)
    + if s.wait == ReadMessage || s.wait == ReadCcs || (s.wait == Ready && s.state == ServerDone) then 0 else 1
  }

  function ClientGoesOn(st: ClientState): bool {
    false
  }

  function ServerGoesOn(st: ServerState): bool {
    false
  }

  /** A side whose input is kept, but for what it reads, and whose step moves. */
  lemma ClientStepMoves(cfg: Setting, w: World)
    requires Inv(cfg, w) && w.c.wait == Ready && w.c.state != ClientDone
    ensures var w' := ClientMove(cfg, w, false);
            && Inv(cfg, w') && w'.s == w.s
            && if w'.c.state == w.c.state then w'.c.wait == ReadMessage && Message(w.toClient) == None && ClientReading(cfg, w.c.state)
               else ClientRank(cfg.resumed, w'.c.state) < ClientRank(cfg.resumed, w.c.state)
  {
    hide ClientDo, ClientToSend, ClientToRead, ServerToSend, ServerToRead, ClientTakes, ClientPeeks, ClientReading, ClientFlagOk, ClientMode, ServerOk,
      Dual, ClientNext, ServerScript, ClientScript;
    ClientMoveKeeps(cfg, w, false);
    var st, head := w.c.state, Message(w.toClient);
    ClientRankDecreases(cfg, st, w.c.flag, head, false);
    ClientInput(cfg, w);
    if st == ClientProcessCcs {
      CcsProcessed(cfg, w.c.flag, head, false);
    } else {
      ClientUnfold(cfg, st);
      var toRead := ClientToRead(cfg, ClientNext(cfg, st));
      if head.Some? {
        ClientHeads(cfg, st, head.value);
      }
      if ClientReading(cfg, st) && head == None {
        ClientDoMoves(cfg, st, w.c.flag, head, false, toRead);
        ClientStays(cfg, st, w.c.flag);
      } else {
        ClientLeadsOn(cfg, st, w.c.flag, head, toRead);
      }
    }
  }

  /** The message at hand is the next of the script. */
  lemma ClientInput(cfg: Setting, w: World)
    requires Inv(cfg, w) && w.c.wait == Ready
    ensures w.c.state != ClientProcessCcs ==> HeadOk(ClientToRead(cfg, w.c.state), Message(w.toClient))
    ensures ClientMode(cfg, w.c.state)
  {
    hide ClientToSend, ClientToRead, ServerToSend, ServerToRead, ServerOk, ServerScript, ClientScript;
    HeadExpected(w.toClient, ServerToSend(cfg, w.s.state), ClientLeft(cfg, w.c));
  }

  /** Without the message it looks for, a step stays and waits for one, or does
      not need it after all. */
  lemma ClientStays(cfg: Setting, st: ClientState, flag: bool)
    requires ClientReading(cfg, st)
    ensures var o := ClientDo(cfg, st, flag, None, false); o.state == st ==> o.wait == ReadMessage
  {
  }

  lemma ServerStepMoves(cfg: Setting, w: World)
    requires Inv(cfg, w) && w.s.wait == Ready && w.s.state != ServerDone
    ensures var w' := ServerMove(cfg, w, false);
            && Inv(cfg, w') && w'.c == w.c
            && if w'.s.state == w.s.state then w'.s.wait == ReadMessage && Message(w.toServer) == None && ServerReading(cfg, w.s.state)
               else ServerRank(cfg.resumed, w'.s.state) < ServerRank(cfg.resumed, w.s.state)
  {
    hide ServerDo, ClientToSend, ClientToRead, ServerToSend, ServerToRead, ServerTakes, ServerPeeks, ServerReading, ServerFlagOk, ServerMode, ClientOk,
      Dual, ServerNext, ServerScript, ClientScript;
    ServerMoveKeeps(cfg, w, false);
    var st, head := w.s.state, Message(w.toServer);
    ServerRankDecreases(cfg, st, w.s.flag, head, false);
    ServerInput(cfg, w);
    if st == ServerProcessCcs {
      ServerCcsProcessed(cfg, w.s.flag, head);
    } else {
      ServerUnfold(cfg, st);
      var toRead := ServerToRead(cfg, ServerNext(cfg, st));
      if head.Some? {
        ServerHeads(cfg, st, head.value);
      }
      if ServerReading(cfg, st) && head == None {
        ServerDoMoves(cfg, st, w.s.flag, head, false, toRead);
        ServerStays(cfg, st, w.s.flag);
      } else {
        ServerLeadsOn(cfg, st, w.s.flag, head, toRead);
      }
    }
  }

  lemma ServerInput(cfg: Setting, w: World)
    requires Inv(cfg, w) && w.s.wait == Ready
    ensures w.s.state != ServerProcessCcs ==> HeadOk(ServerToRead(cfg, w.s.state), Message(w.toServer))
    ensures ServerFlagOk(cfg, w.s.state, w.s.flag)
  {
    hide ClientToSend, ClientToRead, ServerToSend, ServerToRead, ClientOk, ServerScript, ClientScript;
    HeadExpected(w.toServer, ClientToSend(cfg, w.c.state), ServerLeft(cfg, w.s));
  }

  lemma ServerCcsProcessed(cfg: Setting, flag: bool, head: Option<Kind>)
    ensures ServerDo(cfg, ServerProcessCcs, flag, head, false) == Go(ReadNextProto)
  {
  }

  lemma ServerStays(cfg: Setting, st: ServerState, flag: bool)
    requires ServerReading(cfg, st)
    ensures var o := ServerDo(cfg, st, flag, None, false); o.state == st ==> o.wait == ReadMessage
  {
  }

  // ---------------------------------------------------------------- a call

  /** A driver that is ready leaves less to do: no more than twice its rank, and
      less than that if its first step moves. */
  lemma {:induction false} ClientDrivesOn(cfg: Setting, w: World)
    requires Inv(cfg, w) && w.c.wait == Ready
    ensures var w' := ClientDrive(cfg, w, ClientGoesOn);
            && Inv(cfg, w') && w'.s == w.s
            && ClientToDo(cfg, w'.c) <= 2 * ClientRank(cfg.resumed, w.c.state)
            && (w.c.state != ClientDone && (ClientReading(cfg, w.c.state) ==> Message(w.toClient).Some?) ==>
                  ClientToDo(cfg, w'.c) < 2 * ClientRank(cfg.resumed, w.c.state))
    decreases ClientRank(cfg.resumed, w.c.state)
  {
    hide Inv, ClientMove, ClientRank, ClientReading;
    if w.c.state == ClientDone {
      DoneRanks(cfg);
    } else {
      ClientStepMoves(cfg, w);
      var w1 := ClientMove(cfg, w, false);
      DriveUnfolds(cfg, w);
      if w1.c.wait == Ready {
        ClientDrivesOn(cfg, w1);
      } else {
        ClientWaits(cfg, w1, ClientGoesOn);
      }
    }
  }

  lemma DoneRanks(cfg: Setting)
    ensures ClientRank(cfg.resumed, ClientDone) == 0 && ServerRank(cfg.resumed, ServerDone) == 0
  {
  }

  lemma DriveUnfolds(cfg: Setting, w: World)
    ensures w.c.wait == Ready && w.c.state != ClientDone ==>
              ClientDrive(cfg, w, ClientGoesOn) == ClientDrive(cfg, ClientMove(cfg, w, false), ClientGoesOn)
    ensures w.s.wait == Ready && w.s.state != ServerDone ==>
              ServerDrive(cfg, w, ServerGoesOn) == ServerDrive(cfg, ServerMove(cfg, w, false), ServerGoesOn)
  {
    hide ClientMove, ServerMove;
  }

  lemma {:induction false} ServerDrivesOn(cfg: Setting, w: World)
    requires Inv(cfg, w) && w.s.wait == Ready
    ensures var w' := ServerDrive(cfg, w, ServerGoesOn);
            && Inv(cfg, w') && w'.c == w.c
            && ServerToDo(cfg, w'.s) <= 2 * ServerRank(cfg.resumed, w.s.state)
            && (w.s.state != ServerDone && (ServerReading(cfg, w.s.state) ==> Message(w.toServer).Some?) ==>
                  ServerToDo(cfg, w'.s) < 2 * ServerRank(cfg.resumed, w.s.state))
    decreases ServerRank(cfg.resumed, w.s.state)
  {
    hide Inv, ServerMove, ServerRank, ServerReading;
    if w.s.state == ServerDone {
      DoneRanks(cfg);
    } else {
      ServerStepMoves(cfg, w);
      var w1 := ServerMove(cfg, w, false);
      DriveUnfolds(cfg, w);
      if w1.s.wait == Ready {
        ServerDrivesOn(cfg, w1);
      } else {
        ServerWaits(cfg, w1, ServerGoesOn);
      }
    }
  }

  lemma ClientResolvesOnce(cfg: Setting, w: World)
    ensures ClientResolved(cfg, w) == if w.c.wait != Ready then ClientMove(cfg, w, false) else w
  {
    hide Resolve, ClientDo;
  }

  lemma ServerResolvesOnce(cfg: Setting, w: World)
    ensures ServerResolved(cfg, w) == if w.s.wait != Ready then ServerMove(cfg, w, false) else w
  {
    hide Resolve, ServerDo;
  }

  /** Resolving a wait, once all is flushed: a side that is not stuck is ready
      afterwards, with its message at hand. */
  lemma ClientIsResolved(cfg: Setting, w: World)
    requires Inv(cfg, w)
    ensures var v := ClientResolved(cfg, w);
            && Inv(cfg, v) && v.s == w.s && v.c.state == w.c.state
            && (ClientStuck(w) ==> v == w)
            && (!ClientStuck(w) && Out(w.toServer) ==> v.c.wait == Ready)
            && (v.c.wait != Ready ==> v.c == w.c)
            && (w.c.wait == ReadMessage && v.c.wait == Ready ==> Message(v.toClient).Some? && w.c.state != ClientDone)
            && (w.c.wait == ReadCcs ==> w.c.state == ClientProcessCcs)
  {
    hide ClientToSend, ClientToRead, ServerToSend, ServerToRead, ServerOk, ClientMode, ClientFlagOk, ServerScript, ClientScript, ClientDo;
    if w.c.wait != Ready {
      ClientMoveKeeps(cfg, w, false);
      ClientResolvesOnce(cfg, w);
    }
  }

  lemma ServerIsResolved(cfg: Setting, w: World)
    requires Inv(cfg, w)
    ensures var v := ServerResolved(cfg, w);
            && Inv(cfg, v) && v.c == w.c && v.s.state == w.s.state
            && (ServerStuck(w) ==> v == w)
            && (!ServerStuck(w) && Out(w.toClient) ==> v.s.wait == Ready)
            && (v.s.wait != Ready ==> v.s == w.s)
            && (w.s.wait == ReadMessage && v.s.wait == Ready ==> Message(v.toServer).Some? && w.s.state != ServerDone)
            && (w.s.wait == ReadCcs ==> w.s.state == ServerProcessCcs)
  {
    hide ClientToSend, ClientToRead, ServerToSend, ServerToRead, ClientOk, ServerMode, ServerFlagOk, ServerScript, ClientScript, ServerDo;
    if w.s.wait != Ready {
      ServerMoveKeeps(cfg, w, false);
      ServerResolvesOnce(cfg, w);
    }
  }

  /** A call never leaves more to do, and less if the side was not stuck. */
  lemma ClientCallHelps(cfg: Setting, w: World)
    requires Inv(cfg, w)
    ensures var w' := ClientContinue(cfg, w, ClientGoesOn);
            && Inv(cfg, w') && w'.s == w.s && ClientToDo(cfg, w'.c) <= ClientToDo(cfg, w.c)
            && (!ClientStuck(w) && Out(w.toServer) ==> ClientToDo(cfg, w'.c) < ClientToDo(cfg, w.c))
            && (ClientStuck(w) ==> w' == w)
  {
    hide Inv, ClientDrive, ClientResolved, ClientContinue, ClientRank;
    var v := ClientResolved(cfg, w);
    ClientContinues(cfg, w, ClientGoesOn);
    ClientIsResolved(cfg, w);
    DoneRanks(cfg);
    if v.c.wait == Ready {
      ClientDrivesOn(cfg, v);
      if ClientStuck(w) {
        DriveDone(cfg, v);
      }
    } else {
      ClientWaits(cfg, v, ClientGoesOn);
    }
  }

  lemma DriveDone(cfg: Setting, w: World)
    ensures w.c.state == ClientDone ==> ClientDrive(cfg, w, ClientGoesOn) == w
    ensures w.s.state == ServerDone ==> ServerDrive(cfg, w, ServerGoesOn) == w
  {
  }

  lemma ServerCallHelps(cfg: Setting, w: World)
    requires Inv(cfg, w)
    ensures var w' := ServerContinue(cfg, w, ServerGoesOn);
            && Inv(cfg, w') && w'.c == w.c && ServerToDo(cfg, w'.s) <= ServerToDo(cfg, w.s)
            && (!ServerStuck(w) && Out(w.toClient) ==> ServerToDo(cfg, w'.s) < ServerToDo(cfg, w.s))
            && (ServerStuck(w) ==> w' == w)
  {
    hide Inv, ServerDrive, ServerResolved, ServerContinue, ServerRank;
    var v := ServerResolved(cfg, w);
    ServerContinues(cfg, w, ServerGoesOn);
    ServerIsResolved(cfg, w);
    DoneRanks(cfg);
    if v.s.wait == Ready {
      ServerDrivesOn(cfg, v);
      if ServerStuck(w) {
        DriveDone(cfg, v);
      }
    } else {
      ServerWaits(cfg, v, ServerGoesOn);
    }
  }

  // ---------------------------------------------------------------- rounds

  /** Everything added is flushed, and then both sides are called. */
  function Round(cfg: Setting, w: World): World {
    ServerContinue(cfg, ClientContinue(cfg, AllOut(w), ClientGoesOn), ServerGoesOn)
  }

  function AllOut(w: World): World {
    w.(toServer := Queue(w.toServer.q, |w.toServer.q|), toClient := Queue(w.toClient.q, |w.toClient.q|))
  }

  function Rounds(cfg: Setting, w: World, n: nat): World
    decreases n
  {
    if n == 0 then w else Rounds(cfg, Round(cfg, w), n - 1)
  }

  function ToDo(cfg: Setting, w: World): nat {
    ClientToDo(cfg, w.c) + ServerToDo(cfg, w.s)
  }

  predicate BothDone(w: World) {
    w.c.state == ClientDone && w.s.state == ServerDone
  }

  lemma RoundHelps(cfg: Setting, w: World)
    requires Inv(cfg, w)
    ensures Inv(cfg, Round(cfg, w)) && ToDo(cfg, Round(cfg, w)) <= ToDo(cfg, w)
    ensures !BothDone(w) ==> ToDo(cfg, Round(cfg, w)) < ToDo(cfg, w)
  {
    hide Inv, ClientContinue, ServerContinue, ClientToDo, ServerToDo;
    var w1 := AllOut(w);
    FlushKeeps(cfg, w, w1.toClient, w1.toServer) by {
      InvQueues(cfg, w);
    }
    assert w.(toClient := w1.toClient, toServer := w1.toServer) == w1;
    ClientCallHelps(cfg, w1);
    var w2 := ClientContinue(cfg, w1, ClientGoesOn);
    ServerCallHelps(cfg, w2);
    if !BothDone(w) && ClientStuck(w1) {
      if ServerStuck(w1) {
        StuckIsDone(cfg, w1);
      }
      assert w2 == w1;
    }
  }

  lemma InvQueues(cfg: Setting, w: World)
    requires Inv(cfg, w)
    ensures QueueOk(w.toServer) && QueueOk(w.toClient)
  {
  }

  lemma NothingToDo(cfg: Setting, w: World)
    ensures ToDo(cfg, w) == 0 ==> BothDone(w)
    ensures BothDone(w) ==> ToDo(cfg, w) <= 2
    ensures ToDo(cfg, w) <= 82
  {
  }

  lemma StaysDone(cfg: Setting, w: World)
    requires Inv(cfg, w) && BothDone(w)
    ensures BothDone(Round(cfg, w))
  {
    hide Inv, ClientContinue, ServerContinue;
    var w1 := AllOut(w);
    FlushKeeps(cfg, w, w1.toClient, w1.toServer) by {
      InvQueues(cfg, w);
    }
    assert w.(toClient := w1.toClient, toServer := w1.toServer) == w1;
    ClientCallHelps(cfg, w1);
    var w2 := ClientContinue(cfg, w1, ClientGoesOn);
    ServerCallHelps(cfg, w2);
    OnlyDoneRanks(cfg, w2.c.state, ServerContinue(cfg, w2, ServerGoesOn).s.state);
  }

  lemma OnlyDoneRanks(cfg: Setting, c: ClientState, s: ServerState)
    ensures ClientRank(cfg.resumed, c) == 0 <==> c == ClientDone
    ensures ServerRank(cfg.resumed, s) == 0 <==> s == ServerDone
  {
  }

  /** From every state in which the two sides agree, as many rounds as there is
      to do bring both to their end, and they stay there. */
  lemma {:induction false} RoundsComplete(cfg: Setting, w: World, n: nat)
    requires Inv(cfg, w) && (n >= ToDo(cfg, w) || BothDone(w))
    ensures Inv(cfg, Rounds(cfg, w, n)) && BothDone(Rounds(cfg, w, n))
    decreases n
  {
    hide Inv, Round, ToDo;
    if n == 0 {
      NothingToDo(cfg, w);
    } else {
      RoundHelps(cfg, w);
      if BothDone(w) {
        StaysDone(cfg, w);
      }
      RoundsComplete(cfg, Round(cfg, w), n - 1);
    }
  }

  /** Every handshake completes: in 82 rounds of calls without pauses and with
      all flushed, whatever the setting, and also after any run with pauses and
      partial flushes. */
  lemma HandshakeCompletes(cfg: Setting, mvs: seq<Move>, ws: seq<World>, n: nat)
    requires IsRun(cfg, mvs, ws) && n <= |mvs|
    ensures var w := Rounds(cfg, ws[n], 82);
            && w.c.state == ClientDone && w.s.state == ServerDone
            && w.cGot == Messages(ServerScript(cfg)) && w.sGot == Messages(ClientScript(cfg))
  {
    hide Inv, Rounds, ToDo, ServerScript, ClientScript;
    InvAlways(cfg, mvs, ws, n);
    NothingToDo(cfg, ws[n]);
    RoundsComplete(cfg, ws[n], 82);
    DoneIsComplete(cfg, Rounds(cfg, ws[n], 82));
  }

  // ---------------------------------------------------------------- the drivers

  /** The two mutable drivers, from new, come to their ends. */
  method Complete(cfg: Setting) returns (c: ClientHandshake, s: ServerHandshake)
    ensures c.state == ClientDone && s.state == ServerDone
    ensures c.conn.got == Messages(ServerScript(cfg)) && s.conn.got == Messages(ClientScript(cfg))
  {
    hide Inv, ClientContinue, ServerContinue, ServerScript, ClientScript, ToDo;
    c, s := Handshakes(cfg, []);
    assert Joint(c, s) == Start();
    StartInv(cfg);
    NothingToDo(cfg, Start());
    RoundsComplete(cfg, Start(), 82);
    DoneIsComplete(cfg, Rounds(cfg, Start(), 82));
    for i := 0 to 82
      invariant c.cfg == cfg && Linked(c, s) && fresh(c) && fresh(s) && fresh(c.conn) && fresh(s.conn)
      invariant Inv(cfg, Joint(c, s)) && Rounds(cfg, Start(), 82) == Rounds(cfg, Joint(c, s), 82 - i)
    {
      RoundHelps(cfg, Joint(c, s));
      PlayRound(c, s);
    }
  }

  method PlayRound(c: ClientHandshake, s: ServerHandshake)
    requires Linked(c, s) && Inv(c.cfg, Joint(c, s))
    modifies c, s, c.conn, s.conn
    ensures Linked(c, s) && Joint(c, s) == Round(c.cfg, old(Joint(c, s)))
  {
    hide Inv, ClientContinue, ServerContinue;
    InvQueues(c.cfg, Joint(c, s));
    TakeTurn(c, s, ClientSends(|c.conn.output.q| - c.conn.output.flushed));
    TakeTurn(c, s, ServerSends(|s.conn.output.q| - s.conn.output.flushed));
    assert Joint(c, s) == AllOut(old(Joint(c, s)));
    TakeTurn(c, s, ClientCalled(ClientGoesOn));
    TakeTurn(c, s, ServerCalled(ServerGoesOn));
  }
}
