/** Both ends of a DTLS handshake and the network between them. Whatever the
    network loses, repeats, delays or reorders, and however often and in
    whatever packet sizes flights are resent, the receiver hands out a prefix of
    the sender's messages, byte for byte as the sender hashed them (RFC 6347,
    sections 4.2.3 and 4.2.6). */
module DtlsEndToEnd {
  import opened Wrappers
  import opened DtlsWire
  import opened DtlsReassembly
  import opened DtlsRecordFormat
  import opened DtlsReplay
  import opened DtlsReaderSpec
  import R = DtlsReaderRuns
  import opened W = DtlsWriterSpec
  import opened DtlsWriterRuns

  // ---------------------------------------------------------------- genuine data

  ghost predicate MessagesOk(msgs: seq<Message>) {
    |msgs| < 0x1_0000 && forall m | m in msgs :: |m.body| < 0x100_0000
  }

  /** The fragment is a piece of message number seqNo. */
  ghost predicate GenuineFragment(msgs: seq<Message>, f: Fragment) {
    && WellFormedFragment(f) && f.hdr.seqNo < |msgs|
    && var m := msgs[f.hdr.seqNo];
       && f.hdr.typ == m.typ && f.hdr.msgLen == |m.body|
       && f.hdr.fragOff + f.hdr.fragLen <= |m.body|
       && f.body == m.body[f.hdr.fragOff..f.hdr.fragOff + f.hdr.fragLen]
  }

  ghost predicate GenuinePartial(msgs: seq<Message>, p: Partial) {
    && p.seqNo < |msgs|
    && var m := msgs[p.seqNo];
       && p.typ == m.typ && p.msgLen == |m.body|
       && forall i | i in p.got :: i < |m.body| && p.got[i] == m.body[i]
  }

  ghost predicate GenuineRing(msgs: seq<Message>, r: Ring)
    requires RingInv(r)
  {
    forall i | 0 <= i < MAX_HANDSHAKE_FLIGHT && r.slots[i].Some? :: GenuinePartial(msgs, r.slots[i].value)
  }

  lemma AddGenuineBytes(msgs: seq<Message>, p: Partial, f: Fragment)
    requires GenuinePartial(msgs, p) && GenuineFragment(msgs, f) && f.hdr.seqNo == p.seqNo
    ensures GenuinePartial(msgs, AddBytes(p, f.hdr.fragOff, f.body))
  {
  }

  /** Pieces of the sender's messages keep the ring genuine, and are turned away
      with an error in exactly three cases: longer than this end accepts, not
      the current message in the first encrypted epoch, or the first number
      past the ring. A conflicting fragment header is never met. */
  lemma TakeGenuineFragment(msgs: seq<Message>, r: Ring, epoch: nat, maxLen: nat, f: Fragment)
    requires RingInv(r) && GenuineRing(msgs, r) && GenuineFragment(msgs, f)
    ensures var res := TakeFragment(r, epoch, maxLen, f);
            && (res.Ok? ==> RingInv(res.value) && GenuineRing(msgs, res.value))
            && (res.Err? <==>
                  || f.hdr.msgLen > maxLen
                  || (epoch == 1 && f.hdr.seqNo != r.readSeq)
                  || (epoch != 1 && f.hdr.seqNo == r.readSeq + MAX_HANDSHAKE_FLIGHT))
  {
    TakeFragmentKeepsRing(r, epoch, maxLen, f);
    var p := IncomingMessage(r, f.hdr);
    if ScreenFragment(r.readSeq, epoch, maxLen, f.hdr) == Ok(true) && p.Ok? {
      AddGenuineBytes(msgs, p.value, f);
    }
  }

  lemma TakeOneFragment(msgs: seq<Message>, r: Ring, epoch: nat, maxLen: nat, f: Fragment)
    requires RingInv(r) && GenuineRing(msgs, r) && GenuineFragment(msgs, f)
    ensures GenuineRing(msgs, TakeFragments(r, epoch, maxLen, SerializeFragment(f)).0)
    ensures var res := TakeFragment(r, epoch, maxLen, f);
            TakeFragments(r, epoch, maxLen, SerializeFragment(f)) ==
              if res.Ok? then (res.value, None) else (r, Some(res.error))
  {
    ParseSerialized(f, []);
    assert SerializeFragment(f) + [] == SerializeFragment(f);
    TakeGenuineFragment(msgs, r, epoch, maxLen, f);
  }

  // ---------------------------------------------------------------- sealed records

  type KeyTable = nat -> Aead

  ghost predicate KeysLawful(keys: KeyTable) {
    forall e :: Lawful(keys(e))
  }

  /** The record was sealed under the key of the epoch its header names. */
  ghost predicate SealedUnder(keys: KeyTable, x: Sealed) {
    && WellFormedSealed(x)
    && keys(EpochOf(x.params.sequence)).seal(x.nonce, x.params, x.plain) == Some(x.body)
  }

  /** A handshake record holds one piece of one of the messages. */
  ghost predicate GenuineRecord(msgs: seq<Message>, x: Sealed) {
    x.params.typ == RT_HANDSHAKE ==>
      exists f :: GenuineFragment(msgs, f) && x.plain == SerializeFragment(f)
  }

  ghost predicate KeysAre(keys: KeyTable, k: Keys) {
    k.aead == keys(k.epoch) && (k.epoch >= 1 ==> k.lastAead == keys(k.epoch - 1))
  }

  ghost predicate LogSealed(keys: KeyTable, k: Keys, log: seq<Sealed>) {
    KeysAre(keys, k) && forall x | x in log :: SealedUnder(keys, x)
  }

  ghost function LogSealedInv(keys: KeyTable): LogInv {
    (k, log) => LogSealed(keys, k, log)
  }

  lemma SealKeepsSealed(keys: KeyTable, tape: Tape)
    ensures SealKeeps(LogSealedInv(keys), tape)
  {
    forall k: Keys, log: seq<Sealed>, use: UseEpoch, typ: byte, plain: seq<byte>, maxOut: nat
      ensures KeptBy(LogSealedInv(keys), tape, k, log, use, typ, plain, maxOut)
    {
      if KeysInv(k) && LogSealed(keys, k, log) && (use.Previous? ==> k.epoch >= 1) {
        EpochOfSequence(k.EpochAt(use), k.SeqAt(use));
      }
    }
  }

  /** Opening what the network delivers gives back what was sealed. */
  lemma OpenDelivered(keys: KeyTable, rd: Reader, x: Sealed, tail: seq<byte>)
    requires KeysLawful(keys) && SealedUnder(keys, x) && rd.aead == keys(rd.epoch)
    ensures var verdict := OpenRecord(rd, Wire(x) + tail).0;
            verdict.OpenSuccess? ==> verdict.typ == x.params.typ && verdict.plain == x.plain
  {
    if |x.body| <= MAX_ENCRYPTED_LENGTH {
      ParseSerializedRecord(Record(x.params, x.body), tail);
      if EpochOf(x.params.sequence) == rd.epoch {
        assert SealedOk(rd.aead, x.params, x.plain, x.body);
      }
    } else {
      LongRecord(x, tail);
    }
  }

  lemma LongRecord(x: Sealed, tail: seq<byte>)
    requires WellFormedSealed(x) && |x.body| > MAX_ENCRYPTED_LENGTH
    ensures ParseRecord(Wire(x) + tail) == None
  {
    var s := Wire(x) + tail;
    assert s[11..13] == U16(|x.body|);
    ReadU16OfU16(|x.body|);
  }

  // ---------------------------------------------------------------- the world

  /** `msgs` are the messages the sender has queued, in order; `log` every record
      it has sealed; `got` what the receiver has handed to its handshake. */
  datatype World = World(w: Writer, log: seq<Sealed>, msgs: seq<Message>, rd: Reader, got: seq<SSLMessage>)

  /** The parties agree on a key for every epoch. */
  datatype Env = Env(keys: KeyTable, tape: Tape, maxLen: nat)

  datatype Move =
    | Send(op: Op)                       // the sender does something
    | Deliver(i: nat, tail: seq<byte>)   // the network delivers the i-th record sealed, and more bytes behind it
    | Take                               // the receiver's handshake consumes a message
    | TakeCcs
    | ChangeReadKeys

  ghost predicate MoveOk(env: Env, x: World, mv: Move) {
    match mv
    case Send(op) =>
      && OpOk(op)
      && (op.SetWriteState? ==> op.aead == env.keys((x.w.keys.epoch + 1) % 0x1_0000))
    case Deliver(i, _) => i < |x.log|
    case _ => true
  }

  /** The messages queued by an operation: none if the flight is full. */
  function NewMessages(w: Writer, op: Op): seq<Message>
    requires OpOk(op) && w.msgSeq < 0x1_0000
  {
    if op.AddMessage? && AddOutgoing(w, FinishMessage(InitMessage(op.m, w.msgSeq)), false).1 then [op.m] else []
  }

  ghost predicate Shape(x: World) {
    WriterInv(x.w) && ReaderInv(x.rd)
  }

  ghost function Next(env: Env, x: World, mv: Move): (y: World)
    requires Shape(x) && MoveOk(env, x, mv)
    ensures Shape(y)
  {
    match mv
    case Send(op) =>
      var (w, recs) := DtlsWriterRuns.Step(x.w, env.tape, op);
      x.(w := w, log := x.log + recs, msgs := x.msgs + NewMessages(x.w, op))
    case Deliver(i, tail) =>
      if WellFormedSealed(x.log[i]) then
        x.(rd := R.Step(x.rd, env.maxLen, R.Packet(Wire(x.log[i]) + tail)))
      else x
    case Take =>
      if HasCurrent(x.rd.ring) then
        var p := DtlsReaderSpec.Current(x.rd.ring);
        var rd := R.Step(R.Step(x.rd, env.maxLen, R.GetMessage), env.maxLen, R.NextMessage);
        x.(rd := rd, got := x.got + [Handed(p)])
      else x
    case TakeCcs => x.(rd := R.Step(x.rd, env.maxLen, R.TakeCcs))
    case ChangeReadKeys =>
      x.(rd := R.Step(x.rd, env.maxLen, R.SetReadState(env.keys((x.rd.epoch + 1) % 0x1_0000))))
  }

  /** What the handshake is given for a complete message: DtlsReader.GetMessage
      is proved to return this. */
  ghost function Handed(p: Partial): (m: SSLMessage)
    requires p.Complete()
    ensures p.msgLen < 0x100_0000 && p.seqNo < 0x1_0000 ==> IsMessage(m, p)
  {
    if p.msgLen < 0x100_0000 && p.seqNo < 0x1_0000 then
      SSLMessage(p.typ, p.Body(), SerializeHeader(WholeHeader(p.typ, p.seqNo, p.msgLen)) + p.Body())
    else SSLMessage(p.typ, p.Body(), [])
  }

  /** What the sender hashed for message number n, with its type and body. */
  function AsSent(msgs: seq<Message>, n: nat): SSLMessage
    requires n < |msgs| && n < 0x1_0000 && |msgs[n].body| < 0x100_0000
  {
    SSLMessage(msgs[n].typ, msgs[n].body, SerializeFragment(FragmentOf(msgs[n], n)))
  }

  // ---------------------------------------------------------------- the invariant

  ghost predicate QueueGenuine(msgs: seq<Message>, outgoing: seq<OutMsg>) {
    forall m | m in outgoing && !m.isCcs :: IsQueued(msgs, m)
  }

  ghost predicate IsQueued(msgs: seq<Message>, m: OutMsg) {
    exists n: nat :: n < |msgs| && QueuedFragment(m) == Some(FragmentOf(msgs[n], n))
  }

  ghost predicate LogGenuine(msgs: seq<Message>, log: seq<Sealed>) {
    forall x | x in log :: GenuineRecord(msgs, x)
  }

  ghost predicate GotPrefix(msgs: seq<Message>, got: seq<SSLMessage>)
    requires MessagesOk(msgs)
  {
    |got| <= |msgs| && forall i | 0 <= i < |got| :: got[i] == AsSent(msgs, i)
  }

  ghost predicate Inv(env: Env, x: World) {
    && Shape(x) && MessagesOk(x.msgs)
    && x.w.msgSeq == |x.msgs|
    && QueueGenuine(x.msgs, x.w.outgoing)
    && LogSealed(env.keys, x.w.keys, x.log) && LogGenuine(x.msgs, x.log)
    && x.rd.aead == env.keys(x.rd.epoch)
    && GenuineRing(x.msgs, x.rd.ring)
    && |x.got| == x.rd.ring.readSeq && GotPrefix(x.msgs, x.got)
  }

  // ---------------------------------------------------------------- more messages do not hurt

  lemma StillGenuineFragment(msgs: seq<Message>, m: Message, f: Fragment)
    requires GenuineFragment(msgs, f)
    ensures GenuineFragment(msgs + [m], f)
  {
  }

  lemma StillGenuine(env: Env, x: World, m: Message)
    requires Inv(env, x) && MessagesOk(x.msgs + [m])
    ensures QueueGenuine(x.msgs + [m], x.w.outgoing) && LogGenuine(x.msgs + [m], x.log)
    ensures GenuineRing(x.msgs + [m], x.rd.ring) && GotPrefix(x.msgs + [m], x.got)
  {
    var msgs := x.msgs + [m];
    forall q | q in x.w.outgoing && !q.isCcs ensures IsQueued(msgs, q) {
      var n: nat :| n < |x.msgs| && QueuedFragment(q) == Some(FragmentOf(x.msgs[n], n));
      assert msgs[n] == x.msgs[n];
    }
    forall y | y in x.log ensures GenuineRecord(msgs, y) {
      if y.params.typ == RT_HANDSHAKE {
        var f :| GenuineFragment(x.msgs, f) && y.plain == SerializeFragment(f);
        StillGenuineFragment(x.msgs, m, f);
      }
    }
  }

  // ---------------------------------------------------------------- the sender keeps it

  /** Every record that carries part of a genuine queue is genuine. */
  lemma CarriersGenuine(msgs: seq<Message>, outgoing: seq<OutMsg>)
    requires MessagesOk(msgs) && QueueGenuine(msgs, outgoing)
    ensures CarriersAre(outgoing, x => GenuineRecord(msgs, x))
  {
    forall m, off, x, end | m in outgoing && CarriesMessage(m, off, x, end)
      ensures GenuineRecord(msgs, x)
    {
      if !m.isCcs {
        assert IsQueued(msgs, m);
        var f := QueuedFragment(m).value;
        var stop := if end == None then |f.body| else end.value;
        assert GenuineFragment(msgs, Cut(f, off, stop - off));
      }
    }
  }

  /** Queueing, sealing and key changes put nothing else into the queue. */
  lemma OthersKeepQueue(env: Env, x: World, op: Op)
    requires WriterInv(x.w) && OpOk(op) && QueueGenuine(x.msgs, x.w.outgoing) && NewMessages(x.w, op) == []
    ensures var w := DtlsWriterRuns.Step(x.w, env.tape, op).0;
            QueueGenuine(x.msgs, w.outgoing) && w.msgSeq == x.w.msgSeq
  {
    hide SendFlight, SealRecord, IsQueued, KeysInv, PosInv, FinishMessage;
  }

  lemma MessageKeepsQueue(env: Env, x: World, m: Message)
    requires Inv(env, x) && MessagesOk(x.msgs + [m]) && NewMessages(x.w, AddMessage(m)) == [m]
    ensures var w := DtlsWriterRuns.Step(x.w, env.tape, AddMessage(m)).0;
            QueueGenuine(x.msgs + [m], w.outgoing) && w.msgSeq == |x.msgs| + 1
  {
    hide LogSealed, LogGenuine, GenuineRing, GotPrefix, KeysInv, PosInv, IsQueued, Inv;
    var n, msgs := |x.msgs|, x.msgs + [m];
    InvQueue(env, x);
    StillGenuine(env, x, m);
    FinishedMessage(m, n);
    QueuedMessage(m, n, x.w.keys.epoch);
    IsTheNewest(msgs, n, x.w.keys.epoch);
  }

  lemma InvQueue(env: Env, x: World)
    requires Inv(env, x)
    ensures WriterInv(x.w) && x.w.msgSeq == |x.msgs|
  {
  }

  lemma IsTheNewest(msgs: seq<Message>, n: nat, epoch: nat)
    requires MessagesOk(msgs) && |msgs| == n + 1
    ensures IsQueued(msgs, OutMsg(SerializeFragment(FragmentOf(msgs[n], n)), epoch, false))
  {
    QueuedMessage(msgs[n], n, epoch);
  }

  lemma SendKeepsQueue(env: Env, x: World, op: Op)
    requires Inv(env, x) && MoveOk(env, x, Send(op)) && MessagesOk(x.msgs + NewMessages(x.w, op))
    ensures var msgs := x.msgs + NewMessages(x.w, op);
            && QueueGenuine(msgs, DtlsWriterRuns.Step(x.w, env.tape, op).0.outgoing)
            && DtlsWriterRuns.Step(x.w, env.tape, op).0.msgSeq == |msgs|
            && LogGenuine(msgs, x.log) && GenuineRing(msgs, x.rd.ring) && GotPrefix(msgs, x.got)
  {
    hide DtlsWriterRuns.Step, QueueGenuine, LogSealed, LogGenuine, GenuineRing, GotPrefix, AddOutgoing;
    assert x.msgs + [] == x.msgs;
    if NewMessages(x.w, op) == [] {
      OthersKeepQueue(env, x, op);
    } else {
      StillGenuine(env, x, op.m);
      MessageKeepsQueue(env, x, op.m);
    }
  }

  lemma SendKeepsLog(env: Env, x: World, op: Op)
    requires Inv(env, x) && MoveOk(env, x, Send(op))
    ensures var (w, recs) := DtlsWriterRuns.Step(x.w, env.tape, op);
            LogSealed(env.keys, w.keys, x.log + recs) && LogGenuine(x.msgs, recs)
  {
    hide SendFlight, LogSealed, GenuineRecord, QueueGenuine;
    SealKeepsSealed(env.keys, env.tape);
    CarriersGenuine(x.msgs, x.w.outgoing);
    assert x.log + [] == x.log;
    var inv := LogSealedInv(env.keys);
    match op
    case Flush(mtu, bio, calls) =>
      SendFlightKeeps(inv, x.w.keys, x.log, env.tape, x.w.outgoing, x.w.pos, mtu, bio, calls);
      SendFlightAll(x.w.keys, env.tape, x.w.outgoing, x.w.pos, mtu, bio, calls, y => GenuineRecord(x.msgs, y));
    case Retransmit(mtu, bio, calls) =>
      SendFlightKeeps(inv, x.w.keys, x.log, env.tape, x.w.outgoing, Pos(0, 0), mtu, bio, calls);
      SendFlightAll(x.w.keys, env.tape, x.w.outgoing, Pos(0, 0), mtu, bio, calls, y => GenuineRecord(x.msgs, y));
    case AppData(plain, maxOut) =>
      assert KeptBy(inv, env.tape, x.w.keys, x.log, W.Current, RT_APPLICATION_DATA, plain, maxOut);
      AppDataGenuine(x.msgs, x.w.keys, env.tape, plain, maxOut);
    case SetWriteState(aead) => NewKeysSealed(env.keys, x.w.keys, x.log);
    case _ =>
  }

  lemma AppDataGenuine(msgs: seq<Message>, k: Keys, tape: Tape, plain: seq<byte>, maxOut: nat)
    requires KeysInv(k)
    ensures var x := SealRecord(k, tape, W.Current, RT_APPLICATION_DATA, plain, maxOut).1;
            x.Some? ==> GenuineRecord(msgs, x.value)
  {
  }

  lemma NewKeysSealed(keys: KeyTable, k: Keys, log: seq<Sealed>)
    requires KeysInv(k) && LogSealed(keys, k, log)
    ensures LogSealed(keys, NewWriteState(k, keys((k.epoch + 1) % 0x1_0000)), log)
  {
  }

  // ---------------------------------------------------------------- the receiver keeps it

  lemma DeliverKeeps(env: Env, x: World, i: nat, tail: seq<byte>)
    requires Inv(env, x) && KeysLawful(env.keys) && i < |x.log|
    ensures Inv(env, Next(env, x, Deliver(i, tail)))
  {
    hide ParseRecord, SerializeRecord, GenuineRecord, RingInv;
    var y := x.log[i];
    assert SealedUnder(env.keys, y) && GenuineRecord(x.msgs, y);
    OpenDelivered(env.keys, x.rd, y, tail);
    var (verdict, _, recorded) := OpenRecord(x.rd, Wire(y) + tail);
    if verdict.OpenSuccess? && verdict.typ == RT_HANDSHAKE {
      HandshakeRecordKeeps(x.msgs, x.rd.ring, x.rd.epoch, env.maxLen, y);
    }
    assert Next(env, x, Deliver(i, tail)) == x.(rd := OpenHandshake(x.rd, env.maxLen, Wire(y) + tail).0);
  }

  lemma HandshakeRecordKeeps(msgs: seq<Message>, r: Ring, epoch: nat, maxLen: nat, y: Sealed)
    requires RingInv(r) && GenuineRing(msgs, r) && GenuineRecord(msgs, y) && y.params.typ == RT_HANDSHAKE
    ensures GenuineRing(msgs, TakeFragments(r, epoch, maxLen, y.plain).0)
  {
    var f :| GenuineFragment(msgs, f) && y.plain == SerializeFragment(f);
    TakeOneFragment(msgs, r, epoch, maxLen, f);
  }

  /** A complete genuine message is the one sent, to the last byte. */
  lemma HandedIsAsSent(msgs: seq<Message>, p: Partial)
    requires MessagesOk(msgs) && GenuinePartial(msgs, p) && p.Complete()
    ensures Handed(p) == AsSent(msgs, p.seqNo)
  {
    assert p.Body() == msgs[p.seqNo].body;
  }

  lemma TakeKeeps(env: Env, x: World)
    requires Inv(env, x)
    ensures Inv(env, Next(env, x, Take))
  {
    hide LogSealed, LogGenuine, QueueGenuine, WriterInv, GenuinePartial, KeysInv, SerializeFragment, SerializeHeader, OpenRecord;
    var r := x.rd.ring;
    if HasCurrent(r) {
      var p := DtlsReaderSpec.Current(r);
      assert GenuinePartial(x.msgs, p);
      CurrentNumber(x.msgs, r);
      HandedIsAsSent(x.msgs, p);
      NextRingKeepsRing(r);
      NextGenuine(x.msgs, r);
    }
  }

  lemma CurrentNumber(msgs: seq<Message>, r: Ring)
    requires RingInv(r) && HasCurrent(r) && GenuineRing(msgs, r)
    ensures DtlsReaderSpec.Current(r).seqNo == r.readSeq < |msgs|
  {
  }

  lemma NextGenuine(msgs: seq<Message>, r: Ring)
    requires RingInv(r) && HasCurrent(r) && GenuineRing(msgs, r) && RingInv(NextRing(r))
    ensures GenuineRing(msgs, NextRing(r))
  {
    hide GenuinePartial;
  }

  lemma SendKeeps(env: Env, x: World, op: Op)
    requires Inv(env, x) && MoveOk(env, x, Send(op)) && MessagesOk(x.msgs + NewMessages(x.w, op))
    ensures Inv(env, Next(env, x, Send(op)))
  {
    hide DtlsWriterRuns.Step, LogSealed, GenuineRecord, QueueGenuine, GenuineRing, GotPrefix;
    SendKeepsQueue(env, x, op);
    SendKeepsLog(env, x, op);
    if NewMessages(x.w, op) != [] {
      AddSealsNothing(x.w, env.tape, op);
    }
    assert x.msgs + [] == x.msgs;
  }

  lemma AddSealsNothing(w: Writer, tape: Tape, op: Op)
    requires WriterInv(w) && OpOk(op) && op.AddMessage?
    ensures DtlsWriterRuns.Step(w, tape, op).1 == []
  {
  }

  /** Every move keeps the invariant, as long as fewer than 2^16 messages are sent. */
  lemma MoveKeeps(env: Env, x: World, mv: Move)
    requires KeysLawful(env.keys) && Inv(env, x) && MoveOk(env, x, mv)
    requires MessagesOk(Next(env, x, mv).msgs)
    ensures Inv(env, Next(env, x, mv))
  {
    hide DtlsWriterRuns.Step, LogSealed, GenuineRecord, QueueGenuine, GenuineRing, GotPrefix, OpenHandshake;
    match mv
    case Send(op) => SendKeeps(env, x, op);
    case Deliver(i, tail) => DeliverKeeps(env, x, i, tail);
    case Take => TakeKeeps(env, x);
    case TakeCcs =>
    case ChangeReadKeys =>
  }

  // ---------------------------------------------------------------- whole runs

  function Start(env: Env): World {
    World(DtlsWriterRuns.Initial(env.keys(0)), [], [], R.Initial(env.keys(0)), [])
  }

  /** The states of a connection, one before the first move and one after each. */
  ghost predicate IsRun(env: Env, mvs: seq<Move>, xs: seq<World>) {
    && |xs| == |mvs| + 1 && xs[0] == Start(env)
    && forall i {:trigger mvs[i]} | 0 <= i < |mvs| :: Leads(env, xs[i], mvs[i], xs[i + 1])
  }

  ghost predicate Leads(env: Env, y: World, mv: Move, x: World) {
    Shape(y) && MoveOk(env, y, mv) && x == Next(env, y, mv)
  }

  lemma StartInv(env: Env)
    requires KeysLawful(env.keys)
    ensures Inv(env, Start(env))
  {
    assert Lawful(env.keys(0));
  }

  lemma {:induction false} InvAlways(env: Env, mvs: seq<Move>, xs: seq<World>, n: nat)
    requires KeysLawful(env.keys) && IsRun(env, mvs, xs) && n <= |mvs| && MessagesOk(xs[n].msgs)
    ensures Inv(env, xs[n])
  {
    hide Inv, Next, MoveOk, KeysLawful, Shape;
    if n == 0 {
      StartInv(env);
    } else {
      var y, mv := xs[n - 1], mvs[n - 1];
      assert Leads(env, y, mv, xs[n]);
      MessagesOnlyGrow(env, y, mv);
      InvAlways(env, mvs, xs, n - 1);
      MoveKeeps(env, y, mv);
    }
  }

  lemma MessagesOnlyGrow(env: Env, y: World, mv: Move)
    requires Shape(y) && MoveOk(env, y, mv) && MessagesOk(Next(env, y, mv).msgs)
    ensures MessagesOk(y.msgs)
  {
    var msgs := Next(env, y, mv).msgs;
    assert y.msgs <= msgs;
    assert forall m | m in y.msgs :: m in msgs;
  }

  /** Reliability of the handshake transport. At every point of every run, as
      long as fewer than 2^16 messages have been sent, the messages handed to
      the receiver's handshake are a prefix of those the sender queued: same
      order, types and bodies, and the same serialised bytes that each side
      hashes. */
  lemma ReceivedIsPrefixOfSent(env: Env, mvs: seq<Move>, xs: seq<World>, n: nat)
    requires KeysLawful(env.keys) && IsRun(env, mvs, xs) && n <= |mvs| && MessagesOk(xs[n].msgs)
    ensures |xs[n].got| <= |xs[n].msgs|
    ensures forall i | 0 <= i < |xs[n].got| :: xs[n].got[i] == AsSent(xs[n].msgs, i)
  {
    InvAlways(env, mvs, xs, n);
  }
}
