/** The sending side as a whole: queueing a flight, sending and resending it,
    application data and key changes, in any order. */
module DtlsWriterRuns {
  import opened Wrappers
  import opened DtlsWire
  import opened DtlsRecordFormat
  import opened DtlsWriterSpec

  /** `complete` is outgoing_messages_complete: the next message starts a new
      flight. `pos` is (outgoing_written, outgoing_offset). */
  datatype Writer = Writer(keys: Keys, msgSeq: nat, outgoing: seq<OutMsg>, complete: bool, pos: Pos)

  ghost predicate WriterInv(w: Writer) {
    && KeysInv(w.keys) && w.msgSeq < 0x1_0000
    && |w.outgoing| <= MAX_HANDSHAKE_FLIGHT && PosInv(w.outgoing, w.pos)
  }

  // ---------------------------------------------------------------- messages

  datatype Message = Message(typ: byte, body: seq<byte>)

  /** The one fragment that is message number `n`. */
  function FragmentOf(m: Message, n: nat): Fragment {
    Fragment(HmHeader(m.typ, |m.body|, n, 0, |m.body|), m.body)
  }

  /** `dtls1_init_message` and the body: the total length is left zero. */
  function InitMessage(m: Message, n: nat): (s: seq<byte>)
    requires |m.body| < 0x100_0000 && n < 0x1_0000
    ensures |s| == HM_HEADER_LENGTH + |m.body|
  {
    [m.typ] + U24(0) + U16(n) + U24(0) + U24(|m.body|) + m.body
  }

  /** `dtls1_finish_message`: the fragment length is copied over the total length. */
  function FinishMessage(s: seq<byte>): seq<byte>
    requires |s| >= HM_HEADER_LENGTH
  {
    s[..1] + s[9..12] + s[4..]
  }

  lemma FinishedMessage(m: Message, n: nat)
    requires |m.body| < 0x100_0000 && n < 0x1_0000
    ensures FinishMessage(InitMessage(m, n)) == SerializeFragment(FragmentOf(m, n))
  {
    var s := InitMessage(m, n);
    assert s[9..12] == U24(|m.body|);
    assert s[4..] == U16(n) + U24(0) + U24(|m.body|) + m.body;
  }

  lemma QueuedMessage(m: Message, n: nat, epoch: nat)
    requires |m.body| < 0x100_0000 && n < 0x1_0000
    ensures QueuedFragment(OutMsg(SerializeFragment(FragmentOf(m, n)), epoch, false)) == Some(FragmentOf(m, n))
  {
    var f := FragmentOf(m, n);
    ParseSerialized(f, []);
    assert SerializeFragment(f) + [] == SerializeFragment(f);
  }

  // ---------------------------------------------------------------- operations

  /** A finished flight is dropped when the next one begins. */
  function Restarted(w: Writer): Writer {
    if w.complete then w.(outgoing := [], complete := false, pos := Pos(0, 0)) else w
  }

  /** `add_outgoing` */
  function AddOutgoing(w: Writer, data: seq<byte>, isCcs: bool): (Writer, bool) {
    var v := Restarted(w);
    if |v.outgoing| >= MAX_HANDSHAKE_FLIGHT || |data| > 0xffff_ffff then (v, false)
    else
      (v.(msgSeq := if isCcs then v.msgSeq else (v.msgSeq + 1) % 0x1_0000,
          outgoing := v.outgoing + [OutMsg(data, v.keys.epoch, isCcs)]),
       true)
  }

  lemma AddOutgoingKeeps(w: Writer, data: seq<byte>, isCcs: bool)
    requires WriterInv(w)
    ensures WriterInv(AddOutgoing(w, data, isCcs).0)
  {
  }

  /** `bio` is what every BIO_write returns, and `calls` how many there were. */
  datatype Op =
    | AddMessage(m: Message)
    | AddCcs
    | SetWriteState(aead: Aead)
    | Flush(mtu: nat, bio: nat -> int, calls: nat)        // dtls1_flush_flight
    | Retransmit(mtu: nat, bio: nat -> int, calls: nat)   // dtls1_retransmit_outgoing_messages
    | AppData(plain: seq<byte>, maxOut: nat)  // dtls1_write_record, current epoch

  predicate OpOk(op: Op) {
    match op
    case AddMessage(m) => |m.body| < 0x100_0000
    case SetWriteState(aead) => aead.version < 0x1_0000
    case _ => true
  }

  function SetPos(w: Writer, keys: Keys, pos: Pos): Writer {
    w.(keys := keys, pos := pos)
  }

  /** One operation: the state it leaves and the records it seals. */
  ghost function Step(w: Writer, tape: Tape, op: Op): (res: (Writer, seq<Sealed>))
    requires WriterInv(w) && OpOk(op)
    ensures WriterInv(res.0)
  {
    match op
    case AddMessage(m) =>
      AddOutgoingKeeps(w, FinishMessage(InitMessage(m, w.msgSeq)), false);
      (AddOutgoing(w, FinishMessage(InitMessage(m, w.msgSeq)), false).0, [])
    case AddCcs =>
      AddOutgoingKeeps(w, [], true);
      (AddOutgoing(w, [], true).0, [])
    case SetWriteState(aead) => (w.(keys := NewWriteState(w.keys, aead)), [])
    case Flush(mtu, bio, calls) =>
      SendFlightCarries(w.keys, tape, w.outgoing, w.pos, mtu, bio, calls);
      var r := SendFlight(w.keys, tape, w.outgoing, w.pos, mtu, bio, calls);
      (SetPos(w, r.keys, r.pos).(complete := true), r.sealed)
    case Retransmit(mtu, bio, calls) =>
      SendFlightCarries(w.keys, tape, w.outgoing, Pos(0, 0), mtu, bio, calls);
      var r := SendFlight(w.keys, tape, w.outgoing, Pos(0, 0), mtu, bio, calls);
      (SetPos(w, r.keys, r.pos), r.sealed)
    case AppData(plain, maxOut) =>
      SealRecordFacts(w.keys, tape, Current, RT_APPLICATION_DATA, plain, maxOut);
      var (k, x) := SealRecord(w.keys, tape, Current, RT_APPLICATION_DATA, plain, maxOut);
      (w.(keys := k), if x.Some? then [x.value] else [])
  }

  ghost function Run(w: Writer, tape: Tape, ops: seq<Op>): (res: (Writer, seq<Sealed>))
    requires WriterInv(w) && forall op | op in ops :: OpOk(op)
    ensures WriterInv(res.0)
    decreases |ops|
  {
    if ops == [] then (w, [])
    else
      var (v, log) := Run(w, tape, ops[..|ops| - 1]);
      var (v', xs) := Step(v, tape, ops[|ops| - 1]);
      (v', log + xs)
  }

  function Initial(aead: Aead): Writer {
    Writer(Keys(0, 0, 0, aead, aead, false), 0, [], false, Pos(0, 0))
  }

  lemma StepUnique(w: Writer, log: seq<Sealed>, tape: Tape, op: Op)
    requires WriterInv(w) && OpOk(op) && UniqueLog(w.keys, log)
    ensures var (w', xs) := Step(w, tape, op); UniqueLog(w'.keys, log + xs)
  {
    hide UniqueLog, SendFlight;
    SealKeepsUnique(tape);
    assert log + [] == log;
    match op
    case SetWriteState(aead) => NewWriteStateUnique(w.keys, log, aead);
    case Flush(mtu, bio, calls) => SendFlightKeeps(UniqueInv(), w.keys, log, tape, w.outgoing, w.pos, mtu, bio, calls);
    case Retransmit(mtu, bio, calls) => SendFlightKeeps(UniqueInv(), w.keys, log, tape, w.outgoing, Pos(0, 0), mtu, bio, calls);
    case AppData(plain, maxOut) => SealRecordUnique(w.keys, log, tape, Current, RT_APPLICATION_DATA, plain, maxOut);
    case _ =>
  }

  /** Over any interleaving of flights, retransmissions, application data and
      key changes, no two sealed records share epoch and sequence number,
      until one of the counters wraps. */
  lemma {:induction false} NumbersAreUnique(aead: Aead, tape: Tape, ops: seq<Op>)
    requires aead.version < 0x1_0000 && forall op | op in ops :: OpOk(op)
    ensures var (w, log) := Run(Initial(aead), tape, ops); UniqueLog(w.keys, log)
    decreases |ops|
  {
    if ops == [] {
    } else {
      var before := ops[..|ops| - 1];
      NumbersAreUnique(aead, tape, before);
      var (v, log) := Run(Initial(aead), tape, before);
      StepUnique(v, log, tape, ops[|ops| - 1]);
    }
  }
}
