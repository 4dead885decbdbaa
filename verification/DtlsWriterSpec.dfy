/** The sending side of a DTLS handshake as functions on values: sealing
    records (dtls_record.cc, `dtls_seal_record`) and cutting a flight of
    messages into packets (d1_both.cc). The class in DtlsWriter.dfy is proved to
    compute these functions. */
module DtlsWriterSpec {
  import opened Wrappers
  import opened DtlsWire
  import opened DtlsRecordFormat
  import opened Paths

  // ---------------------------------------------------------------- keys and counters

  datatype UseEpoch = Current | Previous

  /** Write epoch, the sequence numbers and ciphers of this epoch and the one
      before, and whether a 48-bit number or the epoch has ever run out. */
  datatype Keys = Keys(epoch: nat, seqNo: nat, lastSeqNo: nat, aead: Aead, lastAead: Aead, wrapped: bool)
  {
    function At(use: UseEpoch): Aead {
      if use.Previous? then lastAead else aead
    }

    function EpochAt(use: UseEpoch): nat {
      if use.Previous? && epoch >= 1 then epoch - 1 else epoch
    }

    function SeqAt(use: UseEpoch): nat {
      if use.Previous? then lastSeqNo else seqNo
    }

    /** `ssl_record_sequence_update` on the counter in use. */
    function Counted(use: UseEpoch): Keys {
      var next := (SeqAt(use) + 1) % SEQ_LIMIT;
      if use.Previous? then this.(lastSeqNo := next, wrapped := wrapped || next == 0)
      else this.(seqNo := next, wrapped := wrapped || next == 0)
    }
  }

  ghost predicate KeysInv(k: Keys) {
    k.epoch < 0x1_0000 && k.seqNo < SEQ_LIMIT && k.lastSeqNo < SEQ_LIMIT && k.aead.version < 0x1_0000
  }

  /** `dtls1_set_write_state` */
  function NewWriteState(k: Keys, aead: Aead): Keys {
    Keys((k.epoch + 1) % 0x1_0000, 0, k.seqNo, aead, k.aead, k.wrapped || k.epoch == 0xffff)
  }

  // ---------------------------------------------------------------- sealing

  /** A sealed record together with what went into it. */
  datatype Sealed = Sealed(params: Params, nonce: nat, plain: seq<byte>, body: seq<byte>)

  predicate WellFormedSealed(x: Sealed) {
    WellFormedRecord(Record(x.params, x.body))
  }

  function Wire(x: Sealed): (s: seq<byte>)
    requires WellFormedSealed(x)
    ensures |s| == RT_HEADER_LENGTH + |x.body|
  {
    SerializeRecord(Record(x.params, x.body))
  }

  type Tape = (nat, nat) -> nat

  /** `dtls_seal_record`. `tape` supplies the random nonces. */
  function SealRecord(k: Keys, tape: Tape, use: UseEpoch, typ: byte, plain: seq<byte>, maxOut: nat): (res: (Keys, Option<Sealed>))
    requires KeysInv(k)
    ensures res.1.Some? ==> WellFormedSealed(res.1.value)
  {
    if maxOut < RT_HEADER_LENGTH then (k, None)
    else
      var params := Params(typ, k.aead.version, Sequence(k.EpochAt(use), k.SeqAt(use)));
      var nonce := tape(k.EpochAt(use), k.SeqAt(use));
      match k.At(use).seal(nonce, params, plain)
      case None => (k, None)
      case Some(ct) =>
        if |ct| > maxOut - RT_HEADER_LENGTH then (k, None)
        else if k.SeqAt(use) + 1 == SEQ_LIMIT || |ct| >= 0x1_0000 then (k.Counted(use), None)
        else (k.Counted(use), Some(Sealed(params, nonce, plain, ct)))
  }

  /** A queued handshake message or ChangeCipherSpec and the epoch it was
      queued in. */
  datatype OutMsg = OutMsg(data: seq<byte>, epoch: nat, isCcs: bool)

  /** Which keys a queued message goes out under; none if they are gone. */
  function EpochFor(k: Keys, m: OutMsg): Option<UseEpoch> {
    if k.epoch >= 1 && m.epoch == k.epoch - 1 then Some(Previous)
    else if m.epoch != k.epoch then None
    else Some(Current)
  }

  /** A queued message is one fragment that spans its whole body. */
  function QueuedFragment(m: OutMsg): (r: Option<Fragment>)
    ensures r.Some? ==>
              && WellFormedFragment(r.value) && r.value.hdr.msgLen == |r.value.body| && r.value.hdr.fragOff == 0
              && |r.value.body| <= |m.data|
  {
    match ParseFragment(m.data)
    case None => None
    case Some((f, rest)) =>
      SerializeParsed(m.data);
      if rest == [] && f.hdr.fragOff == 0 && f.hdr.msgLen == |f.body| then Some(f) else None
  }

  function Min(a: nat, b: nat): nat {
    if a < b then a else b
  }

  /** The piece of `f` that starts at `off` and has `len` body bytes. */
  function Cut(f: Fragment, off: nat, len: nat): (g: Fragment)
    requires WellFormedFragment(f) && off + len <= |f.body| && f.hdr.msgLen == |f.body|
    ensures WellFormedFragment(g)
  {
    Fragment(f.hdr.(fragOff := off, fragLen := len), f.body[off..off + len])
  }

  datatype SealResult = SealError | SealNoProgress | SealPartial | SealSuccess

  /** What sealing the next message leaves behind. */
  datatype Outcome = Outcome(keys: Keys, res: SealResult, offset: nat, rec: Option<Sealed>)

  predicate Emits(o: Outcome) {
    && (o.rec.Some? <==> o.res.SealPartial? || o.res.SealSuccess?)
    && (o.rec.Some? ==> WellFormedSealed(o.rec.value))
  }

  function SealCcs(k: Keys, tape: Tape, use: UseEpoch, offset: nat, maxOut: nat): (o: Outcome)
    requires KeysInv(k)
    ensures Emits(o)
  {
    if maxOut < 1 + RT_HEADER_LENGTH + k.At(use).maxOverhead then Outcome(k, SealNoProgress, offset, None)
    else
      var (k', x) := SealRecord(k, tape, use, RT_CHANGE_CIPHER_SPEC, [MT_CCS], maxOut);
      Outcome(k', if x.None? then SealError else SealSuccess, offset, x)
  }

  /** As much of `f` from `offset` on as fits. */
  function SealFragment(k: Keys, tape: Tape, use: UseEpoch, f: Fragment, offset: nat, maxOut: nat): (o: Outcome)
    requires KeysInv(k) && WellFormedFragment(f) && f.hdr.msgLen == |f.body| && offset <= |f.body|
    ensures Emits(o)
  {
    var overhead := RT_HEADER_LENGTH + k.At(use).maxOverhead;
    var prefix := RT_HEADER_LENGTH + k.At(use).explicitNonceLen;
    if maxOut < HM_HEADER_LENGTH + 1 + overhead || maxOut < prefix then Outcome(k, SealNoProgress, offset, None)
    else
      var todo := Min(|f.body| - offset, maxOut - HM_HEADER_LENGTH - overhead);
      if HM_HEADER_LENGTH + todo > maxOut - prefix then Outcome(k, SealError, offset, None)
      else
        var (k', x) := SealRecord(k, tape, use, RT_HANDSHAKE, SerializeFragment(Cut(f, offset, todo)), maxOut);
        if x.None? then Outcome(k', SealError, offset, None)
        else if offset + todo == |f.body| then Outcome(k', SealSuccess, 0, x)
        else Outcome(k', SealPartial, offset + todo, x)
  }

  /** `seal_next_message` for message `m`, of which `offset` body bytes are out. */
  function SealMessage(k: Keys, tape: Tape, m: OutMsg, offset: nat, maxOut: nat): (o: Outcome)
    requires KeysInv(k)
    ensures Emits(o)
  {
    match EpochFor(k, m)
    case None => Outcome(k, SealError, offset, None)
    case Some(use) =>
      if m.isCcs then SealCcs(k, tape, use, offset, maxOut)
      else
        match QueuedFragment(m)
        case None => Outcome(k, SealError, offset, None)
        case Some(f) =>
          if offset > |f.body| then Outcome(k, SealError, offset, None)
          else SealFragment(k, tape, use, f, offset, maxOut)
  }

  lemma EpochOfSequence(e: nat, n: nat)
    requires e < 0x1_0000 && n < SEQ_LIMIT
    ensures EpochOf(Sequence(e, n)) == e
  {
    assert Sequence(e, n)[..2] == U16(e);
    ReadU16OfU16(e);
  }

  lemma SealRecordFacts(k: Keys, tape: Tape, use: UseEpoch, typ: byte, plain: seq<byte>, maxOut: nat)
    requires KeysInv(k)
    ensures var (k', x) := SealRecord(k, tape, use, typ, plain, maxOut);
            && KeysInv(k') && k'.epoch == k.epoch
            && (x.Some? ==>
                  && x.value.params.typ == typ && x.value.plain == plain
                  && EpochOf(x.value.params.sequence) == k.EpochAt(use)
                  && |Wire(x.value)| <= maxOut)
  {
    EpochOfSequence(k.EpochAt(use), k.SeqAt(use));
  }

  // ---------------------------------------------------------------- positions

  /** How far a flight has been written: whole messages, then body bytes. */
  datatype Pos = Pos(msg: nat, off: nat)

  predicate Before(p: Pos, q: Pos) {
    p.msg < q.msg || (p.msg == q.msg && p.off < q.off)
  }

  /** The record holds the bytes of `f` from `off` up to `end`. */
  ghost predicate HoldsPiece(x: Sealed, f: Fragment, off: nat, end: nat) {
    && x.params.typ == RT_HANDSHAKE
    && WellFormedFragment(f) && f.hdr.msgLen == |f.body| && off <= end <= |f.body|
    && x.plain == SerializeFragment(Cut(f, off, end - off))
  }

  /** The record takes message `m` from `off` to `end`, where None is its end: a
      ChangeCipherSpec, or a piece of the body, under the epoch in which the
      message was queued. */
  ghost predicate CarriesMessage(m: OutMsg, off: nat, x: Sealed, end: Option<nat>) {
    && WellFormedSealed(x) && EpochOf(x.params.sequence) == m.epoch
    && if m.isCcs then x.params.typ == RT_CHANGE_CIPHER_SPEC && x.plain == [MT_CCS] && end == None
       else
         && QueuedFragment(m).Some?
         && var f := QueuedFragment(m).value;
            if end == None then HoldsPiece(x, f, off, |f.body|)
            else off < end.value < |f.body| && HoldsPiece(x, f, off, end.value)
  }

  ghost predicate Carries(msgs: seq<OutMsg>, p: Pos, x: Sealed, q: Pos) {
    && p.msg < |msgs|
    && if q.msg == p.msg then CarriesMessage(msgs[p.msg], p.off, x, Some(q.off))
       else q == Pos(p.msg + 1, 0) && CarriesMessage(msgs[p.msg], p.off, x, None)
  }

  lemma SealFragmentFacts(k: Keys, tape: Tape, use: UseEpoch, f: Fragment, offset: nat, maxOut: nat)
    requires KeysInv(k) && WellFormedFragment(f) && f.hdr.msgLen == |f.body| && offset <= |f.body|
    ensures var o := SealFragment(k, tape, use, f, offset, maxOut);
            && KeysInv(o.keys) && o.keys.epoch == k.epoch
            && match o.res
               case SealError => o.offset == offset
               case SealNoProgress => o.keys == k && o.offset == offset
               case SealPartial => offset < o.offset < |f.body| && HoldsPiece(o.rec.value, f, offset, o.offset)
               case SealSuccess => o.offset == 0 && HoldsPiece(o.rec.value, f, offset, |f.body|)
    ensures var o := SealFragment(k, tape, use, f, offset, maxOut);
            o.res.SealPartial? || o.res.SealSuccess? ==>
              |Wire(o.rec.value)| <= maxOut && EpochOf(o.rec.value.params.sequence) == k.EpochAt(use)
  {
    hide SealRecord, Wire, SerializeFragment, EpochOf, KeysInv, WellFormedSealed;
    var overhead := RT_HEADER_LENGTH + k.At(use).maxOverhead;
    if maxOut >= HM_HEADER_LENGTH + 1 + overhead {
      var g := Cut(f, offset, Min(|f.body| - offset, maxOut - HM_HEADER_LENGTH - overhead));
      SealRecordFacts(k, tape, use, RT_HANDSHAKE, SerializeFragment(g), maxOut);
    }
  }

  /** Progress of one sealed message: the record carries exactly the stretch
      from the old position to the new one, and it fits the space given. */
  lemma SealMessageCarries(k: Keys, tape: Tape, m: OutMsg, offset: nat, maxOut: nat)
    requires KeysInv(k) && (m.isCcs ==> offset == 0)
    ensures var o := SealMessage(k, tape, m, offset, maxOut);
            && KeysInv(o.keys) && o.keys.epoch == k.epoch
            && match o.res
               case SealError => o.offset == offset
               case SealNoProgress => o.keys == k && o.offset == offset
               case SealPartial =>
                 !m.isCcs && offset < o.offset <= |m.data| && CarriesMessage(m, offset, o.rec.value, Some(o.offset)) && |Wire(o.rec.value)| <= maxOut
               case SealSuccess =>
                 o.offset == 0 && CarriesMessage(m, offset, o.rec.value, None) && |Wire(o.rec.value)| <= maxOut
  {
    var use := EpochFor(k, m);
    if use.Some? {
      if m.isCcs {
        SealRecordFacts(k, tape, use.value, RT_CHANGE_CIPHER_SPEC, [MT_CCS], maxOut);
      } else if QueuedFragment(m).Some? && offset <= |QueuedFragment(m).value.body| {
        SealFragmentFacts(k, tape, use.value, QueuedFragment(m).value, offset, maxOut);
      }
    }
  }

  /** With lawful ciphers the space set aside suffices: sealing a fragment fails
      only if the cipher itself does, if the sequence number runs out, or if
      the ciphertext is too long for a record. */
  lemma OverheadSuffices(k: Keys, tape: Tape, use: UseEpoch, f: Fragment, offset: nat, maxOut: nat)
    requires KeysInv(k) && WellFormedFragment(f) && f.hdr.msgLen == |f.body| && offset <= |f.body|
    requires Lawful(k.At(use)) && SealFragment(k, tape, use, f, offset, maxOut).res.SealError?
    ensures var params := Params(RT_HANDSHAKE, k.aead.version, Sequence(k.EpochAt(use), k.SeqAt(use)));
            var room := maxOut - HM_HEADER_LENGTH - RT_HEADER_LENGTH - k.At(use).maxOverhead;
            room >= 1
            && var ct := k.At(use).seal(tape(k.EpochAt(use), k.SeqAt(use)), params,
                                        SerializeFragment(Cut(f, offset, Min(|f.body| - offset, room))));
               ct == None || |ct.value| >= 0x1_0000 || k.SeqAt(use) + 1 == SEQ_LIMIT
  {
    var params := Params(RT_HANDSHAKE, k.aead.version, Sequence(k.EpochAt(use), k.SeqAt(use)));
    var room := maxOut - HM_HEADER_LENGTH - RT_HEADER_LENGTH - k.At(use).maxOverhead;
    var plain := SerializeFragment(Cut(f, offset, Min(|f.body| - offset, room)));
    var ct := k.At(use).seal(tape(k.EpochAt(use), k.SeqAt(use)), params, plain);
    if ct.Some? {
      assert SealedOk(k.At(use), params, plain, ct.value);
    }
  }

  // ---------------------------------------------------------------- packets

  ghost predicate AllWellFormed(xs: seq<Sealed>) {
    forall x | x in xs :: WellFormedSealed(x)
  }

  ghost function PacketBytes(xs: seq<Sealed>): seq<byte>
    requires AllWellFormed(xs)
  {
    if xs == [] then [] else Wire(xs[0]) + PacketBytes(xs[1..])
  }

  /** Position and keys after some records, and whether an error came up. */
  datatype Progress = Progress(keys: Keys, pos: Pos, ok: bool, recs: seq<Sealed>)

  ghost predicate PosInv(msgs: seq<OutMsg>, p: Pos) {
    && p.msg <= |msgs| && (p.msg == |msgs| || msgs[p.msg].isCcs ==> p.off == 0)
    && (p.msg < |msgs| ==> p.off <= |msgs[p.msg].data|)
  }

  /** The loop of `seal_next_packet` from position `p` on. */
  ghost function SealMessages(k: Keys, tape: Tape, msgs: seq<OutMsg>, p: Pos, maxOut: nat): (g: Progress)
    requires KeysInv(k) && PosInv(msgs, p)
    ensures AllWellFormed(g.recs)
    decreases |msgs| - p.msg
  {
    if p.msg == |msgs| then Progress(k, p, true, [])
    else
      var o := SealMessage(k, tape, msgs[p.msg], p.off, maxOut);
      SealMessageCarries(k, tape, msgs[p.msg], p.off, maxOut);
      match o.res
      case SealError => Progress(o.keys, Pos(p.msg, o.offset), false, [])
      case SealNoProgress => Progress(o.keys, Pos(p.msg, o.offset), true, [])
      case SealPartial => Progress(o.keys, Pos(p.msg, o.offset), true, [o.rec.value])
      case SealSuccess =>
        var g := SealMessages(o.keys, tape, msgs, Pos(p.msg + 1, o.offset), maxOut - |Wire(o.rec.value)|);
        g.(recs := [o.rec.value] + g.recs)
  }

  /** `seal_next_packet`: an MTU too small for any progress is an error too. */
  ghost function SealPacket(k: Keys, tape: Tape, msgs: seq<OutMsg>, p: Pos, maxOut: nat): (g: Progress)
    requires KeysInv(k) && PosInv(msgs, p)
    ensures AllWellFormed(g.recs)
  {
    var g := SealMessages(k, tape, msgs, p, maxOut);
    g.(ok := g.ok && g.recs != [])
  }

  ghost function CarriesStep(msgs: seq<OutMsg>): (Pos, Sealed, Pos) -> bool {
    (p, x, q) => Carries(msgs, p, x, q)
  }

  /** The records carry the flight from `p` to `q` without gap or overlap. */
  ghost predicate CarryAll(msgs: seq<OutMsg>, p: Pos, xs: seq<Sealed>, q: Pos) {
    Path(CarriesStep(msgs), p, xs, q)
  }

  /** What one packet does: its records carry the flight from the old position
      to the new, its bytes fit the MTU, and a packet that holds anything moves
      the position strictly forward. */
  lemma {:induction false} SealMessagesCarry(k: Keys, tape: Tape, msgs: seq<OutMsg>, p: Pos, maxOut: nat)
    requires KeysInv(k) && PosInv(msgs, p)
    ensures var g := SealMessages(k, tape, msgs, p, maxOut);
            && KeysInv(g.keys) && g.keys.epoch == k.epoch && PosInv(msgs, g.pos)
            && |PacketBytes(g.recs)| <= maxOut
            && (g.ok ==> CarryAll(msgs, p, g.recs, g.pos))
            && (g.ok ==> if g.recs == [] then g.pos == p else Before(p, g.pos))
    decreases |msgs| - p.msg
  {
    hide SealMessage, SealRecord, SerializeRecord, CarriesMessage;
    if p.msg == |msgs| {
    } else {
      var m := msgs[p.msg];
      var o := SealMessage(k, tape, m, p.off, maxOut);
      SealMessageCarries(k, tape, m, p.off, maxOut);
      if o.res == SealPartial {
        var q := Pos(p.msg, o.offset);
        assert Carries(msgs, p, o.rec.value, q);
        PathOne(CarriesStep(msgs), p, o.rec.value, q);
        assert PacketBytes([o.rec.value]) == Wire(o.rec.value) + PacketBytes([]);
      } else if o.res == SealSuccess {
        var q, room := Pos(p.msg + 1, o.offset), maxOut - |Wire(o.rec.value)|;
        SealMessagesCarry(o.keys, tape, msgs, q, room);
        var g := SealMessages(o.keys, tape, msgs, q, room);
        assert ([o.rec.value] + g.recs)[1..] == g.recs;
        assert Carries(msgs, p, o.rec.value, q);
        if g.ok {
          PathOne(CarriesStep(msgs), p, o.rec.value, q);
          PathAppend(CarriesStep(msgs), p, [o.rec.value], q, g.recs, g.pos);
        }
      }
    }
  }

  // ---------------------------------------------------------------- flights

  /** `sealed`: every record sealed; `packets`: those packets that were
      written; `stuck`: sending stopped because no packet could be made. */
  datatype Sent = Sent(keys: Keys, pos: Pos, ret: int, stuck: bool, sealed: seq<Sealed>, packets: seq<seq<Sealed>>)

  /** The result of the i-th BIO_write. */
  function WriteResult(bio: nat -> int, i: nat): int {
    bio(i)
  }

  /** The loop of `send_flight`; after a failed one the position is put back to the start of the packet. */
  ghost function SendFlight(k: Keys, tape: Tape, msgs: seq<OutMsg>, p: Pos, mtu: nat, bio: nat -> int, i: nat): Sent
    requires KeysInv(k) && PosInv(msgs, p)
    decreases |msgs| - p.msg, if p.msg < |msgs| then |msgs[p.msg].data| - p.off else 0
  {
    if p.msg == |msgs| then Sent(k, p, 1, false, [], [])
    else
      var g := SealPacket(k, tape, msgs, p, mtu);
      SealMessagesCarry(k, tape, msgs, p, mtu);
      if !g.ok then Sent(g.keys, g.pos, -1, true, g.recs, [])
      else if WriteResult(bio, i) <= 0 then Sent(g.keys, p, WriteResult(bio, i), false, g.recs, [])
      else
        var rest := SendFlight(g.keys, tape, msgs, g.pos, mtu, bio, i + 1);
        rest.(sealed := g.recs + rest.sealed, packets := [g.recs] + rest.packets)
  }

  ghost function Flatten(packets: seq<seq<Sealed>>): seq<Sealed> {
    if packets == [] then [] else packets[0] + Flatten(packets[1..])
  }

  ghost predicate FitsMtu(packets: seq<seq<Sealed>>, mtu: nat) {
    forall xs | xs in packets :: AllWellFormed(xs) && xs != [] && |PacketBytes(xs)| <= mtu
  }

  /** Sending a flight: the packets written carry it from where it stood, in
      order and without gap or overlap, and each fits the MTU. On success the
      flight is out. If a write fails, the position left behind is where the
      written packets end, so a retry starts with exactly the packet lost. */
  lemma {:induction false} SendFlightCarries(k: Keys, tape: Tape, msgs: seq<OutMsg>, p: Pos, mtu: nat, bio: nat -> int, i: nat)
    requires KeysInv(k) && PosInv(msgs, p)
    ensures var r := SendFlight(k, tape, msgs, p, mtu, bio, i);
            && KeysInv(r.keys) && r.keys.epoch == k.epoch && PosInv(msgs, r.pos)
            && FitsMtu(r.packets, mtu)
            && (!r.stuck ==> CarryAll(msgs, p, Flatten(r.packets), r.pos))
            && (r.ret > 0 ==> !r.stuck && r.pos == Pos(|msgs|, 0))
    decreases |msgs| - p.msg, if p.msg < |msgs| then |msgs[p.msg].data| - p.off else 0
  {
    hide SealMessages, PacketBytes;
    if p.msg == |msgs| {
    } else {
      var g := SealPacket(k, tape, msgs, p, mtu);
      SealMessagesCarry(k, tape, msgs, p, mtu);
      if g.ok && WriteResult(bio, i) > 0 {
        SendFlightCarries(g.keys, tape, msgs, g.pos, mtu, bio, i + 1);
        var rest := SendFlight(g.keys, tape, msgs, g.pos, mtu, bio, i + 1);
        assert ([g.recs] + rest.packets)[1..] == rest.packets;
        if !rest.stuck {
          PathAppend(CarriesStep(msgs), p, g.recs, g.pos, Flatten(rest.packets), rest.pos);
        }
      }
    }
  }

  /** Every record that carries part of one of `msgs` satisfies `good`. */
  ghost predicate CarriersAre(msgs: seq<OutMsg>, good: Sealed -> bool) {
    forall m, off, x, end | m in msgs && CarriesMessage(m, off, x, end) :: good(x)
  }

  lemma {:induction false} SealMessagesAll(k: Keys, tape: Tape, msgs: seq<OutMsg>, p: Pos, maxOut: nat, good: Sealed -> bool)
    requires KeysInv(k) && PosInv(msgs, p) && CarriersAre(msgs, good)
    ensures forall x | x in SealMessages(k, tape, msgs, p, maxOut).recs :: good(x)
    decreases |msgs| - p.msg
  {
    hide SealMessage, SealRecord, SerializeRecord, CarriesMessage;
    if p.msg == |msgs| {
    } else {
      var m := msgs[p.msg];
      var o := SealMessage(k, tape, m, p.off, maxOut);
      SealMessageCarries(k, tape, m, p.off, maxOut);
      if o.res.SealSuccess? {
        assert CarriesMessage(m, p.off, o.rec.value, None);
        SealMessagesAll(o.keys, tape, msgs, Pos(p.msg + 1, o.offset), maxOut - |Wire(o.rec.value)|, good);
      } else if o.res.SealPartial? {
        assert CarriesMessage(m, p.off, o.rec.value, Some(o.offset));
      }
    }
  }

  /** Also the records of packets that were never written. */
  lemma {:induction false} SendFlightAll(k: Keys, tape: Tape, msgs: seq<OutMsg>, p: Pos, mtu: nat, bio: nat -> int, i: nat, good: Sealed -> bool)
    requires KeysInv(k) && PosInv(msgs, p) && CarriersAre(msgs, good)
    ensures forall x | x in SendFlight(k, tape, msgs, p, mtu, bio, i).sealed :: good(x)
    decreases |msgs| - p.msg, if p.msg < |msgs| then |msgs[p.msg].data| - p.off else 0
  {
    hide SealMessages;
    if p.msg == |msgs| {
    } else {
      var g := SealPacket(k, tape, msgs, p, mtu);
      SealMessagesCarry(k, tape, msgs, p, mtu);
      SealMessagesAll(k, tape, msgs, p, mtu, good);
      if g.ok && WriteResult(bio, i) > 0 {
        SendFlightAll(g.keys, tape, msgs, g.pos, mtu, bio, i + 1, good);
      }
    }
  }

  // ---------------------------------------------------------------- sequence numbers

  function NumberOf(sequence: seq<byte>): nat
    requires |sequence| == 8
  {
    ReadU24(sequence[2..5]) * 0x100_0000 + ReadU24(sequence[5..8])
  }

  lemma NumberOfSequence(e: nat, n: nat)
    requires e < 0x1_0000 && n < SEQ_LIMIT
    ensures NumberOf(Sequence(e, n)) == n
  {
    var s := Sequence(e, n);
    assert s[2..5] == U24(n / 0x100_0000) && s[5..8] == U24(n % 0x100_0000);
    ReadU24OfU24(n / 0x100_0000);
    ReadU24OfU24(n % 0x100_0000);
  }

  /** The record's sequence number is below the counters of `k`. */
  predicate Used(k: Keys, x: Sealed) {
    && |x.params.sequence| == 8
    && var e, n := EpochOf(x.params.sequence), NumberOf(x.params.sequence);
       && e <= k.epoch
       && (e == k.epoch ==> n < k.seqNo)
       && (e + 1 == k.epoch ==> n < k.lastSeqNo)
  }

  /** No two records sealed so far share epoch and sequence number, as long as
      no counter has wrapped. */
  ghost predicate UniqueLog(k: Keys, log: seq<Sealed>) {
    !k.wrapped ==>
      (forall x | x in log :: Used(k, x)) && DistinctNumbers(log)
  }

  ghost predicate DistinctNumbers(log: seq<Sealed>) {
    forall i, j :: 0 <= i < j < |log| ==> log[i].params.sequence != log[j].params.sequence
  }

  lemma AppendDistinct(log: seq<Sealed>, x: Sealed)
    requires DistinctNumbers(log) && forall y | y in log :: y.params.sequence != x.params.sequence
    ensures DistinctNumbers(log + [x])
  {
  }

  lemma SealRecordUnique(k: Keys, log: seq<Sealed>, tape: Tape, use: UseEpoch, typ: byte, plain: seq<byte>, maxOut: nat)
    requires KeysInv(k) && UniqueLog(k, log) && (use.Previous? ==> k.epoch >= 1)
    ensures var (k', x) := SealRecord(k, tape, use, typ, plain, maxOut); UniqueLog(k', Logged(log, x))
  {
    hide Sequence, EpochOf, NumberOf, WellFormedRecord;
    var (k', x) := SealRecord(k, tape, use, typ, plain, maxOut);
    var e, n := k.EpochAt(use), k.SeqAt(use);
    EpochOfSequence(e, n);
    NumberOfSequence(e, n);
    if !k'.wrapped {
      forall y | y in log ensures Used(k', y) && (x.Some? ==> y.params.sequence != Sequence(e, n)) {
        assert Used(k, y);
      }
      if x.Some? {
        AppendDistinct(log, x.value);
      }
    }
  }

  type LogInv = (Keys, seq<Sealed>) -> bool

  function Logged(log: seq<Sealed>, x: Option<Sealed>): seq<Sealed> {
    if x.Some? then log + [x.value] else log
  }

  ghost predicate KeptBy(inv: LogInv, tape: Tape, k: Keys, log: seq<Sealed>, use: UseEpoch, typ: byte, plain: seq<byte>, maxOut: nat) {
    KeysInv(k) && inv(k, log) && (use.Previous? ==> k.epoch >= 1) ==>
      var r := SealRecord(k, tape, use, typ, plain, maxOut); inv(r.0, Logged(log, r.1))
  }

  /** Sealing one record keeps `inv`, whatever the record. */
  ghost predicate SealKeeps(inv: LogInv, tape: Tape) {
    forall k: Keys, log: seq<Sealed>, use: UseEpoch, typ: byte, plain: seq<byte>, maxOut: nat ::
      KeptBy(inv, tape, k, log, use, typ, plain, maxOut)
  }

  lemma SealMessageKeeps(inv: LogInv, k: Keys, log: seq<Sealed>, tape: Tape, m: OutMsg, offset: nat, maxOut: nat)
    requires SealKeeps(inv, tape) && KeysInv(k) && inv(k, log)
    ensures var o := SealMessage(k, tape, m, offset, maxOut); inv(o.keys, Logged(log, o.rec))
  {
    hide SealRecord, SerializeFragment, SerializeRecord, WellFormedSealed;
    var use := EpochFor(k, m);
    if use.Some? {
      if m.isCcs {
        assert KeptBy(inv, tape, k, log, use.value, RT_CHANGE_CIPHER_SPEC, [MT_CCS], maxOut);
      } else if QueuedFragment(m).Some? && offset <= |QueuedFragment(m).value.body| {
        var f := QueuedFragment(m).value;
        var overhead := RT_HEADER_LENGTH + k.At(use.value).maxOverhead;
        if maxOut >= HM_HEADER_LENGTH + 1 + overhead {
          var g := Cut(f, offset, Min(|f.body| - offset, maxOut - HM_HEADER_LENGTH - overhead));
          assert KeptBy(inv, tape, k, log, use.value, RT_HANDSHAKE, SerializeFragment(g), maxOut);
        }
      }
    }
  }

  lemma {:induction false} SealMessagesKeep(inv: LogInv, k: Keys, log: seq<Sealed>, tape: Tape, msgs: seq<OutMsg>, p: Pos, maxOut: nat)
    requires SealKeeps(inv, tape) && KeysInv(k) && PosInv(msgs, p) && inv(k, log)
    ensures var g := SealMessages(k, tape, msgs, p, maxOut); inv(g.keys, log + g.recs)
    decreases |msgs| - p.msg
  {
    hide SealMessage, SealRecord, SerializeRecord, CarriesMessage;
    var g := SealMessages(k, tape, msgs, p, maxOut);
    if p.msg == |msgs| {
      assert log + g.recs == log;
    } else {
      var o := SealMessage(k, tape, msgs[p.msg], p.off, maxOut);
      SealMessageCarries(k, tape, msgs[p.msg], p.off, maxOut);
      SealMessageKeeps(inv, k, log, tape, msgs[p.msg], p.off, maxOut);
      if o.res.SealSuccess? {
        var q, room := Pos(p.msg + 1, o.offset), maxOut - |Wire(o.rec.value)|;
        var h := SealMessages(o.keys, tape, msgs, q, room);
        SealMessagesKeep(inv, o.keys, log + [o.rec.value], tape, msgs, q, room);
        assert log + g.recs == log + [o.rec.value] + h.recs;
      } else {
        assert log + g.recs == Logged(log, o.rec);
      }
    }
  }

  /** Sending a flight keeps whatever sealing each record keeps. */
  lemma {:induction false} SendFlightKeeps(inv: LogInv, k: Keys, log: seq<Sealed>, tape: Tape, msgs: seq<OutMsg>, p: Pos, mtu: nat, bio: nat -> int, i: nat)
    requires SealKeeps(inv, tape) && KeysInv(k) && PosInv(msgs, p) && inv(k, log)
    ensures var r := SendFlight(k, tape, msgs, p, mtu, bio, i); inv(r.keys, log + r.sealed)
    decreases |msgs| - p.msg, if p.msg < |msgs| then |msgs[p.msg].data| - p.off else 0
  {
    hide SealMessages, CarryAll, PacketBytes, AllWellFormed;
    var r := SendFlight(k, tape, msgs, p, mtu, bio, i);
    if p.msg == |msgs| {
      assert log + r.sealed == log;
    } else {
      var g := SealPacket(k, tape, msgs, p, mtu);
      SealMessagesCarry(k, tape, msgs, p, mtu);
      SealMessagesKeep(inv, k, log, tape, msgs, p, mtu);
      if g.ok && WriteResult(bio, i) > 0 {
        var rest := SendFlight(g.keys, tape, msgs, g.pos, mtu, bio, i + 1);
        SendFlightKeeps(inv, g.keys, log + g.recs, tape, msgs, g.pos, mtu, bio, i + 1);
        assert log + r.sealed == log + g.recs + rest.sealed;
      } else {
        assert r.sealed == g.recs;
      }
    }
  }

  ghost function UniqueInv(): LogInv {
    (k, log) => UniqueLog(k, log)
  }

  lemma SealKeepsUnique(tape: Tape)
    ensures SealKeeps(UniqueInv(), tape)
  {
    forall k: Keys, log: seq<Sealed>, use: UseEpoch, typ: byte, plain: seq<byte>, maxOut: nat
      ensures KeptBy(UniqueInv(), tape, k, log, use, typ, plain, maxOut)
    {
      if KeysInv(k) && UniqueInv()(k, log) && (use.Previous? ==> k.epoch >= 1) {
        SealRecordUnique(k, log, tape, use, typ, plain, maxOut);
      }
    }
  }

  lemma NewWriteStateUnique(k: Keys, log: seq<Sealed>, aead: Aead)
    requires KeysInv(k) && UniqueLog(k, log)
    ensures UniqueLog(NewWriteState(k, aead), log)
  {
    var k' := NewWriteState(k, aead);
    if !k'.wrapped {
      assert forall x | x in log :: Used(k, x) && Used(k', x);
    }
  }
}
