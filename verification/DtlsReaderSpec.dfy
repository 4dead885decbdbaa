/** The receiving side of a DTLS handshake as functions on values: the record
    layer (dtls_record.cc, `dtls_open_record`) and the ring of messages being
    reassembled (d1_both.cc). The class in DtlsReader.dfy is proved to compute
    these functions; the invariants below hold after every step. */
module DtlsReaderSpec {
  import opened Wrappers
  import opened DtlsWire
  import opened DtlsReassembly
  import opened DtlsRecordFormat
  import opened DtlsReplay

  datatype Alert = DecodeError | IllegalParameter | UnexpectedMessage | InternalError | RecordOverflow

  // ---------------------------------------------------------------- the ring

  /** Message number `readSeq` is the next to be handed out; message number n
      is assembled in slot n % 7. */
  datatype Ring = Ring(readSeq: nat, slots: seq<Option<Partial>>)

  const EMPTY_SLOTS: seq<Option<Partial>> := [None, None, None, None, None, None, None]

  ghost predicate SlotOk(readSeq: nat, i: nat, p: Partial) {
    && p.seqNo % MAX_HANDSHAKE_FLIGHT == i
    && readSeq <= p.seqNo < readSeq + MAX_HANDSHAKE_FLIGHT
    && p.seqNo < 0x1_0000 && p.msgLen < 0x100_0000
    && p.InRange()
  }

  ghost predicate RingInv(r: Ring) {
    && |r.slots| == MAX_HANDSHAKE_FLIGHT && r.readSeq < 0x1_0000
    && forall i | 0 <= i < MAX_HANDSHAKE_FLIGHT && r.slots[i].Some? :: SlotOk(r.readSeq, i, r.slots[i].value)
  }

  function SlotOf(seqNo: nat): nat {
    seqNo % MAX_HANDSHAKE_FLIGHT
  }

  /** Checks on a fragment before it reaches the ring. */
  function ScreenFragment(readSeq: nat, epoch: nat, maxLen: nat, h: HmHeader): Result<bool, Alert> {
    if h.fragOff > h.msgLen || h.fragOff + h.fragLen > h.msgLen || h.msgLen > maxLen then Err(IllegalParameter)
    else if epoch == 1 && h.seqNo != readSeq then Err(UnexpectedMessage)
    // Fragments from the past, or too far in the future, are ignored.
    else Ok(!(h.seqNo < readSeq || h.seqNo > readSeq + MAX_HANDSHAKE_FLIGHT))
  }

  /** `dtls1_get_incoming_message`: the message a fragment belongs to, new if
      this is its first fragment. */
  function IncomingMessage(r: Ring, h: HmHeader): Result<Partial, Alert>
    requires |r.slots| == MAX_HANDSHAKE_FLIGHT
  {
    if h.seqNo < r.readSeq || h.seqNo - r.readSeq >= MAX_HANDSHAKE_FLIGHT then Err(InternalError)
    else
      match r.slots[SlotOf(h.seqNo)]
      case Some(p) =>
        if p.typ != h.typ || p.msgLen != h.msgLen then Err(IllegalParameter) else Ok(p)
      case None => Ok(Partial(h.typ, h.seqNo, h.msgLen, map[]))
  }

  ghost function TakeFragment(r: Ring, epoch: nat, maxLen: nat, f: Fragment): (res: Result<Ring, Alert>)
    requires RingInv(r) && WellFormedFragment(f)
    ensures res.Ok? ==> |res.value.slots| == MAX_HANDSHAKE_FLIGHT && res.value.readSeq == r.readSeq
  {
    match ScreenFragment(r.readSeq, epoch, maxLen, f.hdr)
    case Err(a) => Err(a)
    case Ok(keep) =>
      if !keep then Ok(r)
      else
        match IncomingMessage(r, f.hdr)
        case Err(a) => Err(a)
        case Ok(p) => Ok(r.(slots := r.slots[SlotOf(f.hdr.seqNo) := Some(AddBytes(p, f.hdr.fragOff, f.body))]))
  }

  /** The ring keeps its invariant, and the source's assertion that a slot's
      message has the sequence number asked for never fires. */
  lemma TakeFragmentKeepsRing(r: Ring, epoch: nat, maxLen: nat, f: Fragment)
    requires RingInv(r) && WellFormedFragment(f)
    ensures TakeFragment(r, epoch, maxLen, f).Ok? ==> RingInv(TakeFragment(r, epoch, maxLen, f).value)
    ensures IncomingMessage(r, f.hdr).Ok? ==> IncomingMessage(r, f.hdr).value.seqNo == f.hdr.seqNo
  {
  }

  /** A fragment that passes the bounds checks in epoch 0 reaches the ring
      guard and is refused there in exactly one case: its number is the first
      one past the ring. */
  lemma RingGuardFiresExactly(r: Ring, epoch: nat, maxLen: nat, f: Fragment)
    requires RingInv(r) && WellFormedFragment(f)
    ensures TakeFragment(r, epoch, maxLen, f) == Err(InternalError) <==>
            && f.hdr.seqNo == r.readSeq + MAX_HANDSHAKE_FLIGHT && epoch != 1
            && f.hdr.fragOff + f.hdr.fragLen <= f.hdr.msgLen <= maxLen
  {
  }

  /** All fragments of one handshake record, in order; stops at the first error. */
  ghost function TakeFragments(r: Ring, epoch: nat, maxLen: nat, s: seq<byte>): (res: (Ring, Option<Alert>))
    requires RingInv(r)
    ensures RingInv(res.0) && res.0.readSeq == r.readSeq
    decreases |s|
  {
    if s == [] then (r, None)
    else
      match ParseFragment(s)
      case None => (r, Some(DecodeError))
      case Some((f, rest)) =>
        SerializeParsed(s);
        TakeFragmentKeepsRing(r, epoch, maxLen, f);
        match TakeFragment(r, epoch, maxLen, f)
        case Err(a) => (r, Some(a))
        case Ok(r') => TakeFragments(r', epoch, maxLen, rest)
  }

  ghost predicate HasCurrent(r: Ring)
    requires RingInv(r)
  {
    var slot := r.slots[SlotOf(r.readSeq)];
    slot.Some? && slot.value.Complete()
  }

  ghost function Current(r: Ring): (p: Partial)
    requires RingInv(r) && HasCurrent(r)
    ensures p.Complete()
  {
    r.slots[SlotOf(r.readSeq)].value
  }

  /** What the handshake gets to see: `raw` is what it hashes. */
  datatype SSLMessage = SSLMessage(typ: byte, body: seq<byte>, raw: seq<byte>)

  ghost predicate IsMessage(m: SSLMessage, p: Partial)
    requires p.Complete()
  {
    && m.typ == p.typ && m.body == p.Body()
    && p.msgLen < 0x100_0000 && p.seqNo < 0x1_0000
    && m.raw == SerializeHeader(WholeHeader(p.typ, p.seqNo, p.msgLen)) + p.Body()
  }

  /** `dtls1_next_message`; the 16-bit counter wraps. */
  ghost function NextRing(r: Ring): (r': Ring)
    requires RingInv(r) && HasCurrent(r)
  {
    Ring((r.readSeq + 1) % 0x1_0000, r.slots[SlotOf(r.readSeq) := None])
  }

  /** Handing out a message keeps the invariant, also where the counter wraps:
      at 65535 no later number exists, so every slot is empty after the step. */
  lemma NextRingKeepsRing(r: Ring)
    requires RingInv(r) && HasCurrent(r)
    ensures RingInv(NextRing(r))
    ensures r.readSeq == 0xffff ==> NextRing(r) == Ring(0, EMPTY_SLOTS)
  {
    var r' := NextRing(r);
    var cur := SlotOf(r.readSeq);
    forall i | 0 <= i < MAX_HANDSHAKE_FLIGHT && r'.slots[i].Some?
      ensures SlotOk(r.readSeq, i, r'.slots[i].value) && r'.slots[i].value.seqNo > r.readSeq
    {
      assert i != cur;
    }
    if r.readSeq == 0xffff {
      assert forall i | 0 <= i < MAX_HANDSHAKE_FLIGHT :: r'.slots[i] == None;
    }
  }

  // ---------------------------------------------------------------- the record layer

  /** State of the receiving side. `epoch` is the 16-bit counter. */
  datatype Reader = Reader(
    closed: bool,
    epoch: nat,
    window: Window,
    aead: Aead,
    ring: Ring,
    hasMessage: bool,
    hasCcs: bool)

  ghost predicate ReaderInv(rd: Reader) {
    && rd.epoch < 0x1_0000 && RingInv(rd.ring)
    && (rd.hasMessage ==> HasCurrent(rd.ring))
  }

  datatype Opened =
    | OpenSuccess(typ: byte, plain: seq<byte>)
    | OpenAlert(plain: seq<byte>)
    | OpenDiscard
    | OpenPartial
    | OpenCloseNotify
    | OpenError(alert: Alert)

  predicate VersionOk(aead: Aead, version: nat) {
    if aead.isNull then version / 0x100 == DTLS1_VERSION_MAJOR else version == aead.version
  }

  /** What one call of `dtls_open_record` makes of the packet `s`: the verdict,
      the bytes consumed, and the sequence number recorded in the window. */
  function OpenRecord(rd: Reader, s: seq<byte>): (Opened, nat, Option<nat>) {
    if rd.closed then (OpenCloseNotify, 0, None)
    else if s == [] then (OpenPartial, 0, None)
    else
      match ParseRecord(s)
      case None => (OpenDiscard, |s|, None)
      case Some((r, rest)) =>
        var number := ToU64(r.params.sequence);
        if !VersionOk(rd.aead, r.params.version) then (OpenDiscard, |s|, None)
        else if EpochOf(r.params.sequence) != rd.epoch || rd.window.Discards(number) then
          (OpenDiscard, |s| - |rest|, None)
        else
          match rd.aead.open(r.params, r.body)
          case None => (OpenDiscard, |s| - |rest|, None)
          case Some(plain) =>
            if |plain| > MAX_PLAIN_LENGTH then (OpenError(RecordOverflow), |s| - |rest|, None)
            else if r.params.typ == RT_ALERT then (OpenAlert(plain), |s| - |rest|, Some(number))
            else (OpenSuccess(r.params.typ, plain), |s| - |rest|, Some(number))
  }

  function AfterRecord(rd: Reader, recorded: Option<nat>): Reader {
    match recorded
    case None => rd
    case Some(n) => rd.(window := rd.window.Record(n))
  }

  /** A record that does not authenticate leaves the window where it was; one
      that does was in the current epoch and had not been seen. */
  lemma WindowMovesOnlyOnAuthenticRecords(rd: Reader, s: seq<byte>)
    ensures var (_, _, recorded) := OpenRecord(rd, s);
            recorded.Some? ==>
              && ParseRecord(s).Some?
              && var r := ParseRecord(s).value.0;
                 && rd.aead.open(r.params, r.body).Some?
                 && EpochOf(r.params.sequence) == rd.epoch
                 && recorded.value == ToU64(r.params.sequence)
                 && recorded.value / SEQ_LIMIT == rd.epoch
                 && !rd.window.Discards(recorded.value)
  {
    if ParseRecord(s).Some? {
      ToU64Parts(ParseRecord(s).value.0.params.sequence);
    }
  }

  datatype HandshakeResult =
    | HandshakeSuccess
    | HandshakeDiscard
    | HandshakePartial
    | HandshakeCloseNotify
    | HandshakeError(alert: Alert)
    | HandshakeAlert(plain: seq<byte>)

  /** What `dtls1_open_handshake` does with a decrypted record. */
  ghost function HandleRecord(rd: Reader, maxLen: nat, typ: byte, plain: seq<byte>): (res: (Reader, HandshakeResult))
    requires ReaderInv(rd)
  {
    if typ == RT_APPLICATION_DATA then
      (rd, if rd.aead.isNull then HandshakeError(UnexpectedMessage) else HandshakeDiscard)
    else if typ == RT_CHANGE_CIPHER_SPEC then
      if !rd.aead.isNull then (rd, HandshakeError(UnexpectedMessage))
      else if plain != [MT_CCS] then (rd, HandshakeError(IllegalParameter))
      else (rd.(hasCcs := true), HandshakeSuccess)
    else if typ == RT_HANDSHAKE then
      var (ring, alert) := TakeFragments(rd.ring, rd.epoch, maxLen, plain);
      (rd.(ring := ring), if alert.Some? then HandshakeError(alert.value) else HandshakeSuccess)
    else (rd, HandshakeError(UnexpectedMessage))
  }

  ghost function OpenHandshake(rd: Reader, maxLen: nat, s: seq<byte>): (res: (Reader, HandshakeResult, nat))
    requires ReaderInv(rd)
  {
    var (verdict, consumed, recorded) := OpenRecord(rd, s);
    var rd' := AfterRecord(rd, recorded);
    match verdict
    case OpenSuccess(typ, plain) =>
      var (rd'', res) := HandleRecord(rd', maxLen, typ, plain);
      (rd'', res, consumed)
    case OpenAlert(plain) => (rd', HandshakeAlert(plain), consumed)
    case OpenDiscard => (rd', HandshakeDiscard, consumed)
    case OpenPartial => (rd', HandshakePartial, consumed)
    case OpenCloseNotify => (rd', HandshakeCloseNotify, consumed)
    case OpenError(a) => (rd', HandshakeError(a), consumed)
  }

  /** `dtls1_open_change_cipher_spec`: a flag that is set is taken, and otherwise
      a record is read first. */
  ghost function OpenCcs(rd: Reader, maxLen: nat, s: seq<byte>): (res: (Reader, HandshakeResult, nat))
    requires ReaderInv(rd)
  {
    if rd.hasCcs then (rd.(hasCcs := false), HandshakeSuccess, 0)
    else
      var (rd', r, c) := OpenHandshake(rd, maxLen, s);
      (rd'.(hasCcs := false), if r != HandshakeSuccess then r else if rd'.hasCcs then HandshakeSuccess else HandshakeDiscard, c)
  }

  /** `dtls_has_unprocessed_handshake_data` */
  ghost predicate HasUnprocessed(rd: Reader)
    requires ReaderInv(rd)
  {
    rd.hasCcs
    || exists i | 0 <= i < MAX_HANDSHAKE_FLIGHT ::
         !(rd.hasMessage && i == SlotOf(rd.ring.readSeq)) && rd.ring.slots[i].Some?
  }

  /** `dtls1_set_read_state`, when it is not refused. */
  function NewReadState(rd: Reader, aead: Aead): Reader {
    rd.(epoch := (rd.epoch + 1) % 0x1_0000, window := EMPTY_WINDOW, aead := aead)
  }
}
