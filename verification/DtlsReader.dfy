/** The receiving side with its mutable state: the array of messages being
    reassembled, the replay window and the flags of `DTLS1_STATE`. Every method
    computes the function of the same name in DtlsReaderSpec. */
module DtlsReader {
  import opened Wrappers
  import opened DtlsWire
  import opened DtlsReassembly
  import opened DtlsRecordFormat
  import opened DtlsReplay
  import opened DtlsReaderSpec
  import opened DtlsReaderRuns

  /** `incoming_messages` and `handshake_read_seq`. */
  class IncomingRing {
    const incoming: array<HmFragment?>
    var readSeq: nat
    // This object, the array, and the buffered messages with their arrays.
    ghost var Repr: set<object>

    ghost predicate Owns(i: nat)
      requires i < incoming.Length
      reads this, incoming, Repr
    {
      var f := incoming[i];
      f != null ==>
        && f in Repr && f.data in Repr && (f.reassembly != null ==> f.reassembly in Repr)
        && f as object != this && f.data as object != incoming && f.reassembly as object? != incoming
        && f.Valid()
    }

    ghost predicate Apart(i: nat, j: nat)
      requires i < incoming.Length && j < incoming.Length && Owns(i) && Owns(j)
      reads this, incoming, Repr
    {
      var f, g := incoming[i], incoming[j];
      f != null && g != null ==>
        && f != g && f.data != g.data && f.data as object? != g.reassembly && f.reassembly as object? != g.data
        && (f.reassembly != null ==> f.reassembly != g.reassembly)
    }

    ghost predicate Shape()
      reads this, incoming, Repr
    {
      && incoming.Length == MAX_HANDSHAKE_FLIGHT && this in Repr && incoming in Repr
      && (forall i | 0 <= i < MAX_HANDSHAKE_FLIGHT :: Owns(i))
      && (forall i, j | 0 <= i < MAX_HANDSHAKE_FLIGHT && 0 <= j < MAX_HANDSHAKE_FLIGHT && i != j :: Apart(i, j))
    }

    ghost function Slot(i: nat): Option<Partial>
      requires i < incoming.Length && Owns(i)
      reads this, incoming, Repr
    {
      if incoming[i] == null then None else Some(incoming[i].Abs())
    }

    ghost function Abs(): (r: Ring)
      requires Shape()
      reads this, incoming, Repr
      ensures |r.slots| == MAX_HANDSHAKE_FLIGHT
    {
      Ring(readSeq, seq(MAX_HANDSHAKE_FLIGHT, i requires 0 <= i < incoming.Length && Owns(i) reads this, incoming, Repr => Slot(i)))
    }

    ghost predicate Valid()
      reads this, incoming, Repr
    {
      Shape() && RingInv(Abs())
    }

    constructor ()
      ensures Valid() && Abs() == Ring(0, EMPTY_SLOTS) && fresh(Repr)
    {
      incoming := new HmFragment?[MAX_HANDSHAKE_FLIGHT](_ => null);
      readSeq := 0;
      Repr := {this, incoming};
      new;
      assert Abs().slots == EMPTY_SLOTS;
    }

    /** The message a fragment belongs to; allocated and put in its slot if
        this is its first fragment (`dtls1_get_incoming_message`). */
    method GetIncomingMessage(h: HmHeader) returns (res: Result<HmFragment, Alert>)
      requires Valid() && h.Fits()
      modifies this`Repr, incoming
      ensures Shape() && fresh(Repr - old(Repr)) && old(Repr) <= Repr
      ensures match IncomingMessage(old(Abs()), h)
              case Err(a) => res == Err(a) && Abs() == old(Abs())
              case Ok(p) =>
                && res.Ok? && incoming[SlotOf(h.seqNo)] == res.value && Owns(SlotOf(h.seqNo)) && res.value.Abs() == p
                && Abs() == old(Abs()).(slots := old(Abs()).slots[SlotOf(h.seqNo) := Some(p)])
    {
      if h.seqNo < readSeq || h.seqNo - readSeq >= MAX_HANDSHAKE_FLIGHT {
        return Err(InternalError);
      }
      var idx := h.seqNo % MAX_HANDSHAKE_FLIGHT;
      var frag := incoming[idx];
      assert Owns(idx) && Abs().slots[idx] == Slot(idx);
      if frag != null {
        assert frag.seqNo == h.seqNo;
        if frag.typ != h.typ || frag.msgLen != h.msgLen {
          return Err(IllegalParameter);
        }
        return Ok(frag);
      }
      res := Insert(h);
    }

    method Insert(h: HmHeader) returns (res: Result<HmFragment, Alert>)
      requires Shape() && h.Fits() && incoming[SlotOf(h.seqNo)] == null
      modifies this`Repr, incoming
      ensures Shape() && fresh(Repr - old(Repr)) && old(Repr) <= Repr
      ensures res.Ok? && incoming[SlotOf(h.seqNo)] == res.value && Owns(SlotOf(h.seqNo))
      ensures res.value.Abs() == Partial(h.typ, h.seqNo, h.msgLen, map[])
      ensures Abs() == old(Abs()).(slots := old(Abs()).slots[SlotOf(h.seqNo) := Some(res.value.Abs())])
    {
      hide RingInv, SerializeHeader, IncomingMessage, SlotOk, MaskBit;
      var idx := h.seqNo % MAX_HANDSHAKE_FLIGHT;
      ghost var was := Abs();
      var made := new HmFragment(h);
      incoming[idx] := made;
      Repr := Repr + {made, made.data} + if made.reassembly == null then {} else {made.reassembly};
      forall i | 0 <= i < MAX_HANDSHAKE_FLIGHT && i != idx ensures Owns(i) && Slot(i) == was.slots[i] {
        assert old(Owns(i)) && old(Slot(i)) == was.slots[i];
      }
      forall i, j | 0 <= i < MAX_HANDSHAKE_FLIGHT && 0 <= j < MAX_HANDSHAKE_FLIGHT && i != j ensures Apart(i, j) {
        assert old(Owns(i)) && old(Apart(i, j));
      }
      return Ok(made);
    }

    /** Copies a fragment into the message in slot `idx`; the other slots stay
        as they are. */
    method FillSlot(idx: nat, off: nat, body: seq<byte>)
      requires Shape() && idx < MAX_HANDSHAKE_FLIGHT && incoming[idx] != null && Owns(idx)
      requires incoming[idx].reassembly != null && off + |body| <= incoming[idx].msgLen
      modifies incoming[idx], incoming[idx].data, incoming[idx].reassembly
      ensures Shape()
      ensures Abs() == old(Abs()).(slots := old(Abs()).slots[idx := Some(AddBytes(old(incoming[idx].Abs()), off, body))])
    {
      ghost var was := Abs();
      incoming[idx].Fill(off, body);
      forall i | 0 <= i < MAX_HANDSHAKE_FLIGHT && i != idx ensures Owns(i) && Slot(i) == was.slots[i] {
        assert old(Owns(i)) && old(Apart(idx, i));
        assert old(Slot(i)) == was.slots[i];
      }
      forall i, j | 0 <= i < MAX_HANDSHAKE_FLIGHT && 0 <= j < MAX_HANDSHAKE_FLIGHT && i != j ensures Apart(i, j) {
        assert old(Owns(i)) && old(Owns(j)) && old(Apart(i, j));
      }
      assert Slot(idx) == Some(AddBytes(old(incoming[idx].Abs()), off, body));
    }

    /** One fragment: the body of the loop of `dtls1_open_handshake`. */
    method TakeFragment(epoch: nat, maxLen: nat, f: Fragment) returns (alert: Option<Alert>)
      requires Valid() && WellFormedFragment(f)
      modifies Repr
      ensures Valid() && fresh(Repr - old(Repr))
      ensures match DtlsReaderSpec.TakeFragment(old(Abs()), epoch, maxLen, f)
              case Err(a) => alert == Some(a) && Abs() == old(Abs())
              case Ok(r) => alert == None && Abs() == r
    {
      var h := f.hdr;
      if h.fragOff > h.msgLen || h.fragOff + h.fragLen > h.msgLen || h.msgLen > maxLen {
        return Some(IllegalParameter);
      }
      if epoch == 1 && h.seqNo != readSeq {
        return Some(UnexpectedMessage);
      }
      if h.seqNo < readSeq || h.seqNo > readSeq + MAX_HANDSHAKE_FLIGHT {
        return None;
      }
      ghost var was := Abs();
      TakeFragmentKeepsRing(was, epoch, maxLen, f);
      var got := GetIncomingMessage(h);
      if got.Err? {
        return Some(got.error);
      }
      var frag, idx := got.value, h.seqNo % MAX_HANDSHAKE_FLIGHT;
      NullMaskMeansComplete(frag);
      if frag.reassembly != null {
        FillSlot(idx, h.fragOff, f.body);
      }
      assert Abs() == DtlsReaderSpec.TakeFragment(was, epoch, maxLen, f).value;
      KeepsCurrent(was, epoch, maxLen, f);
      return None;
    }

    /** All fragments of one record: the loop of `dtls1_open_handshake`. */
    method TakeFragments(epoch: nat, maxLen: nat, plain: seq<byte>) returns (alert: Option<Alert>)
      requires Valid()
      modifies Repr
      ensures Valid() && fresh(Repr - old(Repr))
      ensures var (ring, a) := DtlsReaderSpec.TakeFragments(old(Abs()), epoch, maxLen, plain);
              alert == a && Abs() == ring
    {
      var rest := plain;
      ghost var start := Abs();
      while rest != []
        invariant Valid() && fresh(Repr - old(Repr))
        invariant DtlsReaderSpec.TakeFragments(start, epoch, maxLen, plain)
               == DtlsReaderSpec.TakeFragments(Abs(), epoch, maxLen, rest)
        decreases |rest|
      {
        var next := ParseFragment(rest);
        if next.None? {
          return Some(DecodeError);
        }
        var (f, more) := next.value;
        SerializeParsed(rest);
        alert := TakeFragment(epoch, maxLen, f);
        if alert.Some? {
          return alert;
        }
        rest := more;
      }
      return None;
    }

    /** `dtls1_get_message`: type, body and the whole serialised message. */
    method CurrentMessage() returns (msg: Option<SSLMessage>)
      requires Valid()
      ensures msg.Some? <==> HasCurrent(Abs())
      ensures msg.Some? ==> IsMessage(msg.value, Current(Abs()))
    {
      var idx := readSeq % MAX_HANDSHAKE_FLIGHT;
      var frag := incoming[idx];
      assert Owns(idx) && Abs().slots[idx] == Slot(idx);
      if frag == null {
        return None;
      }
      NullMaskMeansComplete(frag);
      if frag.reassembly != null {
        return None;
      }
      return Some(SSLMessage(frag.typ, frag.data[HM_HEADER_LENGTH..], frag.data[..]));
    }

    /** `dtls1_next_message` */
    method NextMessage()
      requires Valid() && HasCurrent(Abs())
      modifies this`readSeq, incoming
      ensures Valid() && Abs() == NextRing(old(Abs()))
    {
      ghost var was := Abs();
      NextRingKeepsRing(was);
      var idx := readSeq % MAX_HANDSHAKE_FLIGHT;
      incoming[idx] := null;
      readSeq := (readSeq + 1) % 0x1_0000;
      forall i | 0 <= i < MAX_HANDSHAKE_FLIGHT ensures Owns(i) && Slot(i) == NextRing(was).slots[i] {
        assert old(Owns(i)) && old(Slot(i)) == was.slots[i];
      }
      forall i, j | 0 <= i < MAX_HANDSHAKE_FLIGHT && 0 <= j < MAX_HANDSHAKE_FLIGHT && i != j ensures Apart(i, j) {
        assert old(Apart(i, j));
      }
      assert Abs() == NextRing(was);
    }

    /** Whether any message is buffered, not counting the one being read. */
    method AnyBuffered(hasMessage: bool) returns (found: bool)
      requires Valid()
      ensures found <==> exists i | 0 <= i < MAX_HANDSHAKE_FLIGHT ::
                           !(hasMessage && i == SlotOf(Abs().readSeq)) && Abs().slots[i].Some?
    {
      var current := readSeq % MAX_HANDSHAKE_FLIGHT;
      for i := 0 to MAX_HANDSHAKE_FLIGHT
        invariant forall k | 0 <= k < i :: (hasMessage && k == current) || incoming[k] == null
      {
        if !(hasMessage && i == current) && incoming[i] != null {
          assert Abs().slots[i] == Slot(i);
          return true;
        }
      }
      forall k | 0 <= k < MAX_HANDSHAKE_FLIGHT && !(hasMessage && k == current) ensures Abs().slots[k].None? {
        assert Abs().slots[k] == Slot(k);
      }
      return false;
    }
  }

  lemma KeepsCurrent(r: Ring, epoch: nat, maxLen: nat, f: Fragment)
    requires RingInv(r) && WellFormedFragment(f)
    ensures var res := TakeFragment(r, epoch, maxLen, f);
            res.Ok? && HasCurrent(r) ==> RingInv(res.value) && HasCurrent(res.value)
  {
  }

  class DtlsReader {
    const maxLen: nat
    const ring: IncomingRing
    const window: ReplayWindow
    var closed: bool
    var epoch: nat
    var aead: Aead
    var hasMessage: bool
    var hasCcs: bool

    ghost predicate Apart()
      reads this, ring
    {
      this !in ring.Repr && window !in ring.Repr
    }

    ghost function Abs(): Reader
      requires ring.Shape()
      reads this, ring, ring.incoming, ring.Repr, window
    {
      Reader(closed, epoch, window.Abs(), aead, ring.Abs(), hasMessage, hasCcs)
    }

    ghost predicate Valid()
      reads this, ring, ring.incoming, ring.Repr, window
    {
      Apart() && ring.Valid() && window.Valid() && ReaderInv(Abs())
    }

    constructor (maxLen: nat, aead: Aead)
      ensures Valid() && this.maxLen == maxLen
      ensures Abs() == Reader(false, 0, EMPTY_WINDOW, aead, Ring(0, EMPTY_SLOTS), false, false)
      ensures fresh(ring.Repr) && fresh(window)
    {
      this.maxLen := maxLen;
      ring := new IncomingRing();
      window := new ReplayWindow();
      closed, epoch, this.aead, hasMessage, hasCcs := false, 0, aead, false, false;
    }

    /** `dtls_open_record` */
    method OpenRecord(s: seq<byte>) returns (verdict: Opened, consumed: nat)
      requires Valid()
      modifies window
      ensures Valid()
      ensures var (v, c, recorded) := DtlsReaderSpec.OpenRecord(old(Abs()), s);
              verdict == v && consumed == c && Abs() == AfterRecord(old(Abs()), recorded)
    {
      hide ring.Shape, RingInv, HasCurrent, ToU64, window.Valid;
      if closed {
        return OpenCloseNotify, 0;
      }
      if s == [] {
        return OpenPartial, 0;
      }
      var parsed := ParseRecord(s);
      if parsed.None? {
        return OpenDiscard, |s|;
      }
      var (r, rest) := parsed.value;
      if !VersionOk(aead, r.params.version) {
        return OpenDiscard, |s|;
      }
      var number := ToU64Be(r.params.sequence);
      var stale := window.ShouldDiscard(number);
      if EpochOf(r.params.sequence) != epoch || stale {
        return OpenDiscard, |s| - |rest|;
      }
      var plain := aead.open(r.params, r.body);
      if plain.None? {
        return OpenDiscard, |s| - |rest|;
      }
      if |plain.value| > MAX_PLAIN_LENGTH {
        return OpenError(RecordOverflow), |s| - |rest|;
      }
      window.Record(number);
      if r.params.typ == RT_ALERT {
        return OpenAlert(plain.value), |s| - |rest|;
      }
      return OpenSuccess(r.params.typ, plain.value), |s| - |rest|;
    }

    /** `dtls1_open_handshake` */
    method OpenHandshake(s: seq<byte>) returns (res: HandshakeResult, consumed: nat)
      requires Valid()
      modifies this`hasCcs, ring.Repr, window
      ensures Valid() && fresh(ring.Repr - old(ring.Repr))
      ensures (Abs(), res, consumed) == DtlsReaderSpec.OpenHandshake(old(Abs()), maxLen, s)
    {
      hide ring.Shape, RingInv, HasCurrent, DtlsReaderSpec.OpenRecord, DtlsReaderSpec.TakeFragments;
      var verdict;
      verdict, consumed := OpenRecord(s);
      match verdict
      case OpenAlert(plain) => res := HandshakeAlert(plain);
      case OpenDiscard => res := HandshakeDiscard;
      case OpenPartial => res := HandshakePartial;
      case OpenCloseNotify => res := HandshakeCloseNotify;
      case OpenError(a) => res := HandshakeError(a);
      case OpenSuccess(typ, plain) =>
        if typ == RT_APPLICATION_DATA {
          res := if aead.isNull then HandshakeError(UnexpectedMessage) else HandshakeDiscard;
        } else if typ == RT_CHANGE_CIPHER_SPEC {
          if !aead.isNull {
            res := HandshakeError(UnexpectedMessage);
          } else if plain != [MT_CCS] {
            res := HandshakeError(IllegalParameter);
          } else {
            hasCcs := true;
            res := HandshakeSuccess;
          }
        } else if typ == RT_HANDSHAKE {
          if hasMessage {
            TakeFragmentsKeepCurrent(ring.Abs(), epoch, maxLen, plain);
          }
          var alert := ring.TakeFragments(epoch, maxLen, plain);
          res := if alert.Some? then HandshakeError(alert.value) else HandshakeSuccess;
        } else {
          res := HandshakeError(UnexpectedMessage);
        }
    }

    /** `dtls1_get_message` */
    method GetMessage() returns (msg: Option<SSLMessage>)
      requires Valid()
      modifies this`hasMessage
      ensures Valid() && Abs() == old(Abs()).(hasMessage := old(hasMessage) || msg.Some?)
      ensures msg.Some? <==> HasCurrent(Abs().ring)
      ensures msg.Some? ==> IsMessage(msg.value, Current(Abs().ring))
    {
      hide RingInv, IsMessage;
      ghost var was := ring.Abs();
      msg := ring.CurrentMessage();
      if msg.Some? {
        hasMessage := true;
        assert ring.Valid() && ring.Abs() == was;
      }
    }

    /** `dtls1_next_message` */
    method NextMessage()
      requires Valid() && hasMessage
      modifies this`hasMessage, ring.Repr
      ensures Valid()
      ensures Abs() == old(Abs()).(ring := NextRing(old(Abs().ring)), hasMessage := false)
    {
      ring.NextMessage();
      hasMessage := false;
    }

    /** `dtls_has_unprocessed_handshake_data` */
    method HasUnprocessed() returns (unprocessed: bool)
      requires Valid()
      ensures unprocessed <==> DtlsReaderSpec.HasUnprocessed(Abs())
    {
      if hasCcs {
        return true;
      }
      unprocessed := ring.AnyBuffered(hasMessage);
    }

    /** `dtls1_set_read_state`: refused while handshake data is left over. */
    method SetReadState(aead: Aead) returns (ok: bool)
      requires Valid()
      modifies this`epoch, this`aead, window
      ensures Valid() && (ok <==> !DtlsReaderSpec.HasUnprocessed(old(Abs())))
      ensures Abs() == if ok then NewReadState(old(Abs()), aead) else old(Abs())
    {
      hide ring.Shape, RingInv, HasCurrent, DtlsReaderSpec.HasUnprocessed, window.Valid;
      var leftOver := HasUnprocessed();
      if leftOver {
        return false;
      }
      ghost var was := ring.Abs();
      epoch := (epoch + 1) % 0x1_0000;
      window.Reset();
      this.aead := aead;
      assert ring.Valid() && ring.Abs() == was;
      return true;
    }

    /** `dtls1_open_change_cipher_spec` */
    method OpenChangeCipherSpec(s: seq<byte>) returns (res: HandshakeResult, consumed: nat)
      requires Valid()
      modifies this`hasCcs, ring.Repr, window
      ensures Valid() && fresh(ring.Repr - old(ring.Repr))
      ensures (Abs(), res, consumed) == OpenCcs(old(Abs()), maxLen, s)
    {
      hide ring.Shape, RingInv, HasCurrent, DtlsReaderSpec.OpenHandshake;
      consumed := 0;
      if !hasCcs {
        OnlySuccessFlagsCcs(Abs(), maxLen, s);
        res, consumed := OpenHandshake(s);
        if res != HandshakeSuccess {
          return;
        }
      }
      if hasCcs {
        ghost var was := ring.Abs();
        hasCcs := false;
        assert ring.Valid() && ring.Abs() == was;
        return HandshakeSuccess, consumed;
      }
      return HandshakeDiscard, consumed;
    }
  }

  lemma OnlySuccessFlagsCcs(rd: Reader, maxLen: nat, s: seq<byte>)
    requires ReaderInv(rd) && !rd.hasCcs
    ensures var (rd', res, _) := OpenHandshake(rd, maxLen, s); res != HandshakeSuccess ==> !rd'.hasCcs
  {
    hide DtlsReaderSpec.OpenRecord, TakeFragments, RingInv, HasCurrent;
  }
}
