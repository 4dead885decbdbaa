/** What the receiving side takes notice of, told from the packets alone: which
    records it accepts, what it makes of each kind, that a ChangeCipherSpec is
    remembered, and that every fragment of a record counts. */
module DtlsReceives {
  import opened Wrappers
  import opened DtlsWire
  import opened DtlsReassembly
  import opened DtlsRecordFormat
  import opened DtlsReplay
  import opened DtlsReaderSpec
  import opened DtlsReaderRuns

  // ---------------------------------------------------------------- which records are accepted

  /** The packet begins with a whole record of at most 16704 bytes. */
  predicate HasRecord(s: seq<byte>) {
    |s| >= 13 && var len := s[11] as int * 0x100 + s[12] as int; len <= 16704 && |s| >= 13 + len
  }

  /** Its header in numbers: type, version, and the eight bytes of epoch and
      sequence number. */
  function HeaderOf(s: seq<byte>): Params
    requires |s| >= 13
  {
    Params(s[0], s[1] as int * 0x100 + s[2] as int, s[3..11])
  }

  function BodyOf(s: seq<byte>): seq<byte>
    requires HasRecord(s)
  {
    s[13..13 + s[11] as int * 0x100 + s[12] as int]
  }

  /** The epoch and the 48-bit number in one. */
  function NumberIn(s: seq<byte>): nat
    requires |s| >= 13
  {
    ToU64(s[3..11])
  }

  /** The record is of the current epoch and version, opens to at most 16384
      bytes, and its number is neither 64 or more behind the largest nor among
      those recorded. */
  predicate Acceptable(rd: Reader, s: seq<byte>) {
    && !rd.closed && HasRecord(s)
    && (if rd.aead.isNull then s[1] == 0xfe else HeaderOf(s).version == rd.aead.version)
    && s[3] as int * 0x100 + s[4] as int == rd.epoch
    && NumberIn(s) + 64 > rd.window.max && NumberIn(s) !in rd.window.seen
    && match rd.aead.open(HeaderOf(s), BodyOf(s)) case None => false case Some(plain) => |plain| <= 16384
  }

  lemma RecordParses(s: seq<byte>)
    ensures HasRecord(s) <==> ParseRecord(s).Some?
    ensures HasRecord(s) ==> ParseRecord(s) == Some((Record(HeaderOf(s), BodyOf(s)), s[13 + |BodyOf(s)|..]))
  {
  }

  /** A record is accepted, and recorded in the window, exactly if it is
      acceptable; it then opens as the cipher says, and one whose type is that
      of an alert is one. */
  lemma AcceptedExactly(rd: Reader, s: seq<byte>)
    ensures var (verdict, consumed, recorded) := OpenRecord(rd, s);
            && (recorded.Some? <==> Acceptable(rd, s))
            && (verdict.OpenSuccess? || verdict.OpenAlert? <==> Acceptable(rd, s))
            && (Acceptable(rd, s) ==>
                  var plain := rd.aead.open(HeaderOf(s), BodyOf(s)).value;
                  && recorded == Some(NumberIn(s)) && consumed == 13 + |BodyOf(s)|
                  && verdict == if s[0] == 21 then OpenAlert(plain) else OpenSuccess(s[0], plain))
  {
    RecordParses(s);
  }

  /** What is left over of a packet that is not accepted: nothing of one without
      a whole record or of another version, all behind the record of others. */
  lemma RefusedExactly(rd: Reader, s: seq<byte>)
    requires !Acceptable(rd, s)
    ensures var (verdict, consumed, recorded) := OpenRecord(rd, s);
            && recorded == None
            && (verdict == OpenCloseNotify <==> rd.closed)
            && (verdict == OpenPartial <==> !rd.closed && s == [])
            && (verdict.OpenError? ==> verdict == OpenError(RecordOverflow))
            && (verdict == OpenDiscard && HasRecord(s) ==>
                  var mine := if rd.aead.isNull then s[1] == 0xfe else HeaderOf(s).version == rd.aead.version;
                  consumed == if mine then 13 + |BodyOf(s)| else |s|)
            && (verdict == OpenDiscard && !HasRecord(s) ==> consumed == |s|)
            && (verdict == OpenError(RecordOverflow) ==> HasRecord(s) && consumed == 13 + |BodyOf(s)|)
  {
    RecordParses(s);
  }

  // ---------------------------------------------------------------- every fragment counts

  /** Fragments one after the other. */
  function Laid(fs: seq<Fragment>): seq<byte>
    requires forall f | f in fs :: WellFormedFragment(f)
  {
    if fs == [] then [] else SerializeFragment(fs[0]) + Laid(fs[1..])
  }

  /** A record of several fragments does what they do one by one, up to the
      first that is refused. */
  lemma EachFragmentCounts(r: Ring, epoch: nat, maxLen: nat, fs: seq<Fragment>)
    requires RingInv(r) && fs != [] && forall f | f in fs :: WellFormedFragment(f)
    ensures var res := TakeFragment(r, epoch, maxLen, fs[0]);
            && (res.Ok? ==> RingInv(res.value))
            && TakeFragments(r, epoch, maxLen, Laid(fs)) ==
                 if res.Err? then (r, Some(res.error)) else TakeFragments(res.value, epoch, maxLen, Laid(fs[1..]))
  {
    hide SerializeFragment;
    assert fs[0] in fs;
    ParseSerialized(fs[0], Laid(fs[1..]));
    TakeFragmentKeepsRing(r, epoch, maxLen, fs[0]);
    NotEmpty(fs[0]);
  }

  lemma NotEmpty(f: Fragment)
    requires WellFormedFragment(f)
    ensures SerializeFragment(f) != []
  {
  }

  /** Bytes that are no fragment are an error, whatever came before them. */
  lemma {:induction false} RestMustParse(r: Ring, epoch: nat, maxLen: nat, s: seq<byte>)
    requires RingInv(r) && s != [] && ParseFragment(s).None?
    ensures TakeFragments(r, epoch, maxLen, s) == (r, Some(DecodeError))
  {
  }

  /** The three alerts of a fragment, exactly: a body past the message's length
      or a message too long or unlike the one with its number; another message
      than the current in epoch 1; and the first number past the ring. */
  lemma FragmentRefusedExactly(r: Ring, epoch: nat, maxLen: nat, f: Fragment)
    requires RingInv(r) && WellFormedFragment(f)
    ensures var h, res := f.hdr, TakeFragment(r, epoch, maxLen, f);
            var bad := h.fragOff + h.fragLen > h.msgLen || h.msgLen > maxLen;
            var other := epoch == 1 && h.seqNo != r.readSeq;
            var near := r.readSeq <= h.seqNo < r.readSeq + 7;
            var unlike := exists p: Partial :: Some(p) in r.slots && p.seqNo == h.seqNo && (p.typ != h.typ || p.msgLen != h.msgLen);
            && (res == Err(IllegalParameter) <==> bad || (!other && near && unlike))
            && (res == Err(UnexpectedMessage) <==> !bad && other)
            && (res == Err(InternalError) <==> !bad && !other && h.seqNo == r.readSeq + 7)
            && (res.Err? ==> res.error in {IllegalParameter, UnexpectedMessage, InternalError})
            && (!bad && !other && (h.seqNo < r.readSeq || h.seqNo > r.readSeq + 7) ==> res == Ok(r))
  {
    var h := f.hdr;
    if r.readSeq <= h.seqNo < r.readSeq + 7 {
      OneSlot(r, h.seqNo);
    }
  }

  /** A message in the ring is in the slot of its number. */
  lemma OneSlot(r: Ring, n: nat)
    requires RingInv(r)
    ensures forall p: Partial | Some(p) in r.slots && p.seqNo == n :: r.slots[n % 7] == Some(p)
    ensures r.readSeq <= n < r.readSeq + 7 && r.slots[n % 7].Some? ==> r.slots[n % 7].value.seqNo == n
  {
  }

  // ---------------------------------------------------------------- kinds of records

  /** What is made of an accepted record, by the number of its type: 20, 22 and 23
      are known, 20 must be plain and [1], and 23 must not be plain. */
  lemma KindsExactly(rd: Reader, maxLen: nat, s: seq<byte>)
    requires ReaderInv(rd) && Acceptable(rd, s)
    ensures var (rd', res, _) := OpenHandshake(rd, maxLen, s);
            var plain := rd.aead.open(HeaderOf(s), BodyOf(s)).value;
            && rd'.window == rd.window.Record(NumberIn(s))
            && (s[0] == 21 <==> res.HandshakeAlert?)
            && (s[0] == 21 ==> res == HandshakeAlert(plain))
            && (s[0] == 23 ==> res == if rd.aead.isNull then HandshakeError(UnexpectedMessage) else HandshakeDiscard)
            && (s[0] == 20 ==> res == if !rd.aead.isNull then HandshakeError(UnexpectedMessage) else if plain == [1] then HandshakeSuccess else HandshakeError(IllegalParameter))
            && (s[0] !in {20, 21, 22, 23} ==> res == HandshakeError(UnexpectedMessage))
            && (s[0] == 22 && res == HandshakeSuccess ==> rd'.ring == TakeFragments(rd.ring, rd.epoch, maxLen, plain).0)
            && (s[0] != 22 ==> rd'.ring == rd.ring)
            && (rd'.hasCcs <==> rd.hasCcs || (s[0] == 20 && rd.aead.isNull && plain == [1]))
  {
    hide OpenRecord, Acceptable, TakeFragments, RingInv;
    AcceptedExactly(rd, s);
  }

  // ---------------------------------------------------------------- ChangeCipherSpec

  /** The packet is a plain ChangeCipherSpec that is accepted. */
  predicate IsCcs(rd: Reader, s: seq<byte>) {
    Acceptable(rd, s) && s[0] == 20 && rd.aead.isNull && rd.aead.open(HeaderOf(s), BodyOf(s)) == Some([1])
  }

  /** Since the last time one was taken, a ChangeCipherSpec has come in. */
  ghost predicate CcsCameIn(rd: Reader, maxLen: nat, evs: seq<Event>)
    requires ReaderInv(rd)
  {
    exists i | 0 <= i < |evs| ::
      && evs[i].Packet? && IsCcs(Run(rd, maxLen, evs[..i]), evs[i].s)
      && forall j | i < j < |evs| :: evs[j] != TakeCcs
  }

  lemma StepOnCcs(rd: Reader, maxLen: nat, ev: Event)
    requires ReaderInv(rd)
    ensures Step(rd, maxLen, ev).hasCcs <==>
              ev != TakeCcs && (rd.hasCcs || (ev.Packet? && IsCcs(rd, ev.s)))
  {
    hide OpenRecord, TakeFragments, RingInv;
    if ev.Packet? {
      AcceptedExactly(rd, ev.s);
      if Acceptable(rd, ev.s) {
        KindsExactly(rd, maxLen, ev.s);
      }
    }
  }

  lemma CcsOneMore(rd: Reader, maxLen: nat, evs: seq<Event>)
    requires ReaderInv(rd) && evs != []
    ensures var before, ev := evs[..|evs| - 1], evs[|evs| - 1];
            CcsCameIn(rd, maxLen, evs) <==>
              ev != TakeCcs && (CcsCameIn(rd, maxLen, before) || (ev.Packet? && IsCcs(Run(rd, maxLen, before), ev.s)))
  {
    hide Run, IsCcs, RingInv;
    var n := |evs| - 1;
    var before, ev := evs[..n], evs[n];
    forall i | 0 <= i < n ensures before[..i] == evs[..i] && before[i] == evs[i] {
    }
    if CcsCameIn(rd, maxLen, before) && ev != TakeCcs {
      var i :| 0 <= i < n && before[i].Packet? && IsCcs(Run(rd, maxLen, before[..i]), before[i].s) && forall j | i < j < n :: before[j] != TakeCcs;
      assert evs[i].Packet? && IsCcs(Run(rd, maxLen, evs[..i]), evs[i].s);
    }
    if CcsCameIn(rd, maxLen, evs) {
      var i :| 0 <= i < |evs| && evs[i].Packet? && IsCcs(Run(rd, maxLen, evs[..i]), evs[i].s) && forall j | i < j < |evs| :: evs[j] != TakeCcs;
      if i < n {
        assert before[i].Packet? && IsCcs(Run(rd, maxLen, before[..i]), before[i].s);
        assert ev != TakeCcs;
      }
    }
  }

  /** The flag is set exactly if, since it was last taken, a record of type 20
      with plaintext [1] was accepted under the null cipher. */
  lemma {:induction false} FlagMeansCcs(rd: Reader, maxLen: nat, evs: seq<Event>)
    requires ReaderInv(rd) && !rd.hasCcs
    ensures Run(rd, maxLen, evs).hasCcs <==> CcsCameIn(rd, maxLen, evs)
    decreases |evs|
  {
    hide Step, IsCcs, RingInv, CcsCameIn;
    if evs == [] {
      NoCcsYet(rd, maxLen);
    } else {
      FlagMeansCcs(rd, maxLen, evs[..|evs| - 1]);
      StepOnCcs(Run(rd, maxLen, evs[..|evs| - 1]), maxLen, evs[|evs| - 1]);
      CcsOneMore(rd, maxLen, evs);
    }
  }

  lemma NoCcsYet(rd: Reader, maxLen: nat)
    requires ReaderInv(rd)
    ensures !CcsCameIn(rd, maxLen, [])
  {
  }

  /** A ChangeCipherSpec that came in is what the handshake is given when it next
      asks for one, without another packet. */
  lemma CcsIsGiven(rd: Reader, maxLen: nat, s: seq<byte>, next: seq<byte>)
    requires ReaderInv(rd) && IsCcs(rd, s)
    ensures var (rd', res, _) := OpenHandshake(rd, maxLen, s);
            && res == HandshakeSuccess && ReaderInv(rd')
            && OpenCcs(rd', maxLen, next) == (rd'.(hasCcs := false), HandshakeSuccess, 0)
  {
    hide TakeFragments, RingInv, Acceptable;
    KindsExactly(rd, maxLen, s);
    OpenHandshakeKeepsReader(rd, maxLen, s);
  }

  // ---------------------------------------------------------------- key changes

  /** The read keys can change exactly if no ChangeCipherSpec is waiting and
      nothing but the message being read is in the ring. */
  lemma KeysChangeExactly(rd: Reader, maxLen: nat, aead: Aead)
    requires ReaderInv(rd)
    ensures var rd' := Step(rd, maxLen, SetReadState(aead));
            if !rd.hasCcs && forall p: Partial | Some(p) in rd.ring.slots :: rd.hasMessage && p.seqNo == rd.ring.readSeq then
              && rd'.epoch == (rd.epoch + 1) % 0x1_0000 && rd'.aead == aead && rd'.window == Window(0, {})
              && rd'.ring == rd.ring && rd'.hasMessage == rd.hasMessage
            else rd' == rd
  {
    OneSlot(rd.ring, rd.ring.readSeq);
    if !rd.hasCcs && HasUnprocessed(rd) {
      var i :| 0 <= i < 7 && !(rd.hasMessage && i == rd.ring.readSeq % 7) && rd.ring.slots[i].Some?;
      assert Some(rd.ring.slots[i].value) in rd.ring.slots;
    } else if !rd.hasCcs {
      forall p: Partial | Some(p) in rd.ring.slots ensures rd.hasMessage && p.seqNo == rd.ring.readSeq {
        var i :| 0 <= i < 7 && rd.ring.slots[i] == Some(p);
      }
    }
  }
}
