/** That a flight does go out. With ciphers that do not fail, packets large
    enough for one byte of a message, counters that do not run out and a network
    that takes every packet, sending a flight succeeds and puts all of it into
    records. */
module DtlsProgress {
  import opened Wrappers
  import opened DtlsWire
  import opened DtlsRecordFormat
  import opened DtlsWriterSpec
  import opened DtlsWriterRuns
  import opened Paths

  // ---------------------------------------------------------------- what it takes

  ghost predicate NeverFails(a: Aead) {
    Lawful(a) && forall r, p, pt :: a.seal(r, p, pt).Some?
  }

  /** What is left of messages i and later, and one more for each of them. */
  function Left(msgs: seq<OutMsg>, i: nat): nat
    requires i <= |msgs|
    decreases |msgs| - i
  {
    if i == |msgs| then 0 else |msgs[i].data| + 1 + Left(msgs, i + 1)
  }

  /** An upper bound for the number of records still to be made. */
  function Work(msgs: seq<OutMsg>, p: Pos): int
    requires p.msg <= |msgs|
  {
    Left(msgs, p.msg) - p.off
  }

  /** The message can be parsed again and the keys it was queued under are there. */
  ghost predicate Sendable(k: Keys, m: OutMsg) {
    EpochFor(k, m).Some? && (m.isCcs || QueuedFragment(m).Some?)
  }

  /** A position at the start of a message or inside its body. */
  ghost predicate Inside(m: OutMsg, off: nat) {
    off == 0 || (!m.isCcs && QueuedFragment(m).Some? && off < |QueuedFragment(m).value.body|)
  }

  ghost predicate CiphersOk(k: Keys, mtu: nat) {
    && KeysInv(k) && NeverFails(k.aead) && NeverFails(k.lastAead)
    && 26 + k.aead.maxOverhead <= mtu && 26 + k.lastAead.maxOverhead <= mtu && mtu < 0x1_0000
  }

  ghost predicate CanSend(k: Keys, msgs: seq<OutMsg>, p: Pos, mtu: nat) {
    && CiphersOk(k, mtu) && PosInv(msgs, p)
    && (forall m | m in msgs :: Sendable(k, m))
    && (p.msg < |msgs| ==> Inside(msgs[p.msg], p.off))
    && k.seqNo + Work(msgs, p) < 0x1_0000_0000_0000 && k.lastSeqNo + Work(msgs, p) < 0x1_0000_0000_0000
  }

  // ---------------------------------------------------------------- one record

  /** The same ciphers and epoch; each counter has moved on by one at most. */
  ghost predicate OneOn(k: Keys, k': Keys) {
    && k'.epoch == k.epoch && k'.aead == k.aead && k'.lastAead == k.lastAead
    && k.seqNo <= k'.seqNo <= k.seqNo + 1 && k.lastSeqNo <= k'.lastSeqNo <= k.lastSeqNo + 1
  }

  lemma RecordGoes(k: Keys, tape: Tape, use: UseEpoch, typ: byte, plain: seq<byte>, maxOut: nat)
    requires KeysInv(k) && NeverFails(k.At(use)) && |plain| + 13 + k.At(use).maxOverhead <= maxOut < 0x1_0000
    requires k.SeqAt(use) + 1 < 0x1_0000_0000_0000
    ensures var (k', x) := SealRecord(k, tape, use, typ, plain, maxOut); x.Some? && OneOn(k, k')
  {
    var params := Params(typ, k.aead.version, Sequence(k.EpochAt(use), k.SeqAt(use)));
    var r := tape(k.EpochAt(use), k.SeqAt(use));
    var ct := k.At(use).seal(r, params, plain);
    assert ct.Some? && SealedOk(k.At(use), params, plain, ct.value);
  }

  /** A message goes on, and only for lack of room does it not. */
  lemma MessageGoes(k: Keys, tape: Tape, m: OutMsg, off: nat, maxOut: nat, mtu: nat)
    requires CiphersOk(k, mtu) && Sendable(k, m) && Inside(m, off) && maxOut <= mtu
    requires k.seqNo + 1 < 0x1_0000_0000_0000 && k.lastSeqNo + 1 < 0x1_0000_0000_0000
    ensures var o := SealMessage(k, tape, m, off, maxOut);
            && o.res != SealError && OneOn(k, o.keys) && (o.res == SealPartial ==> Inside(m, o.offset))
            && (maxOut >= 26 + k.aead.maxOverhead && maxOut >= 26 + k.lastAead.maxOverhead ==> o.rec.Some?)
  {
    hide SealRecord, SerializeFragment, SerializeRecord, WellFormedSealed, NeverFails, QueuedFragment, KeysInv;
    LawfulOverhead(k.aead);
    LawfulOverhead(k.lastAead);
    var use := EpochFor(k, m).value;
    if m.isCcs {
      if maxOut >= 14 + k.At(use).maxOverhead {
        RecordGoes(k, tape, use, RT_CHANGE_CIPHER_SPEC, [MT_CCS], maxOut);
      }
    } else {
      PieceGoes(k, tape, use, QueuedFragment(m).value, off, maxOut);
    }
  }

  lemma LawfulOverhead(a: Aead)
    requires NeverFails(a)
    ensures a.explicitNonceLen <= a.maxOverhead
  {
  }

  lemma PieceGoes(k: Keys, tape: Tape, use: UseEpoch, f: Fragment, off: nat, maxOut: nat)
    requires KeysInv(k) && NeverFails(k.At(use)) && maxOut < 0x1_0000 && k.SeqAt(use) + 1 < 0x1_0000_0000_0000
    requires WellFormedFragment(f) && f.hdr.msgLen == |f.body| && (off == 0 || off < |f.body|)
    ensures var o := SealFragment(k, tape, use, f, off, maxOut);
            && o.res != SealError && OneOn(k, o.keys) && (o.res == SealPartial ==> o.offset < |f.body|)
            && (maxOut >= 26 + k.At(use).maxOverhead ==> o.rec.Some?)
  {
    hide SealRecord, SerializeRecord, WellFormedSealed, NeverFails, KeysInv;
    LawfulOverhead(k.At(use));
    var overhead := 13 + k.At(use).maxOverhead;
    if maxOut >= 13 + overhead {
      var todo := Min(|f.body| - off, maxOut - 12 - overhead);
      var g := Cut(f, off, todo);
      assert |SerializeFragment(g)| == 12 + todo;
      RecordGoes(k, tape, use, RT_HANDSHAKE, SerializeFragment(g), maxOut);
    }
  }

  // ---------------------------------------------------------------- packets

  lemma NextFits(k: Keys, k': Keys, msgs: seq<OutMsg>, p: Pos, q: Pos, mtu: nat)
    requires CanSend(k, msgs, p, mtu) && OneOn(k, k') && KeysInv(k') && p.msg < |msgs| && PosInv(msgs, q)
    requires (q.msg == p.msg && q.off > p.off && Inside(msgs[p.msg], q.off)) || q == Pos(p.msg + 1, 0)
    ensures CanSend(k', msgs, q, mtu)
  {
    hide NeverFails, QueuedFragment;
    assert forall m | m in msgs :: Sendable(k, m) && EpochFor(k', m) == EpochFor(k, m);
    assert p.off <= |msgs[p.msg].data|;
  }

  lemma {:induction false} PacketGoes(k: Keys, tape: Tape, msgs: seq<OutMsg>, p: Pos, maxOut: nat, mtu: nat)
    requires CanSend(k, msgs, p, mtu) && maxOut <= mtu
    ensures var g := SealMessages(k, tape, msgs, p, maxOut);
            && g.ok && CanSend(g.keys, msgs, g.pos, mtu)
            && (p.msg < |msgs| && maxOut == mtu ==> g.recs != [])
    decreases |msgs| - p.msg
  {
    hide SealMessage, SealRecord, SerializeRecord, CarriesMessage, Sendable, Inside, CiphersOk, OneOn;
    if p.msg == |msgs| {
    } else {
      var m := msgs[p.msg];
      MtuSuffices(k, mtu);
      var o := SealMessage(k, tape, m, p.off, maxOut);
      SealMessageCarries(k, tape, m, p.off, maxOut);
      RoomForOne(k, msgs, p, mtu);
      MessageGoes(k, tape, m, p.off, maxOut, mtu);
      if o.res == SealPartial {
        NextFits(k, o.keys, msgs, p, Pos(p.msg, o.offset), mtu);
      } else if o.res == SealSuccess {
        NextFits(k, o.keys, msgs, p, Pos(p.msg + 1, 0), mtu);
        PacketGoes(o.keys, tape, msgs, Pos(p.msg + 1, 0), maxOut - |Wire(o.rec.value)|, mtu);
      }
    }
  }

  lemma RoomForOne(k: Keys, msgs: seq<OutMsg>, p: Pos, mtu: nat)
    requires CanSend(k, msgs, p, mtu) && p.msg < |msgs|
    ensures k.seqNo + 1 < 0x1_0000_0000_0000 && k.lastSeqNo + 1 < 0x1_0000_0000_0000
    ensures Sendable(k, msgs[p.msg]) && Inside(msgs[p.msg], p.off)
  {
    hide NeverFails, QueuedFragment;
    assert msgs[p.msg] in msgs;
  }

  lemma MtuSuffices(k: Keys, mtu: nat)
    requires CiphersOk(k, mtu)
    ensures 26 + k.aead.maxOverhead <= mtu && 26 + k.lastAead.maxOverhead <= mtu && KeysInv(k)
  {
  }

  // ---------------------------------------------------------------- flights

  /** Sending a flight succeeds, leaves nothing to be sent, and every record made
      is in a packet written; together they carry the flight from where it
      stood to its end, without gap or overlap. */
  lemma {:induction false} FlightGoes(k: Keys, tape: Tape, msgs: seq<OutMsg>, p: Pos, mtu: nat, bio: nat -> int, i: nat)
    requires CanSend(k, msgs, p, mtu) && forall j :: bio(j) > 0
    ensures var r := SendFlight(k, tape, msgs, p, mtu, bio, i);
            && r.ret == 1 && r.pos == Pos(|msgs|, 0) && r.sealed == Flatten(r.packets)
            && CarryAll(msgs, p, r.sealed, Pos(|msgs|, 0)) && FitsMtu(r.packets, mtu)
    decreases |msgs| - p.msg, if p.msg < |msgs| then |msgs[p.msg].data| - p.off else 0
  {
    hide SealMessages, PacketBytes, CanSend, CarryAll, AllWellFormed;
    CanSendParts(k, msgs, p, mtu);
    SendFlightCarries(k, tape, msgs, p, mtu, bio, i);
    if p.msg == |msgs| {
      assert SendFlight(k, tape, msgs, p, mtu, bio, i).sealed == [];
    } else {
      var g := SealPacket(k, tape, msgs, p, mtu);
      SealMessagesCarry(k, tape, msgs, p, mtu);
      PacketGoes(k, tape, msgs, p, mtu, mtu);
      FlightGoes(g.keys, tape, msgs, g.pos, mtu, bio, i + 1);
      var rest := SendFlight(g.keys, tape, msgs, g.pos, mtu, bio, i + 1);
      assert ([g.recs] + rest.packets)[1..] == rest.packets;
    }
  }

  lemma CanSendParts(k: Keys, msgs: seq<OutMsg>, p: Pos, mtu: nat)
    requires CanSend(k, msgs, p, mtu)
    ensures KeysInv(k) && PosInv(msgs, p)
  {
  }

  /** A flush sends what is left of the flight and closes it. */
  lemma FlushSends(w: Writer, tape: Tape, mtu: nat, bio: nat -> int, calls: nat)
    requires WriterInv(w) && CanSend(w.keys, w.outgoing, w.pos, mtu) && forall j :: bio(j) > 0
    ensures var (w', recs) := Step(w, tape, Flush(mtu, bio, calls));
            && w'.complete && w'.pos == Pos(|w.outgoing|, 0) && w'.outgoing == w.outgoing
            && CarryAll(w.outgoing, w.pos, recs, Pos(|w.outgoing|, 0))
  {
    hide SendFlight, CarryAll, CanSend;
    FlightGoes(w.keys, tape, w.outgoing, w.pos, mtu, bio, calls);
  }

  /** A retransmission sends all of the flight once more, however much of it has
      been sent before. */
  lemma RetransmitSendsAll(w: Writer, tape: Tape, mtu: nat, bio: nat -> int, calls: nat)
    requires WriterInv(w) && CanSend(w.keys, w.outgoing, Pos(0, 0), mtu) && forall j :: bio(j) > 0
    ensures var (w', recs) := Step(w, tape, Retransmit(mtu, bio, calls));
            && w'.pos == Pos(|w.outgoing|, 0) && w'.outgoing == w.outgoing && w'.complete == w.complete
            && CarryAll(w.outgoing, Pos(0, 0), recs, Pos(|w.outgoing|, 0))
  {
    hide SendFlight, CarryAll, CanSend;
    FlightGoes(w.keys, tape, w.outgoing, Pos(0, 0), mtu, bio, calls);
  }
}
