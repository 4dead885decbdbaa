/** The sending side with its mutable state: the array of queued messages, the
    position in the flight, the write counters and the packet buffer. Every
    method computes a function of DtlsWriterSpec or DtlsWriterRuns, and the
    bytes it leaves in the buffer are the records of that function. */
module DtlsWriter {
  import opened Wrappers
  import opened Bytes
  import opened DtlsWire
  import opened DtlsRecordFormat
  import opened DtlsWriterSpec
  import opened DtlsWriterRuns

  /** Write epoch, ciphers and sequence numbers. */
  class WriteKeys {
    const tape: Tape
    var epoch: nat
    var seqNo: nat
    var lastSeqNo: nat
    var aead: Aead
    var lastAead: Aead
    ghost var wrapped: bool
    // Every record sealed so far.
    ghost var log: seq<Sealed>

    ghost function Abs(): Keys
      reads this
    {
      Keys(epoch, seqNo, lastSeqNo, aead, lastAead, wrapped)
    }

    ghost predicate Valid()
      reads this
    {
      KeysInv(Abs())
    }

    constructor (aead: Aead, tape: Tape)
      requires aead.version < 0x1_0000
      ensures Valid() && Abs() == Keys(0, 0, 0, aead, aead, false) && log == [] && this.tape == tape
    {
      this.tape := tape;
      epoch, seqNo, lastSeqNo, this.aead, lastAead, wrapped, log := 0, 0, 0, aead, aead, false, [];
    }

    /** `dtls1_set_write_state` */
    method SetWriteState(next: Aead)
      requires Valid() && next.version < 0x1_0000
      modifies this
      ensures Valid() && Abs() == NewWriteState(old(Abs()), next) && log == old(log)
    {
      wrapped := wrapped || epoch == 0xffff;
      epoch := (epoch + 1) % 0x1_0000;
      lastSeqNo := seqNo;
      seqNo := 0;
      lastAead := aead;
      aead := next;
    }

    /** The contract of `ssl_record_sequence_update` on the counter in use. */
    method CountRecord(use: UseEpoch) returns (ok: bool)
      requires Valid()
      modifies this`seqNo, this`lastSeqNo, this`wrapped
      ensures Valid() && Abs() == old(Abs()).Counted(use) && (ok <==> old(Abs()).SeqAt(use) + 1 < SEQ_LIMIT)
    {
      var n := if use.Previous? then lastSeqNo else seqNo;
      if use.Previous? {
        lastSeqNo := (n + 1) % SEQ_LIMIT;
      } else {
        seqNo := (n + 1) % SEQ_LIMIT;
      }
      wrapped := wrapped || n + 1 == SEQ_LIMIT;
      return n + 1 < SEQ_LIMIT;
    }

    /** `dtls_seal_record`: the record goes to `out` from `at` on. */
    method SealRecord(out: array<byte>, at: nat, maxOut: nat, use: UseEpoch, typ: byte, plain: seq<byte>)
      returns (len: Option<nat>)
      requires Valid() && at + maxOut <= out.Length && (use.Previous? ==> epoch >= 1)
      modifies this, out
      ensures Valid() && out[..at] == old(out[..at])
      ensures var (k, x) := DtlsWriterSpec.SealRecord(old(Abs()), tape, use, typ, plain, maxOut);
              Abs() == k && Written(len, out, at, maxOut, x) && log == Logged(old(log), x)
    {
      hide SerializeRecord, Sequence, Wire;
      if maxOut < RT_HEADER_LENGTH {
        return None;
      }
      var cipher, e, n := aead, epoch, seqNo;
      if use.Previous? {
        cipher, e, n := lastAead, epoch - 1, lastSeqNo;
      }
      var params := Params(typ, aead.version, Sequence(e, n));
      var ct := cipher.seal(tape(e, n), params, plain);
      if ct.None? || |ct.value| > maxOut - RT_HEADER_LENGTH {
        return None;
      }
      var counted := CountRecord(use);
      if !counted || |ct.value| >= 0x1_0000 {
        return None;
      }
      var x := Sealed(params, tape(e, n), plain, ct.value);
      Store(out, at, Wire(x));
      log := log + [x];
      return Some(RT_HEADER_LENGTH + |ct.value|);
    }
  }

  /** The record `x`, if any, is in the buffer, and `len` is its length. */
  ghost predicate Written(len: Option<nat>, out: array<byte>, at: nat, maxOut: nat, x: Option<Sealed>)
    requires at + maxOut <= out.Length && (x.Some? ==> WellFormedSealed(x.value))
    reads out
  {
    match x
    case None => len == None
    case Some(r) => len == Some(|Wire(r)|) && |Wire(r)| <= maxOut && out[at..at + |Wire(r)|] == Wire(r)
  }

  /** A datagram BIO: `answers` is what each write returns. */
  class Bio {
    const answers: nat -> int
    var calls: nat
    var sent: seq<seq<byte>>

    constructor (answers: nat -> int)
      ensures this.answers == answers && calls == 0 && sent == []
    {
      this.answers := answers;
      calls, sent := 0, [];
    }

    method Write(packet: seq<byte>) returns (ret: int)
      modifies this
      ensures ret == WriteResult(answers, old(calls)) && calls == old(calls) + 1
      ensures sent == if ret > 0 then old(sent) + [packet] else old(sent)
    {
      ret := WriteResult(answers, calls);
      calls := calls + 1;
      if ret > 0 {
        sent := sent + [packet];
      }
    }
  }

  ghost predicate AllPackets(packets: seq<seq<Sealed>>) {
    forall xs | xs in packets :: AllWellFormed(xs)
  }

  ghost function Datagrams(packets: seq<seq<Sealed>>): seq<seq<byte>>
    requires AllPackets(packets)
  {
    if packets == [] then [] else [PacketBytes(packets[0])] + Datagrams(packets[1..])
  }

  lemma {:induction false} PacketBytesAppend(xs: seq<Sealed>, x: Sealed)
    requires AllWellFormed(xs) && WellFormedSealed(x)
    ensures AllWellFormed(xs + [x]) && PacketBytes(xs + [x]) == PacketBytes(xs) + Wire(x)
  {
    hide Wire, WellFormedSealed;
    if xs == [] {
      assert PacketBytes([x]) == Wire(x) + PacketBytes([]);
    } else {
      PacketBytesAppend(xs[1..], x);
      assert (xs + [x])[1..] == xs[1..] + [x];
    }
  }

  lemma EmptyPacket(packet: array<byte>)
    ensures InPacket(packet, 0, [])
  {
  }

  lemma SealMessagesEnd(k: Keys, tape: Tape, msgs: seq<OutMsg>, p: Pos, maxOut: nat)
    requires KeysInv(k) && PosInv(msgs, p) && p.msg == |msgs|
    ensures SealMessages(k, tape, msgs, p, maxOut) == Progress(k, p, true, [])
  {
  }

  /** One unfolding of the loop, with what the next round may rely on. */
  lemma SealMessagesStep(k: Keys, tape: Tape, msgs: seq<OutMsg>, p: Pos, maxOut: nat)
    requires KeysInv(k) && PosInv(msgs, p) && p.msg < |msgs|
    ensures var o := SealMessage(k, tape, msgs[p.msg], p.off, maxOut);
            var q := Pos(if o.res.SealSuccess? then p.msg + 1 else p.msg, o.offset);
            && KeysInv(o.keys) && PosInv(msgs, q)
            && (o.rec.Some? ==> 0 < |Wire(o.rec.value)| <= maxOut)
            && SealMessages(k, tape, msgs, p, maxOut) ==
                 match o.res
                 case SealError => Progress(o.keys, q, false, [])
                 case SealNoProgress => Progress(o.keys, q, true, [])
                 case SealPartial => Progress(o.keys, q, true, [o.rec.value])
                 case SealSuccess => Prefixed([o.rec.value], SealMessages(o.keys, tape, msgs, q, maxOut - |Wire(o.rec.value)|))
  {
    hide SealMessage, CarriesMessage, SerializeRecord, WellFormedSealed;
    SealMessageCarries(k, tape, msgs[p.msg], p.off, maxOut);
  }

  ghost function Continued(sealed: seq<Sealed>, packets: seq<seq<Sealed>>, r: Sent): Sent {
    r.(sealed := sealed + r.sealed, packets := packets + r.packets)
  }

  lemma ContinuedMore(sealed: seq<Sealed>, packets: seq<seq<Sealed>>, recs: seq<Sealed>, rest: Sent)
    ensures Continued(sealed, packets, Continued(recs, [recs], rest)) == Continued(sealed + recs, packets + [recs], rest)
  {
    assert sealed + (recs + rest.sealed) == sealed + recs + rest.sealed;
    assert packets + ([recs] + rest.packets) == packets + [recs] + rest.packets;
  }

  lemma ContinuedEnd(sealed: seq<Sealed>, packets: seq<seq<Sealed>>, last: Sent)
    requires last.packets == []
    ensures Continued(sealed, packets, last) == last.(sealed := sealed + last.sealed, packets := packets)
    ensures sealed + [] == sealed
  {
    assert packets + [] == packets;
  }

  lemma ContinuedNone(r: Sent)
    ensures Continued([], [], r) == r
  {
  }

  lemma {:induction false} DatagramsAppend(packets: seq<seq<Sealed>>, xs: seq<Sealed>)
    requires AllPackets(packets) && AllWellFormed(xs)
    ensures AllPackets(packets + [xs]) && Datagrams(packets + [xs]) == Datagrams(packets) + [PacketBytes(xs)]
  {
    hide AllWellFormed;
    if packets == [] {
      assert Datagrams([xs]) == [PacketBytes(xs)] + Datagrams([]);
    } else {
      DatagramsAppend(packets[1..], xs);
      assert (packets + [xs])[1..] == packets[1..] + [xs];
    }
  }

  /** One unfolding of the loop of `send_flight`. */
  lemma SendFlightStep(k: Keys, tape: Tape, msgs: seq<OutMsg>, p: Pos, mtu: nat, bio: nat -> int, i: nat)
    requires KeysInv(k) && PosInv(msgs, p) && p.msg < |msgs|
    ensures var g := SealPacket(k, tape, msgs, p, mtu);
            && KeysInv(g.keys) && PosInv(msgs, g.pos) && AllWellFormed(g.recs)
            && (g.ok ==> Before(p, g.pos))
            && SendFlight(k, tape, msgs, p, mtu, bio, i) ==
                 if !g.ok then Sent(g.keys, g.pos, -1, true, g.recs, [])
                 else if WriteResult(bio, i) <= 0 then Sent(g.keys, p, WriteResult(bio, i), false, g.recs, [])
                 else Continued(g.recs, [g.recs], SendFlight(g.keys, tape, msgs, g.pos, mtu, bio, i + 1))
  {
    hide SealMessages, CarryAll;
    SealMessagesCarry(k, tape, msgs, p, mtu);
  }

  lemma SendFlightEnd(k: Keys, tape: Tape, msgs: seq<OutMsg>, p: Pos, mtu: nat, bio: nat -> int, i: nat)
    requires KeysInv(k) && PosInv(msgs, p) && p.msg == |msgs|
    ensures SendFlight(k, tape, msgs, p, mtu, bio, i) == Sent(k, p, 1, false, [], [])
  {
  }

  lemma NoDatagrams()
    ensures AllPackets([]) && Datagrams([]) == []
  {
  }

  /** `outgoing_messages` and where the flight stands. */
  class Flight {
    const keys: WriteKeys
    const outgoing: array<OutMsg>
    var len: nat
    var complete: bool
    var msgSeq: nat
    var written: nat
    var offset: nat

    ghost function Msgs(): seq<OutMsg>
      reads this, outgoing
      requires len <= outgoing.Length
    {
      outgoing[..len]
    }

    ghost function At(): Pos
      reads this
    {
      Pos(written, offset)
    }

    ghost predicate Valid()
      reads this, outgoing, keys
    {
      && outgoing.Length == MAX_HANDSHAKE_FLIGHT && len <= MAX_HANDSHAKE_FLIGHT
      && keys.Valid() && msgSeq < 0x1_0000 && PosInv(Msgs(), At())
    }

    ghost function Abs(): Writer
      requires Valid()
      reads this, outgoing, keys
    {
      Writer(keys.Abs(), msgSeq, Msgs(), complete, At())
    }

    constructor (aead: Aead, tape: Tape)
      requires aead.version < 0x1_0000
      ensures Valid() && Abs() == Initial(aead) && fresh(keys) && fresh(outgoing) && keys.tape == tape
    {
      keys := new WriteKeys(aead, tape);
      outgoing := new OutMsg[MAX_HANDSHAKE_FLIGHT](_ => OutMsg([], 0, false));
      len, complete, msgSeq, written, offset := 0, false, 0, 0, 0;
    }

    /** `add_outgoing` */
    method AddOutgoing(data: seq<byte>, isCcs: bool) returns (ok: bool)
      requires Valid()
      modifies this, outgoing
      ensures Valid() && (Abs(), ok) == DtlsWriterRuns.AddOutgoing(old(Abs()), data, isCcs)
    {
      if complete {
        len, complete, written, offset := 0, false, 0, 0;
      }
      if len >= MAX_HANDSHAKE_FLIGHT || |data| > 0xffff_ffff {
        return false;
      }
      if !isCcs {
        msgSeq := (msgSeq + 1) % 0x1_0000;
      }
      ghost var before := Msgs();
      outgoing[len] := OutMsg(data, keys.epoch, isCcs);
      len := len + 1;
      assert Msgs() == before + [OutMsg(data, keys.epoch, isCcs)];
      return true;
    }

    /** `seal_next_message` */
    method SealNextMessage(out: array<byte>, at: nat, maxOut: nat) returns (res: SealResult, length: nat)
      requires Valid() && written < len && at + maxOut <= out.Length
      modifies this`offset, keys, out
      ensures keys.Valid() && out[..at] == old(out[..at])
      ensures var o := SealMessage(old(keys.Abs()), keys.tape, old(Msgs())[written], old(offset), maxOut);
              && res == o.res && offset == o.offset && keys.Abs() == o.keys && keys.log == Logged(old(keys.log), o.rec)
              && (o.rec.Some? ==> Written(Some(length), out, at, maxOut, o.rec))
    {
      var m := outgoing[written];
      length := 0;
      var use := Current;
      if keys.epoch >= 1 && m.epoch == keys.epoch - 1 {
        use := Previous;
      } else if m.epoch != keys.epoch {
        return SealError, 0;
      }
      var cipher := if use.Previous? then keys.lastAead else keys.aead;
      var overhead, prefix := RT_HEADER_LENGTH + cipher.maxOverhead, RT_HEADER_LENGTH + cipher.explicitNonceLen;
      if m.isCcs {
        if maxOut < 1 + overhead {
          return SealNoProgress, 0;
        }
        var sealed := keys.SealRecord(out, at, maxOut, use, RT_CHANGE_CIPHER_SPEC, [MT_CCS]);
        if sealed.None? {
          return SealError, 0;
        }
        return SealSuccess, sealed.value;
      }
      var f := QueuedFragment(m);
      if f.None? || offset > |f.value.body| {
        return SealError, 0;
      }
      res, length := SealPiece(out, at, maxOut, use, overhead, prefix, f.value);
    }

    /** The second half of `seal_next_message`: as much of the body as fits. */
    method SealPiece(out: array<byte>, at: nat, maxOut: nat, use: UseEpoch, overhead: nat, prefix: nat, f: Fragment)
      returns (res: SealResult, length: nat)
      requires keys.Valid() && at + maxOut <= out.Length && (use.Previous? ==> keys.epoch >= 1)
      requires overhead == RT_HEADER_LENGTH + keys.Abs().At(use).maxOverhead
      requires prefix == RT_HEADER_LENGTH + keys.Abs().At(use).explicitNonceLen
      requires WellFormedFragment(f) && f.hdr.msgLen == |f.body| && offset <= |f.body|
      modifies this`offset, keys, out
      ensures keys.Valid() && out[..at] == old(out[..at])
      ensures var o := SealFragment(old(keys.Abs()), keys.tape, use, f, old(offset), maxOut);
              && res == o.res && offset == o.offset && keys.Abs() == o.keys && keys.log == Logged(old(keys.log), o.rec)
              && (o.rec.Some? ==> Written(Some(length), out, at, maxOut, o.rec))
    {
      hide DtlsWriterSpec.SealRecord, Wire, WellFormedSealed, SerializeFragment, KeysInv;
      if maxOut < HM_HEADER_LENGTH + 1 + overhead || maxOut < prefix {
        return SealNoProgress, 0;
      }
      var todo := |f.body| - offset;
      if todo > maxOut - HM_HEADER_LENGTH - overhead {
        todo := maxOut - HM_HEADER_LENGTH - overhead;
      }
      if HM_HEADER_LENGTH + todo > maxOut - prefix {
        return SealError, 0;
      }
      var frag := SerializeFragment(Cut(f, offset, todo));
      var sealed := keys.SealRecord(out, at, maxOut, use, RT_HANDSHAKE, frag);
      if sealed.None? {
        return SealError, 0;
      }
      if offset + todo == |f.body| {
        offset := 0;
        return SealSuccess, sealed.value;
      }
      offset := offset + todo;
      return SealPartial, sealed.value;
    }

    /** One round of the loop of `seal_next_packet`: `done` is in the packet
        already; `recs` is what this round adds, at most one record. */
    method SealInto(packet: array<byte>, at: nat, ghost done: seq<Sealed>) returns (stop: bool, ok: bool, end: nat, ghost recs: seq<Sealed>)
      requires Valid() && written < len && InPacket(packet, at, done)
      modifies this`written, this`offset, keys, packet
      ensures Valid() && InPacket(packet, end, done + recs)
      ensures keys.log == old(keys.log) + recs
      ensures old(SealMessages(keys.Abs(), keys.tape, Msgs(), At(), packet.Length - at))
           == if stop then Progress(keys.Abs(), At(), ok, recs)
              else Prefixed(recs, SealMessages(keys.Abs(), keys.tape, Msgs(), At(), packet.Length - end))
      ensures !stop ==> ok && written == old(written) + 1
    {
      hide SealMessage, SealMessages, SerializeRecord, WellFormedSealed, PacketBytes, KeysInv, Prefixed, AllWellFormed, PosInv, Written, Wire;
      ghost var m, k, off, room := Msgs()[written], keys.Abs(), offset, packet.Length - at;
      SealMessagesStep(k, keys.tape, Msgs(), At(), room);
      ghost var o := SealMessage(k, keys.tape, m, off, room);
      var res, length := SealNextMessage(packet, at, packet.Length - at);
      if res.SealError? || res.SealNoProgress? {
        recs := [];
        assert done + recs == done;
        return true, !res.SealError?, at, recs;
      }
      recs := [o.rec.value];
      PacketGrows(packet, at, length, done, o.rec.value);
      if res.SealPartial? {
        return true, true, at + length, recs;
      }
      written := written + 1;
      return false, true, at + length, recs;
    }

    /** The loop of `seal_next_packet`; `done` is what it puts in the packet. */
    method SealLoop(packet: array<byte>) returns (ok: bool, at: nat, ghost done: seq<Sealed>)
      requires Valid()
      modifies this`written, this`offset, keys, packet
      ensures Valid() && InPacket(packet, at, done) && keys.log == old(keys.log) + done
      ensures old(SealMessages(keys.Abs(), keys.tape, Msgs(), At(), packet.Length)) == Progress(keys.Abs(), At(), ok, done)
    {
      hide SealMessages, KeysInv, PacketBytes;
      ghost var start := SealMessages(keys.Abs(), keys.tape, Msgs(), At(), packet.Length);
      ghost var recs;
      done := [];
      var stop;
      at, stop, ok := 0, false, true;
      EmptyPacket(packet);
      while !stop && written < len
        invariant Valid() && len == old(len)
        invariant (stop || ok) && InPacket(packet, at, done) && keys.log == old(keys.log) + done
        invariant start == if stop then Progress(keys.Abs(), At(), ok, done)
                           else Prefixed(done, SealMessages(keys.Abs(), keys.tape, Msgs(), At(), packet.Length - at))
        decreases !stop, len - written
      {
        stop, ok, at, recs := SealInto(packet, at, done);
        assert old(keys.log) + done + recs == old(keys.log) + (done + recs);
        done := done + recs;
      }
      if !stop {
        SealMessagesEnd(keys.Abs(), keys.tape, Msgs(), At(), packet.Length - at);
        assert done + [] == done;
      }
    }

    /** `seal_next_packet`: fills `packet` with as much of the flight as fits. */
    method SealNextPacket(packet: array<byte>) returns (total: Option<nat>)
      requires Valid() && written < len
      modifies this`written, this`offset, keys, packet
      ensures Valid()
      ensures var g := SealPacket(old(keys.Abs()), keys.tape, old(Msgs()), old(At()), packet.Length);
              && keys.Abs() == g.keys && At() == g.pos && keys.log == old(keys.log) + g.recs
              && (total.Some? <==> g.ok)
              && (g.ok ==> InPacket(packet, total.value, g.recs))
    {
      hide SealMessages, KeysInv, PosInv, PacketBytes;
      ghost var done;
      var ok, at;
      ok, at, done := SealLoop(packet);
      if !ok || at == 0 {
        return None;
      }
      return Some(at);
    }

    /** One round of the loop of `send_flight`: a packet is made and written, or
        the position goes back to where it starts. */
    method SendPacket(bio: Bio, packet: array<byte>) returns (ret: int, ghost g: Progress)
      requires Valid() && written < len
      modifies this`written, this`offset, keys, bio, packet
      ensures Valid() && g == SealPacket(old(keys.Abs()), keys.tape, old(Msgs()), old(At()), packet.Length)
      ensures keys.Abs() == g.keys && keys.log == old(keys.log) + g.recs
      ensures At() == if g.ok && ret <= 0 then old(At()) else g.pos
      ensures ret == if g.ok then WriteResult(bio.answers, old(bio.calls)) else -1
      ensures bio.calls == old(bio.calls) + if g.ok then 1 else 0
      ensures bio.sent == if ret > 0 then old(bio.sent) + [PacketBytes(g.recs)] else old(bio.sent)
    {
      hide SealPacket, PacketBytes, KeysInv;
      g := SealPacket(keys.Abs(), keys.tape, Msgs(), At(), packet.Length);
      var oldWritten, oldOffset := written, offset;
      var made := SealNextPacket(packet);
      if made.None? {
        return -1, g;
      }
      ret := bio.Write(packet[..made.value]);
      if ret <= 0 {
        written, offset := oldWritten, oldOffset;
      }
    }

    /** The loop of `send_flight`; `flushed` is the result of the final
        BIO_flush. */
    method SendFlight(bio: Bio, mtu: nat, flushed: bool) returns (ret: int)
      requires Valid()
      modifies this`written, this`offset, keys, bio
      ensures Valid()
      ensures var r := DtlsWriterSpec.SendFlight(old(keys.Abs()), keys.tape, old(Msgs()), old(At()), mtu, bio.answers, old(bio.calls));
              && keys.Abs() == r.keys && At() == r.pos && keys.log == old(keys.log) + r.sealed
              && ret == (if r.ret > 0 && !flushed then -1 else r.ret)
              && AllPackets(r.packets) && bio.sent == old(bio.sent) + Datagrams(r.packets)
    {
      hide DtlsWriterSpec.SendFlight, SealPacket, PacketBytes, KeysInv, Datagrams, Continued, AllPackets, AllWellFormed;
      ghost var start := DtlsWriterSpec.SendFlight(keys.Abs(), keys.tape, Msgs(), At(), mtu, bio.answers, bio.calls);
      ghost var sealed: seq<Sealed> := [];
      ghost var packets: seq<seq<Sealed>> := [];
      var packet := new byte[mtu](_ => 0);
      NoDatagrams();
      ContinuedNone(start);
      while written < len
        invariant Valid() && len == old(len)
        invariant AllPackets(packets) && bio.sent == old(bio.sent) + Datagrams(packets)
        invariant keys.log == old(keys.log) + sealed
        invariant start == Continued(sealed, packets, DtlsWriterSpec.SendFlight(keys.Abs(), keys.tape, Msgs(), At(), mtu, bio.answers, bio.calls))
        decreases len - written, if written < len then |Msgs()[written].data| - offset else 0
      {
        SendFlightStep(keys.Abs(), keys.tape, Msgs(), At(), mtu, bio.answers, bio.calls);
        ghost var was := sealed;
        ghost var g;
        ret, g := SendPacket(bio, packet);
        sealed := sealed + g.recs;
        assert old(keys.log) + was + g.recs == old(keys.log) + sealed;
        if ret <= 0 {
          ContinuedEnd(was, packets, Sent(g.keys, At(), ret, !g.ok, g.recs, []));
          return ret;
        }
        DatagramsAppend(packets, g.recs);
        ContinuedMore(was, packets, g.recs, DtlsWriterSpec.SendFlight(keys.Abs(), keys.tape, Msgs(), At(), mtu, bio.answers, bio.calls));
        packets := packets + [g.recs];
      }
      SendFlightEnd(keys.Abs(), keys.tape, Msgs(), At(), mtu, bio.answers, bio.calls);
      ContinuedEnd(sealed, packets, Sent(keys.Abs(), At(), 1, false, [], []));
      return if flushed then 1 else -1;
    }

    /** `dtls1_flush_flight` */
    method Flush(bio: Bio, mtu: nat, flushed: bool) returns (ret: int)
      requires Valid()
      modifies this`complete, this`written, this`offset, keys, bio
      ensures Valid()
      ensures var (w, recs) := Step(old(Abs()), keys.tape, Op.Flush(mtu, bio.answers, old(bio.calls)));
              Abs() == w && keys.log == old(keys.log) + recs
      ensures var r := DtlsWriterSpec.SendFlight(old(keys.Abs()), keys.tape, old(Msgs()), old(At()), mtu, bio.answers, old(bio.calls));
              && ret == (if r.ret > 0 && !flushed then -1 else r.ret)
              && AllPackets(r.packets) && bio.sent == old(bio.sent) + Datagrams(r.packets)
    {
      hide DtlsWriterSpec.SendFlight, KeysInv, Datagrams, AllPackets, DtlsWriterSpec.SealRecord;
      complete := true;
      ret := SendFlight(bio, mtu, flushed);
    }

    /** `dtls1_retransmit_outgoing_messages` */
    method Retransmit(bio: Bio, mtu: nat, flushed: bool) returns (ret: int)
      requires Valid()
      modifies this`written, this`offset, keys, bio
      ensures Valid()
      ensures var (w, recs) := Step(old(Abs()), keys.tape, Op.Retransmit(mtu, bio.answers, old(bio.calls)));
              Abs() == w && keys.log == old(keys.log) + recs
      ensures var r := DtlsWriterSpec.SendFlight(old(keys.Abs()), keys.tape, old(Msgs()), Pos(0, 0), mtu, bio.answers, old(bio.calls));
              && ret == (if r.ret > 0 && !flushed then -1 else r.ret)
              && AllPackets(r.packets) && bio.sent == old(bio.sent) + Datagrams(r.packets)
    {
      hide DtlsWriterSpec.SendFlight, KeysInv, Datagrams, AllPackets, DtlsWriterSpec.SealRecord;
      written, offset := 0, 0;
      ret := SendFlight(bio, mtu, flushed);
    }
  }

  /** The first `at` bytes of the packet are the records `xs`. */
  ghost predicate InPacket(packet: array<byte>, at: nat, xs: seq<Sealed>)
    reads packet
  {
    at <= packet.Length && AllWellFormed(xs) && packet[..at] == PacketBytes(xs) && (at > 0 <==> xs != [])
  }

  lemma PacketGrows(packet: array<byte>, at: nat, length: nat, done: seq<Sealed>, x: Sealed)
    requires InPacket(packet, at, done) && WellFormedSealed(x)
    requires Written(Some(length), packet, at, packet.Length - at, Some(x))
    ensures length == |Wire(x)| && InPacket(packet, at + length, done + [x])
  {
    PacketBytesAppend(done, x);
    assert packet[..at + length] == packet[..at] + packet[at..at + length];
  }

  ghost function Prefixed(done: seq<Sealed>, g: Progress): Progress {
    g.(recs := done + g.recs)
  }
}
