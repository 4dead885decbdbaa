/** Progress in the world of both ends: every record the sender has made is one
    of its run, what the network delivers is accepted exactly if it is fresh, a
    ChangeCipherSpec gets through, and a complete message is handed out. */
module DtlsWorld {
  import opened Wrappers
  import opened DtlsWire
  import opened DtlsReassembly
  import opened DtlsRecordFormat
  import opened DtlsReplay
  import opened DtlsReaderSpec
  import R = DtlsReaderRuns
  import opened DtlsWriterSpec
  import opened DtlsWriterRuns
  import opened DtlsFlights
  import opened DtlsEndToEnd
  import opened DtlsReceives
  import opened DtlsDelivery

  // ---------------------------------------------------------------- the sender's part of a run

  function OpsOf(mvs: seq<Move>): seq<Op> {
    if mvs == [] then []
    else
      var mv := mvs[|mvs| - 1];
      OpsOf(mvs[..|mvs| - 1]) + if mv.Send? then [mv.op] else []
  }

  lemma {:induction false} SenderRuns(env: Env, mvs: seq<Move>, xs: seq<World>, n: nat)
    requires KeysLawful(env.keys) && IsRun(env, mvs, xs) && n <= |mvs|
    ensures AllOk(OpsOf(mvs[..n])) && env.keys(0).version < 0x1_0000
    ensures (xs[n].w, xs[n].log) == Run(DtlsWriterRuns.Initial(env.keys(0)), env.tape, OpsOf(mvs[..n]))
  {
    hide DtlsWriterRuns.Step, R.Step, RingInv, HasCurrent, KeysInv;
    assert Lawful(env.keys(0));
    if n == 0 {
      assert mvs[..0] == [];
    } else {
      SenderRuns(env, mvs, xs, n - 1);
      var y, mv, ops := xs[n - 1], mvs[n - 1], OpsOf(mvs[..n - 1]);
      assert Leads(env, y, mv, xs[n]);
      assert mvs[..n][..n - 1] == mvs[..n - 1];
      if mv.Send? {
        assert (ops + [mv.op])[..|ops|] == ops;
      } else {
        assert ops + [] == ops;
        OnlySendsSend(env, y, mv);
      }
    }
  }

  lemma OnlySendsSend(env: Env, y: World, mv: Move)
    requires DtlsEndToEnd.Shape(y) && MoveOk(env, y, mv) && !mv.Send?
    ensures Next(env, y, mv).w == y.w && Next(env, y, mv).log == y.log
  {
    hide R.Step, RingInv, HasCurrent;
  }

  /** In every run each record but those of application data carries what some
      operation before it has added, under the epoch whose number is how often
      the write keys had changed by then. */
  lemma WorldRecordsUnderTheirEpoch(env: Env, mvs: seq<Move>, xs: seq<World>, n: nat, z: Sealed) returns (j: nat)
    requires KeysLawful(env.keys) && IsRun(env, mvs, xs) && n <= |mvs| && z in xs[n].log && z.params.typ != 23
    ensures var ops := OpsOf(mvs[..n]);
            && j < |ops| && WellFormedSealed(z)
            && EpochOf(z.params.sequence) == KeyChanges(ops[..j]) % 0x1_0000
            && (ops[j].AddCcs? || ops[j].AddMessage?)
            && (ops[j].AddCcs? ==> z.params.typ == 20 && z.plain == [1])
            && (ops[j].AddMessage? ==>
                  && z.params.typ == 22 && |ops[j].m.body| < 0x100_0000
                  && exists off: nat, end: nat :: HoldsPiece(z, FragmentOf(ops[j].m, DtlsFlights.Messages(ops[..j]) % 0x1_0000), off, end))
  {
    hide Run, HoldsPiece, WellFormedSealed;
    SenderRuns(env, mvs, xs, n);
    j := RecordsUnderTheirEpoch(env.keys(0), env.tape, OpsOf(mvs[..n]), z);
  }

  // ---------------------------------------------------------------- what the network delivers

  /** The record is fresh for the receiver: of its epoch, a version it takes, not
      64 or more behind, not seen before, and of proper size. */
  ghost predicate FreshFor(rd: Reader, z: Sealed)
    requires |z.params.sequence| == 8
  {
    && !rd.closed && EpochOf(z.params.sequence) == rd.epoch
    && (if rd.aead.isNull then z.params.version / 0x100 == 0xfe else z.params.version == rd.aead.version)
    && ToU64(z.params.sequence) + 64 > rd.window.max && ToU64(z.params.sequence) !in rd.window.seen
    && |z.body| <= 16704 && |z.plain| <= 16384
  }

  lemma WireParts(z: Sealed, tail: seq<byte>)
    requires WellFormedSealed(z)
    ensures var s := Wire(z) + tail;
            && |s| >= 13 && s[0] == z.params.typ && s[11] as int * 0x100 + s[12] as int == |z.body|
            && HeaderOf(s) == z.params && s[13..13 + |z.body|] == z.body && s[3..11] == z.params.sequence
            && s[1] as int == z.params.version / 0x100
            && s[3] as int * 0x100 + s[4] as int == EpochOf(z.params.sequence)
  {
    var s := Wire(z) + tail;
    assert s[1..3] == U16(z.params.version) && s[11..13] == U16(|z.body|);
    ReadU16OfU16(z.params.version);
    ReadU16OfU16(|z.body|);
    assert s[3..11] == z.params.sequence;
    assert s[13..13 + |z.body|] == z.body;
  }

  /** What is delivered is accepted exactly if it is fresh, whatever bytes are
      behind it, and opens to what was sealed. */
  lemma DeliveredExactly(env: Env, x: World, a: Arrival)
    requires KeysLawful(env.keys) && Inv(env, x) && a.i < |x.log|
    ensures var z := x.log[a.i];
            && WellFormedSealed(z)
            && (Acceptable(x.rd, Wire(z) + a.tail) <==> FreshFor(x.rd, z))
            && (FreshFor(x.rd, z) ==> x.rd.aead.open(HeaderOf(Wire(z) + a.tail), BodyOf(Wire(z) + a.tail)) == Some(z.plain))
  {
    hide SerializeRecord, GenuineRecord, GenuineRing, GotPrefix, QueueGenuine, RingInv, ToU64;
    var z := x.log[a.i];
    assert SealedUnder(env.keys, z);
    WireParts(z, a.tail);
    if EpochOf(z.params.sequence) == x.rd.epoch {
      assert Lawful(x.rd.aead) && SealedOk(x.rd.aead, z.params, z.plain, z.body);
    }
  }

  /** A fresh handshake record is accepted: the deliveries that make a flight
      complete need no more than that. */
  lemma FreshIsAccepted(env: Env, x: World, a: Arrival)
    requires KeysLawful(env.keys) && Inv(env, x) && a.i < |x.log| && x.log[a.i].params.typ != 21
    ensures WellFormedSealed(x.log[a.i]) && (Accepted(x, a) <==> FreshFor(x.rd, x.log[a.i]))
  {
    hide OpenRecord, Acceptable, Inv, SerializeRecord, FreshFor;
    DeliveredExactly(env, x, a);
    WireParts(x.log[a.i], a.tail);
    AcceptedExactly(x.rd, Wire(x.log[a.i]) + a.tail);
  }

  /** The sender's ChangeCipherSpec gets through: once delivered fresh to a
      receiver without keys, the handshake is given one when it next asks. */
  lemma CcsGetsThrough(env: Env, mvs: seq<Move>, xs: seq<World>, n: nat, a: Arrival, next: seq<byte>)
    requires KeysLawful(env.keys) && IsRun(env, mvs, xs) && n <= |mvs| && MessagesOk(xs[n].msgs)
    requires a.i < |xs[n].log| && xs[n].log[a.i].params.typ == 20 && xs[n].rd.aead.isNull
    requires |xs[n].log[a.i].params.sequence| == 8 && FreshFor(xs[n].rd, xs[n].log[a.i])
    ensures DtlsEndToEnd.Shape(xs[n]) && MoveOk(env, xs[n], Deliver(a.i, a.tail))
    ensures var y := Next(env, xs[n], Deliver(a.i, a.tail));
            y.rd.hasCcs && OpenCcs(y.rd, env.maxLen, next) == (y.rd.(hasCcs := false), HandshakeSuccess, 0)
  {
    hide Run, Acceptable, OpenHandshake, SerializeRecord, FreshFor, TakeFragments, GenuineRing, GotPrefix, RingInv;
    var x := xs[n];
    InvAlways(env, mvs, xs, n);
    var z := x.log[a.i];
    var j := WorldRecordsUnderTheirEpoch(env, mvs, xs, n, z);
    DeliveredExactly(env, x, a);
    WireParts(z, a.tail);
    var s := Wire(z) + a.tail;
    assert IsCcs(x.rd, s);
    KindsExactly(x.rd, env.maxLen, s);
  }

  // ---------------------------------------------------------------- what is handed out

  /** A complete message with the next number is handed out when the handshake
      asks, and it is the one sent under that number. */
  lemma CompleteIsHanded(env: Env, x: World)
    requires Inv(env, x) && |x.got| < |x.msgs|
    requires var slot := x.rd.ring.slots[|x.got| % 7]; slot.Some? && slot.value.seqNo == |x.got| && slot.value.Complete()
    ensures Next(env, x, Take).got == x.got + [AsSent(x.msgs, |x.got|)]
    ensures Next(env, x, Take).rd.ring.readSeq == |x.got| + 1
  {
    hide LogSealed, LogGenuine, QueueGenuine, WriterInv, KeysInv;
    var p := x.rd.ring.slots[|x.got| % 7].value;
    assert GenuinePartial(x.msgs, p);
    HandedIsAsSent(x.msgs, p);
  }
}
