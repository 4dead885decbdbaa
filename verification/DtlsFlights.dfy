/** What a run of the sending side queues and sends, told from its operations
    alone: which messages make up the flight, with which numbers, and under
    which epoch each goes out. */
module DtlsFlights {
  import opened Wrappers
  import opened DtlsWire
  import opened DtlsRecordFormat
  import opened DtlsWriterSpec
  import opened DtlsWriterRuns
  import opened Paths

  // ---------------------------------------------------------------- told from the operations

  /** How often the write keys have changed. */
  function KeyChanges(ops: seq<Op>): nat {
    if ops == [] then 0
    else KeyChanges(ops[..|ops| - 1]) + if ops[|ops| - 1].SetWriteState? then 1 else 0
  }

  predicate Adds(op: Op) {
    op.AddMessage? || op.AddCcs?
  }

  /** The flight has been flushed since something was last added. */
  predicate FlightClosed(ops: seq<Op>) {
    ops != [] &&
    var op := ops[|ops| - 1];
    op.Flush? || (!Adds(op) && FlightClosed(ops[..|ops| - 1]))
  }

  /** The current flight, as positions in the run of what was added: seven at
      most since the last flight was closed. */
  function FlightOps(ops: seq<Op>): (js: seq<nat>)
    ensures |js| <= 7 && forall j | j in js :: j < |ops| && Adds(ops[j])
  {
    if ops == [] then []
    else
      var before := ops[..|ops| - 1];
      var open := if FlightClosed(before) then [] else FlightOps(before);
      if !Adds(ops[|ops| - 1]) then FlightOps(before)
      else if |open| >= 7 then open
      else open + [|ops| - 1]
  }

  /** How many messages have been added, and not refused. */
  function Messages(ops: seq<Op>): nat {
    if ops == [] then 0
    else
      var before := ops[..|ops| - 1];
      var full := !FlightClosed(before) && |FlightOps(before)| >= 7;
      Messages(before) + if ops[|ops| - 1].AddMessage? && !full then 1 else 0
  }

  /** What an operation queues after a run: a ChangeCipherSpec, or the message
      under its number; and the epoch, which is how often the keys have changed. */
  function AddedItem(before: seq<Op>, op: Op): OutMsg
    requires Adds(op) && OpOk(op)
  {
    if op.AddCcs? then OutMsg([], KeyChanges(before) % 0x1_0000, true)
    else OutMsg(SerializeFragment(FragmentOf(op.m, Messages(before) % 0x1_0000)), KeyChanges(before) % 0x1_0000, false)
  }

  /** What operation j has queued. */
  function Item(ops: seq<Op>, j: nat): OutMsg
    requires j < |ops| && Adds(ops[j]) && OpOk(ops[j])
  {
    AddedItem(ops[..j], ops[j])
  }

  ghost predicate AllOk(ops: seq<Op>) {
    forall op | op in ops :: OpOk(op)
  }

  lemma ItemStays(ops: seq<Op>, more: seq<Op>, j: nat)
    requires AllOk(ops + more) && j < |ops| && Adds(ops[j])
    ensures OpOk(ops[j]) && OpOk((ops + more)[j]) && Item(ops + more, j) == Item(ops, j)
  {
    assert (ops + more)[..j] == ops[..j] && (ops + more)[j] in ops + more;
  }

  // ---------------------------------------------------------------- the queue is what was added

  /** The queue after a run, its numbers and its epoch. */
  ghost predicate QueueIs(w: Writer, ops: seq<Op>)
    requires AllOk(ops)
  {
    && w.keys.epoch == KeyChanges(ops) % 0x1_0000 && w.msgSeq == Messages(ops) % 0x1_0000
    && w.complete == FlightClosed(ops) && |w.outgoing| == |FlightOps(ops)|
    && forall k | 0 <= k < |w.outgoing| :: ItemIs(ops, FlightOps(ops)[k], w.outgoing[k])
  }

  ghost predicate ItemIs(ops: seq<Op>, j: nat, m: OutMsg) {
    j < |ops| && Adds(ops[j]) && OpOk(ops[j]) && m == Item(ops, j)
  }

  lemma ItemsStay(ops: seq<Op>, op: Op, js: seq<nat>, out: seq<OutMsg>)
    requires AllOk(ops + [op]) && |js| == |out| && forall k | 0 <= k < |js| :: ItemIs(ops, js[k], out[k])
    ensures forall k | 0 <= k < |js| :: ItemIs(ops + [op], js[k], out[k])
  {
    forall k | 0 <= k < |js| ensures ItemIs(ops + [op], js[k], out[k]) {
      assert ItemIs(ops, js[k], out[k]);
      ItemStays(ops, [op], js[k]);
    }
  }

  lemma NewestItem(ops: seq<Op>, op: Op)
    requires AllOk(ops + [op]) && Adds(op)
    ensures OpOk(op)
    ensures ItemIs(ops + [op], |ops|, AddedItem(ops, op))
  {
    assert (ops + [op])[|ops|] == op && op in ops + [op] && (ops + [op])[..|ops|] == ops;
  }

  lemma AddedIs(ops: seq<Op>, op: Op)
    ensures var all := ops + [op];
            && KeyChanges(all) == KeyChanges(ops) + (if op.SetWriteState? then 1 else 0)
            && FlightClosed(all) == (op.Flush? || (!Adds(op) && FlightClosed(ops)))
            && var open := if FlightClosed(ops) then [] else FlightOps(ops);
               && FlightOps(all) == (if !Adds(op) then FlightOps(ops) else if |open| >= 7 then open else open + [|ops|])
               && Messages(all) == Messages(ops) + (if op.AddMessage? && |open| < 7 then 1 else 0)
  {
    assert (ops + [op])[..|ops|] == ops;
  }

  lemma StepQueues(w: Writer, tape: Tape, ops: seq<Op>, op: Op)
    requires WriterInv(w) && AllOk(ops + [op]) && AllOk(ops) && OpOk(op) && QueueIs(w, ops)
    ensures QueueIs(Step(w, tape, op).0, ops + [op])
  {
    hide *;
    if Adds(op) {
      AddingQueues(w, tape, ops, op);
    } else {
      SendingKeepsQueue(w, tape, ops, op);
    }
  }

  lemma AddingQueues(w: Writer, tape: Tape, ops: seq<Op>, op: Op)
    requires WriterInv(w) && AllOk(ops + [op]) && AllOk(ops) && OpOk(op) && QueueIs(w, ops) && Adds(op)
    ensures QueueIs(Step(w, tape, op).0, ops + [op])
  {
    hide Step, WriterInv, OpOk, AllOk, QueueIs, AddedItem, ItemIs, KeyChanges, FlightOps, FlightClosed, Messages;
    AddedIs(ops, op);
    QueueParts(w, ops);
    var open := if FlightClosed(ops) then [] else FlightOps(ops);
    var out := if w.complete then [] else w.outgoing;
    assert |open| == |out| && forall k | 0 <= k < |open| :: ItemIs(ops, open[k], out[k]);
    ItemsStay(ops, op, open, out);
    NewestItem(ops, op);
    StepAdds(w, tape, ops, op);
    IsQueue(Step(w, tape, op).0, ops + [op]);
  }

  lemma SendingKeepsQueue(w: Writer, tape: Tape, ops: seq<Op>, op: Op)
    requires WriterInv(w) && AllOk(ops + [op]) && AllOk(ops) && OpOk(op) && QueueIs(w, ops) && !Adds(op)
    ensures QueueIs(Step(w, tape, op).0, ops + [op])
  {
    hide Step, WriterInv, OpOk, AllOk, QueueIs, AddedItem, ItemIs, KeyChanges, FlightOps, FlightClosed, Messages;
    AddedIs(ops, op);
    QueueParts(w, ops);
    ItemsStay(ops, op, FlightOps(ops), w.outgoing);
    StepSendsOnly(w, tape, op);
    IsQueue(Step(w, tape, op).0, ops + [op]);
  }

  lemma QueueParts(w: Writer, ops: seq<Op>)
    requires AllOk(ops) && QueueIs(w, ops)
    ensures w.keys.epoch == KeyChanges(ops) % 0x1_0000 && w.msgSeq == Messages(ops) % 0x1_0000
    ensures w.complete == FlightClosed(ops) && |w.outgoing| == |FlightOps(ops)|
    ensures forall k | 0 <= k < |w.outgoing| :: ItemIs(ops, FlightOps(ops)[k], w.outgoing[k])
  {
    hide ItemIs;
  }

  lemma IsQueue(w: Writer, ops: seq<Op>)
    requires AllOk(ops)
    requires w.keys.epoch == KeyChanges(ops) % 0x1_0000 && w.msgSeq == Messages(ops) % 0x1_0000
    requires w.complete == FlightClosed(ops) && |w.outgoing| == |FlightOps(ops)|
    requires forall k | 0 <= k < |w.outgoing| :: ItemIs(ops, FlightOps(ops)[k], w.outgoing[k])
    ensures QueueIs(w, ops)
  {
    hide ItemIs;
  }

  lemma StepSendsOnly(w: Writer, tape: Tape, op: Op)
    requires WriterInv(w) && OpOk(op) && !Adds(op)
    ensures var w' := Step(w, tape, op).0;
            && w'.outgoing == w.outgoing && w'.msgSeq == w.msgSeq && w'.complete == (w.complete || op.Flush?)
            && w'.keys.epoch == if op.SetWriteState? then (w.keys.epoch + 1) % 0x1_0000 else w.keys.epoch
  {
    hide SendFlight, SealRecord, PosInv;
    match op
    case Flush(mtu, bio, calls) => SendFlightCarries(w.keys, tape, w.outgoing, w.pos, mtu, bio, calls);
    case Retransmit(mtu, bio, calls) =>
      BeginningOk(w);
      SendFlightCarries(w.keys, tape, w.outgoing, Pos(0, 0), mtu, bio, calls);
    case AppData(plain, maxOut) => SealRecordFacts(w.keys, tape, Current, RT_APPLICATION_DATA, plain, maxOut);
    case _ =>
  }

  lemma StepAdds(w: Writer, tape: Tape, ops: seq<Op>, op: Op)
    requires WriterInv(w) && OpOk(op) && Adds(op) && w.keys.epoch == KeyChanges(ops) % 0x1_0000 && w.msgSeq == Messages(ops) % 0x1_0000
    ensures var w' := Step(w, tape, op).0;
            var out := if w.complete then [] else w.outgoing;
            && w'.keys == w.keys && !w'.complete
            && if |out| >= 7 then w'.outgoing == out && w'.msgSeq == w.msgSeq
               else
                 && w'.msgSeq == (if op.AddMessage? then (w.msgSeq + 1) % 0x1_0000 else w.msgSeq)
                 && w'.outgoing == out + [AddedItem(ops, op)]
  {
    hide SendFlight, SealRecord, KeysInv, PosInv;
    if op.AddMessage? {
      FinishedMessage(op.m, w.msgSeq);
      FragmentLength(op.m, w.msgSeq);
    }
  }

  lemma FragmentLength(m: Message, n: nat)
    requires |m.body| < 0x100_0000 && n < 0x1_0000
    ensures |FinishMessage(InitMessage(m, n))| <= 0xffff_ffff
  {
  }

  /** Along every run the queue holds what was added since the last flight was
      closed, in order and numbered, each with the number of key changes before
      it. */
  lemma {:induction false} QueueIsWhatWasAdded(aead: Aead, tape: Tape, ops: seq<Op>)
    requires aead.version < 0x1_0000 && AllOk(ops)
    ensures QueueIs(Run(Initial(aead), tape, ops).0, ops)
    decreases |ops|
  {
    hide QueueIs, Step;
    if ops == [] {
      InitialQueue(aead);
    } else {
      var before, op := ops[..|ops| - 1], ops[|ops| - 1];
      assert before + [op] == ops && op in ops && forall o | o in before :: o in ops;
      QueueIsWhatWasAdded(aead, tape, before);
      StepQueues(Run(Initial(aead), tape, before).0, tape, before, op);
    }
  }

  lemma InitialQueue(aead: Aead)
    ensures QueueIs(Initial(aead), [])
  {
  }

  // ---------------------------------------------------------------- where it goes

  /** The record carries all or part of what operation j has queued. */
  ghost predicate CarriesOp(ops: seq<Op>, j: nat, x: Sealed) {
    && j < |ops| && Adds(ops[j]) && OpOk(ops[j])
    && exists off: nat, end: Option<nat> :: CarriesMessage(Item(ops, j), off, x, end)
  }

  /** The record is the application data of operation j, under the epoch then. */
  predicate HoldsData(ops: seq<Op>, j: nat, x: Sealed) {
    && j < |ops| && ops[j].AppData? && WellFormedSealed(x) && x.params.typ == RT_APPLICATION_DATA
    && x.plain == ops[j].plain && EpochOf(x.params.sequence) == KeyChanges(ops[..j]) % 0x1_0000
  }

  ghost predicate Accounted(ops: seq<Op>, x: Sealed) {
    if x.params.typ == RT_APPLICATION_DATA then exists j: nat :: HoldsData(ops, j, x)
    else exists j: nat :: CarriesOp(ops, j, x)
  }

  lemma StillAccounted(ops: seq<Op>, op: Op, x: Sealed)
    requires AllOk(ops + [op]) && Accounted(ops, x)
    ensures Accounted(ops + [op], x)
  {
    if x.params.typ == RT_APPLICATION_DATA {
      var j: nat :| HoldsData(ops, j, x);
      assert (ops + [op])[..j] == ops[..j];
      assert HoldsData(ops + [op], j, x);
    } else {
      var j: nat :| CarriesOp(ops, j, x);
      ItemStays(ops, [op], j);
      assert CarriesOp(ops + [op], j, x);
    }
  }

  lemma QueuedAccounted(w: Writer, ops: seq<Op>)
    requires AllOk(ops) && QueueIs(w, ops)
    ensures CarriersAre(w.outgoing, x => Accounted(ops, x))
  {
    hide Item;
    forall m, off, x, end | m in w.outgoing && CarriesMessage(m, off, x, end) ensures Accounted(ops, x) {
      var k :| 0 <= k < |w.outgoing| && w.outgoing[k] == m;
      assert ItemIs(ops, FlightOps(ops)[k], m);
      assert CarriesOp(ops, FlightOps(ops)[k], x);
    }
  }

  lemma StepAccounted(w: Writer, tape: Tape, ops: seq<Op>, op: Op)
    requires WriterInv(w) && AllOk(ops) && AllOk(ops + [op]) && OpOk(op) && QueueIs(w, ops)
    ensures forall x | x in Step(w, tape, op).1 :: Accounted(ops + [op], x)
  {
    hide SendFlight, SealRecord, QueueIs, PosInv, KeysInv, CarriesMessage, AllOk;
    QueuedAccounted(w, ops);
    QueueParts(w, ops);
    var all := ops + [op];
    forall x | Accounted(ops, x) ensures Accounted(all, x) {
      StillAccounted(ops, op, x);
    }
    match op
    case Flush(mtu, bio, calls) =>
      SendFlightAll(w.keys, tape, w.outgoing, w.pos, mtu, bio, calls, x => Accounted(ops, x));
    case Retransmit(mtu, bio, calls) =>
      BeginningOk(w);
      SendFlightAll(w.keys, tape, w.outgoing, Pos(0, 0), mtu, bio, calls, x => Accounted(ops, x));
    case AppData(plain, maxOut) =>
      SealRecordFacts(w.keys, tape, Current, RT_APPLICATION_DATA, plain, maxOut);
      assert all[..|ops|] == ops && all[|ops|] == op;
      forall x | x in Step(w, tape, op).1 ensures Accounted(all, x) {
        assert HoldsData(all, |ops|, x);
      }
    case _ =>
  }

  lemma BeginningOk(w: Writer)
    requires WriterInv(w)
    ensures KeysInv(w.keys) && PosInv(w.outgoing, Pos(0, 0))
  {
  }

  lemma {:induction false} LogAccounted(aead: Aead, tape: Tape, ops: seq<Op>)
    requires aead.version < 0x1_0000 && AllOk(ops)
    ensures forall x | x in Run(Initial(aead), tape, ops).1 :: Accounted(ops, x)
    decreases |ops|
  {
    hide QueueIs, Step, Accounted;
    if ops == [] {
    } else {
      var before, op := ops[..|ops| - 1], ops[|ops| - 1];
      assert before + [op] == ops && op in ops && forall o | o in before :: o in ops;
      LogAccounted(aead, tape, before);
      QueueIsWhatWasAdded(aead, tape, before);
      var (w, log) := Run(Initial(aead), tape, before);
      StepAccounted(w, tape, before, op);
      forall x | x in Run(Initial(aead), tape, ops).1 ensures Accounted(ops, x) {
        if x in log {
          StillAccounted(before, op, x);
        } else {
          assert x in Step(w, tape, op).1;
        }
      }
    }
  }

  /** Every record of a run but those of application data carries a
      ChangeCipherSpec or a piece of a message that some operation of the run
      has added, and goes out under the epoch whose number is how often the
      write keys had changed before that operation. */
  lemma RecordsUnderTheirEpoch(aead: Aead, tape: Tape, ops: seq<Op>, x: Sealed) returns (j: nat)
    requires aead.version < 0x1_0000 && AllOk(ops)
    requires x in Run(Initial(aead), tape, ops).1 && x.params.typ != 23
    ensures j < |ops| && WellFormedSealed(x)
    ensures EpochOf(x.params.sequence) == KeyChanges(ops[..j]) % 0x1_0000
    ensures ops[j].AddCcs? || ops[j].AddMessage?
    ensures ops[j].AddCcs? ==> x.params.typ == 20 && x.plain == [1]
    ensures ops[j].AddMessage? ==>
              && x.params.typ == 22 && |ops[j].m.body| < 0x100_0000
              && exists off: nat, end: nat :: HoldsPiece(x, FragmentOf(ops[j].m, Messages(ops[..j]) % 0x1_0000), off, end)
  {
    LogAccounted(aead, tape, ops);
    j :| CarriesOp(ops, j, x);
    var off: nat, end: Option<nat> :| CarriesMessage(Item(ops, j), off, x, end);
    if ops[j].AddMessage? {
      var n := Messages(ops[..j]) % 0x1_0000;
      QueuedMessage(ops[j].m, n, KeyChanges(ops[..j]) % 0x1_0000);
      var f := FragmentOf(ops[j].m, n);
      assert HoldsPiece(x, f, off, if end == None then |f.body| else end.value);
    }
  }

  /** Application data goes out as it is, under the epoch whose number is how often
      the keys had changed before it was written. */
  lemma DataUnderItsEpoch(aead: Aead, tape: Tape, ops: seq<Op>, x: Sealed) returns (j: nat)
    requires aead.version < 0x1_0000 && AllOk(ops)
    requires x in Run(Initial(aead), tape, ops).1 && x.params.typ == 23
    ensures j < |ops| && ops[j].AppData? && x.plain == ops[j].plain && WellFormedSealed(x)
    ensures EpochOf(x.params.sequence) == KeyChanges(ops[..j]) % 0x1_0000
  {
    hide Run;
    LogAccounted(aead, tape, ops);
    j :| HoldsData(ops, j, x);
  }
}
