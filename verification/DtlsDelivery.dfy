/** The other half of reliability: once every packet of a flight has arrived,
    in any order and any number of times, all its messages are complete. */
module DtlsDelivery {
  import opened Wrappers
  import opened DtlsWire
  import opened DtlsReassembly
  import opened DtlsRecordFormat
  import opened DtlsReaderSpec
  import opened DtlsWriterSpec
  import opened DtlsWriterRuns
  import opened DtlsEndToEnd
  import opened Paths

  // ---------------------------------------------------------------- what a flight covers

  /** Some record holds byte i of `f`, or, for an empty body, all of `f`. */
  ghost predicate Held(xs: seq<Sealed>, f: Fragment, i: nat) {
    exists x, off: nat, end: nat :: x in xs && HoldsPiece(x, f, off, end) && (off <= i < end || end == |f.body| == 0)
  }

  lemma {:induction false} PathHolds(msgs: seq<OutMsg>, p: Pos, xs: seq<Sealed>, k: nat, i: nat)
    requires CarryAll(msgs, p, xs, Pos(|msgs|, 0))
    requires p.msg <= k < |msgs| && !msgs[k].isCcs && QueuedFragment(msgs[k]).Some?
    requires var f := QueuedFragment(msgs[k]).value;
             (i < |f.body| || |f.body| == 0) && (k == p.msg ==> p.off <= i)
    ensures Held(xs, QueuedFragment(msgs[k]).value, i)
    decreases |xs|
  {
    hide QueuedFragment, HoldsPiece;
    var f := QueuedFragment(msgs[k]).value;
    var q :| CarriesStep(msgs)(p, xs[0], q) && Path(CarriesStep(msgs), q, xs[1..], Pos(|msgs|, 0));
    var end := if q.msg == p.msg then q.off else |f.body|;
    if k == p.msg && i < end {
      assert HoldsPiece(xs[0], f, p.off, end);
    } else if k == p.msg && q.msg != p.msg {
      assert HoldsPiece(xs[0], f, p.off, |f.body|);
    } else {
      PathHolds(msgs, q, xs[1..], k, i);
      var x, off: nat, stop: nat :| x in xs[1..] && HoldsPiece(x, f, off, stop) && (off <= i < stop || stop == |f.body| == 0);
      assert x in xs;
    }
  }

  // ---------------------------------------------------------------- what arrives

  /** Fragments arriving in a ring whose window they all lie in. */
  ghost predicate InWindow(msgs: seq<Message>, r: Ring, epoch: nat, maxLen: nat, f: Fragment) {
    && GenuineFragment(msgs, f) && f.hdr.msgLen <= maxLen
    && r.readSeq <= f.hdr.seqNo < r.readSeq + MAX_HANDSHAKE_FLIGHT
    && (epoch == 1 ==> f.hdr.seqNo == r.readSeq)
  }

  ghost function TakeAll(msgs: seq<Message>, r: Ring, epoch: nat, maxLen: nat, fs: seq<Fragment>): (r': Ring)
    requires RingInv(r) && GenuineRing(msgs, r) && forall f | f in fs :: InWindow(msgs, r, epoch, maxLen, f)
    ensures RingInv(r') && GenuineRing(msgs, r') && r'.readSeq == r.readSeq
    decreases |fs|
  {
    if fs == [] then r
    else
      var q := TakeAll(msgs, r, epoch, maxLen, fs[..|fs| - 1]);
      var f := fs[|fs| - 1];
      assert InWindow(msgs, r, epoch, maxLen, f);
      TakeGenuineFragment(msgs, q, epoch, maxLen, f);
      TakeFragment(q, epoch, maxLen, f).value
  }

  ghost predicate Present(r: Ring, n: nat, i: nat)
    requires RingInv(r)
  {
    var slot := r.slots[SlotOf(n)];
    slot.Some? && slot.value.seqNo == n && (i in slot.value.got || slot.value.Complete())
  }

  /** Whatever has arrived stays, and a fragment just taken is present. */
  lemma TakeFragmentPresent(msgs: seq<Message>, r: Ring, epoch: nat, maxLen: nat, f: Fragment, n: nat, i: nat)
    requires RingInv(r) && GenuineRing(msgs, r) && InWindow(msgs, r, epoch, maxLen, f)
    requires Present(r, n, i) || (f.hdr.seqNo == n && (f.hdr.fragOff <= i < f.hdr.fragOff + f.hdr.fragLen || f.hdr.msgLen == 0))
    ensures TakeFragment(r, epoch, maxLen, f).Ok?
    ensures var r' := TakeFragment(r, epoch, maxLen, f).value; RingInv(r') && Present(r', n, i)
  {
    TakeGenuineFragment(msgs, r, epoch, maxLen, f);
    TakeFragmentKeepsRing(r, epoch, maxLen, f);
    var p := IncomingMessage(r, f.hdr).value;
    var p' := AddBytes(p, f.hdr.fragOff, f.body);
    if f.hdr.seqNo == n && !p.Complete() && f.hdr.fragOff <= i < f.hdr.fragOff + f.hdr.fragLen {
      assert i in Placed(f.hdr.fragOff, f.body);
    }
  }

  lemma {:induction false} TakeAllPresent(msgs: seq<Message>, r: Ring, epoch: nat, maxLen: nat, fs: seq<Fragment>, g: Fragment, i: nat)
    requires RingInv(r) && GenuineRing(msgs, r) && forall f | f in fs :: InWindow(msgs, r, epoch, maxLen, f)
    requires g in fs && (g.hdr.fragOff <= i < g.hdr.fragOff + g.hdr.fragLen || g.hdr.msgLen == 0)
    ensures Present(TakeAll(msgs, r, epoch, maxLen, fs), g.hdr.seqNo, i)
    decreases |fs|
  {
    hide Present, GenuineFragment, GenuineRing;
    var before, f := fs[..|fs| - 1], fs[|fs| - 1];
    var q := TakeAll(msgs, r, epoch, maxLen, before);
    assert InWindow(msgs, r, epoch, maxLen, f) && InWindow(msgs, q, epoch, maxLen, f);
    if g in before {
      TakeAllPresent(msgs, r, epoch, maxLen, before, g, i);
    }
    TakeFragmentPresent(msgs, q, epoch, maxLen, f, g.hdr.seqNo, i);
  }

  /** Every piece of the flight that the records `xs` hold is among `fs`. */
  ghost predicate AllDelivered(xs: seq<Sealed>, fs: seq<Fragment>) {
    forall x, f, off: nat, end: nat | x in xs && HoldsPiece(x, f, off, end) :: Cut(f, off, end - off) in fs
  }

  lemma ByteArrives(msgs: seq<Message>, out: seq<OutMsg>, xs: seq<Sealed>, r: Ring, epoch: nat, maxLen: nat, fs: seq<Fragment>, k: nat, i: nat)
    requires CarryAll(out, Pos(0, 0), xs, Pos(|out|, 0))
    requires RingInv(r) && GenuineRing(msgs, r) && forall f | f in fs :: InWindow(msgs, r, epoch, maxLen, f)
    requires AllDelivered(xs, fs)
    requires k < |out| && !out[k].isCcs && QueuedFragment(out[k]).Some?
    requires i < |QueuedFragment(out[k]).value.body| || |QueuedFragment(out[k]).value.body| == 0
    ensures Present(TakeAll(msgs, r, epoch, maxLen, fs), QueuedFragment(out[k]).value.hdr.seqNo, i)
    ensures var f := QueuedFragment(out[k]).value; f.hdr.seqNo < |msgs| && |msgs[f.hdr.seqNo].body| == |f.body|
  {
    hide CarryAll, QueuedFragment, TakeAll, Present, GenuineRing;
    var f := QueuedFragment(out[k]).value;
    PathHolds(out, Pos(0, 0), xs, k, i);
    var x, off: nat, end: nat :| x in xs && HoldsPiece(x, f, off, end) && (off <= i < end || end == |f.body| == 0);
    var g := Cut(f, off, end - off);
    assert g in fs && InWindow(msgs, r, epoch, maxLen, g);
    TakeAllPresent(msgs, r, epoch, maxLen, fs, g, i);
  }

  /** If the records of a flight carry it from start to end (as those of a
      successful dtls1_flush_flight do) and every one is delivered, in whatever
      order and however often, then each of its messages is complete at the
      receiver, provided they lie in the receiver's window. */
  lemma FlightArrives(msgs: seq<Message>, out: seq<OutMsg>, xs: seq<Sealed>, r: Ring, epoch: nat, maxLen: nat, fs: seq<Fragment>, k: nat)
    requires CarryAll(out, Pos(0, 0), xs, Pos(|out|, 0))
    requires RingInv(r) && GenuineRing(msgs, r) && forall f | f in fs :: InWindow(msgs, r, epoch, maxLen, f)
    requires AllDelivered(xs, fs)
    requires k < |out| && !out[k].isCcs && QueuedFragment(out[k]).Some?
    ensures var f := QueuedFragment(out[k]).value;
            var slot := TakeAll(msgs, r, epoch, maxLen, fs).slots[SlotOf(f.hdr.seqNo)];
            slot.Some? && slot.value.seqNo == f.hdr.seqNo && slot.value.Complete()
  {
    hide CarryAll, QueuedFragment, TakeAll, HoldsPiece, InWindow, AllDelivered;
    var f := QueuedFragment(out[k]).value;
    var r' := TakeAll(msgs, r, epoch, maxLen, fs);
    ByteArrives(msgs, out, xs, r, epoch, maxLen, fs, k, 0);
    var slot := r'.slots[SlotOf(f.hdr.seqNo)];
    assert GenuinePartial(msgs, slot.value);
    forall i: nat | i < |f.body| ensures i in slot.value.got || slot.value.Complete() {
      ByteArrives(msgs, out, xs, r, epoch, maxLen, fs, k, i);
    }
  }

  // ---------------------------------------------------------------- in the world

  /** The network delivers record number i, and more bytes behind it. */
  datatype Arrival = Arrival(i: nat, tail: seq<byte>)

  ghost function After(env: Env, x: World, arrivals: seq<Arrival>): (y: World)
    requires KeysLawful(env.keys) && Inv(env, x) && forall a | a in arrivals :: a.i < |x.log|
    ensures Inv(env, y) && SameSender(x, y)
    decreases |arrivals|
  {
    if arrivals == [] then x
    else
      var y, a := After(env, x, arrivals[..|arrivals| - 1]), arrivals[|arrivals| - 1];
      DeliverKeeps(env, y, a.i, a.tail);
      DeliverChanges(env, y, a);
      Next(env, y, Deliver(a.i, a.tail))
  }

  /** What deliveries leave alone. */
  ghost predicate SameSender(x: World, y: World) {
    y.log == x.log && y.msgs == x.msgs && y.rd.epoch == x.rd.epoch && y.rd.ring.readSeq == x.rd.ring.readSeq
  }

  lemma DeliverChanges(env: Env, y: World, a: Arrival)
    requires Inv(env, y) && a.i < |y.log|
    ensures SameSender(y, Next(env, y, Deliver(a.i, a.tail)))
  {
    hide ParseRecord, SerializeRecord, GenuineRecord, RingInv, LogSealed, GotPrefix, QueueGenuine, GenuineRing;
  }

  /** The receiver opens the record: right epoch, not discarded, of proper size. */
  ghost predicate Accepted(y: World, a: Arrival) {
    a.i < |y.log| && WellFormedSealed(y.log[a.i]) && OpenRecord(y.rd, Wire(y.log[a.i]) + a.tail).0.OpenSuccess?
  }

  /** What a delivery does to the ring: at most it takes the one fragment that
      the record holds. */
  lemma DeliverTakes(env: Env, y: World, a: Arrival) returns (f: Option<Fragment>)
    requires KeysLawful(env.keys) && Inv(env, y) && a.i < |y.log|
    ensures Accepted(y, a) && y.log[a.i].params.typ == RT_HANDSHAKE ==> f.Some?
    ensures RingInv(y.rd.ring)
    ensures var r, r' := y.rd.ring, Next(env, y, Deliver(a.i, a.tail)).rd.ring;
            match f
            case None => r' == r
            case Some(g) =>
              && GenuineFragment(y.msgs, g) && y.log[a.i].plain == SerializeFragment(g)
              && r' == match TakeFragment(r, y.rd.epoch, env.maxLen, g) case Ok(q) => q case Err(_) => r
  {
    hide ParseRecord, SerializeRecord, RingInv, GotPrefix, QueueGenuine;
    var z := y.log[a.i];
    assert SealedUnder(env.keys, z) && GenuineRecord(y.msgs, z);
    OpenDelivered(env.keys, y.rd, z, a.tail);
    var verdict := OpenRecord(y.rd, Wire(z) + a.tail).0;
    assert Next(env, y, Deliver(a.i, a.tail)) == y.(rd := OpenHandshake(y.rd, env.maxLen, Wire(z) + a.tail).0);
    f := None;
    if verdict.OpenSuccess? && z.params.typ == RT_HANDSHAKE {
      var g :| GenuineFragment(y.msgs, g) && z.plain == SerializeFragment(g);
      TakeOneFragment(y.msgs, y.rd.ring, y.rd.epoch, env.maxLen, g);
      f := Some(g);
    }
  }

  /** Whatever arrives, what is present stays. */
  lemma PresentStays(r: Ring, epoch: nat, maxLen: nat, f: Fragment, n: nat, i: nat)
    requires RingInv(r) && WellFormedFragment(f) && Present(r, n, i) && TakeFragment(r, epoch, maxLen, f).Ok?
    ensures var r' := TakeFragment(r, epoch, maxLen, f).value; RingInv(r') && Present(r', n, i)
  {
    TakeFragmentKeepsRing(r, epoch, maxLen, f);
  }

  lemma DeliverPresent(env: Env, y: World, a: Arrival, n: nat, i: nat)
    requires KeysLawful(env.keys) && Inv(env, y) && a.i < |y.log| && Present(y.rd.ring, n, i)
    ensures Inv(env, Next(env, y, Deliver(a.i, a.tail))) && Present(Next(env, y, Deliver(a.i, a.tail)).rd.ring, n, i)
  {
    hide Inv, Next, Present, TakeFragment;
    DeliverKeeps(env, y, a.i, a.tail);
    InvRing(env, y);
    var f := DeliverTakes(env, y, a);
    if f.Some? && TakeFragment(y.rd.ring, y.rd.epoch, env.maxLen, f.value).Ok? {
      PresentStays(y.rd.ring, y.rd.epoch, env.maxLen, f.value, n, i);
    }
  }

  lemma InvRing(env: Env, x: World)
    requires Inv(env, x)
    ensures RingInv(x.rd.ring) && GenuineRing(x.msgs, x.rd.ring)
  {
  }

  lemma {:induction false} AfterPresent(env: Env, x: World, arrivals: seq<Arrival>, j: nat, n: nat, i: nat)
    requires KeysLawful(env.keys) && Inv(env, x) && (forall a | a in arrivals :: a.i < |x.log|) && j <= |arrivals|
    requires RingInv(After(env, x, arrivals[..j]).rd.ring) && Present(After(env, x, arrivals[..j]).rd.ring, n, i)
    ensures RingInv(After(env, x, arrivals).rd.ring) && Present(After(env, x, arrivals).rd.ring, n, i)
    decreases |arrivals|
  {
    hide Inv, Present, Next, KeysLawful;
    if j == |arrivals| {
      assert arrivals[..j] == arrivals;
    } else {
      var before, a := arrivals[..|arrivals| - 1], arrivals[|arrivals| - 1];
      assert before[..j] == arrivals[..j];
      AfterPresent(env, x, before, j, n, i);
      DeliverPresent(env, After(env, x, before), a, n, i);
      InvRing(env, After(env, x, arrivals));
    }
  }

  /** At some point the record `z` is delivered and accepted. */
  ghost predicate ArrivesAt(env: Env, x: World, arrivals: seq<Arrival>, z: Sealed, j: nat)
    requires KeysLawful(env.keys) && Inv(env, x) && forall a | a in arrivals :: a.i < |x.log|
  {
    j < |arrivals| && x.log[arrivals[j].i] == z && Accepted(After(env, x, arrivals[..j]), arrivals[j])
  }

  ghost predicate AllArrive(env: Env, x: World, arrivals: seq<Arrival>, zs: seq<Sealed>)
    requires KeysLawful(env.keys) && Inv(env, x) && forall a | a in arrivals :: a.i < |x.log|
  {
    forall z | z in zs && z.params.typ == RT_HANDSHAKE :: exists j: nat :: ArrivesAt(env, x, arrivals, z, j)
  }

  /** A record that holds bytes of a message in the receiver's window, delivered
      and accepted, makes them present for good. */
  lemma PieceArrives(env: Env, x: World, arrivals: seq<Arrival>, z: Sealed, j: nat, f: Fragment, off: nat, end: nat, i: nat)
    requires KeysLawful(env.keys) && Inv(env, x) && (forall a | a in arrivals :: a.i < |x.log|)
    requires ArrivesAt(env, x, arrivals, z, j) && HoldsPiece(z, f, off, end) && (off <= i < end || end == |f.body| == 0)
    requires InReach(env, x, f)
    ensures RingInv(After(env, x, arrivals).rd.ring) && Present(After(env, x, arrivals).rd.ring, f.hdr.seqNo, i)
    ensures f.hdr.seqNo < |x.msgs| && |x.msgs[f.hdr.seqNo].body| == |f.body|
  {
    hide Inv, Present, Next, KeysLawful, TakeFragment, RingInv;
    var y, a := After(env, x, arrivals[..j]), arrivals[j];
    var g := Cut(f, off, end - off);
    var h := DeliverTakes(env, y, a);
    SameFragment(g, h.value);
    InvRing(env, y);
    assert InWindow(y.msgs, y.rd.ring, y.rd.epoch, env.maxLen, g);
    TakeFragmentPresent(y.msgs, y.rd.ring, y.rd.epoch, env.maxLen, g, f.hdr.seqNo, i);
    assert arrivals[..j + 1][..j] == arrivals[..j];
    AfterPresent(env, x, arrivals, j + 1, f.hdr.seqNo, i);
  }

  lemma SameFragment(g: Fragment, h: Fragment)
    requires WellFormedFragment(g) && WellFormedFragment(h) && SerializeFragment(g) == SerializeFragment(h)
    ensures g == h
  {
    ParseSerialized(g, []);
    ParseSerialized(h, []);
    assert SerializeFragment(g) + [] == SerializeFragment(g) && SerializeFragment(h) + [] == SerializeFragment(h);
  }

  /** The message lies in the receiver's window and is not too long for it. */
  ghost predicate InReach(env: Env, x: World, f: Fragment) {
    && f.hdr.msgLen <= env.maxLen
    && x.rd.ring.readSeq <= f.hdr.seqNo < x.rd.ring.readSeq + MAX_HANDSHAKE_FLIGHT
    && (x.rd.epoch == 1 ==> f.hdr.seqNo == x.rd.ring.readSeq)
  }

  /** Delivery in the world. If sealed records carry a flight from start to end,
      and the network delivers each of its handshake records once at least when
      the receiver accepts it, in any order, with any other records between
      them and any bytes behind them, then every message of the flight that is
      in the receiver's window is complete. */
  lemma FlightDelivered(env: Env, x: World, arrivals: seq<Arrival>, out: seq<OutMsg>, zs: seq<Sealed>, k: nat)
    requires KeysLawful(env.keys) && Inv(env, x) && (forall a | a in arrivals :: a.i < |x.log|)
    requires CarryAll(out, Pos(0, 0), zs, Pos(|out|, 0)) && AllArrive(env, x, arrivals, zs)
    requires k < |out| && !out[k].isCcs && QueuedFragment(out[k]).Some? && InReach(env, x, QueuedFragment(out[k]).value)
    ensures var f := QueuedFragment(out[k]).value;
            var slot := After(env, x, arrivals).rd.ring.slots[SlotOf(f.hdr.seqNo)];
            slot.Some? && slot.value.seqNo == f.hdr.seqNo && slot.value.Complete()
  {
    hide CarryAll, QueuedFragment, Inv, Next, KeysLawful, RingInv, InReach, After;
    var f := QueuedFragment(out[k]).value;
    ByteDelivered(env, x, arrivals, out, zs, k, 0);
    var y := After(env, x, arrivals);
    InvRing(env, y);
    var slot := y.rd.ring.slots[SlotOf(f.hdr.seqNo)];
    assert GenuinePartial(x.msgs, slot.value);
    forall i: nat | i < slot.value.msgLen ensures i in slot.value.got || slot.value.Complete() {
      ByteDelivered(env, x, arrivals, out, zs, k, i);
    }
  }

  lemma ByteDelivered(env: Env, x: World, arrivals: seq<Arrival>, out: seq<OutMsg>, zs: seq<Sealed>, k: nat, i: nat)
    requires KeysLawful(env.keys) && Inv(env, x) && (forall a | a in arrivals :: a.i < |x.log|)
    requires CarryAll(out, Pos(0, 0), zs, Pos(|out|, 0)) && AllArrive(env, x, arrivals, zs)
    requires k < |out| && !out[k].isCcs && QueuedFragment(out[k]).Some? && InReach(env, x, QueuedFragment(out[k]).value)
    requires i < |QueuedFragment(out[k]).value.body| || |QueuedFragment(out[k]).value.body| == 0
    ensures RingInv(After(env, x, arrivals).rd.ring)
    ensures Present(After(env, x, arrivals).rd.ring, QueuedFragment(out[k]).value.hdr.seqNo, i)
    ensures var f := QueuedFragment(out[k]).value; f.hdr.seqNo < |x.msgs| && |x.msgs[f.hdr.seqNo].body| == |f.body|
  {
    hide CarryAll, QueuedFragment, Present, Inv, Next, KeysLawful, RingInv, InReach, After, ArrivesAt;
    var f := QueuedFragment(out[k]).value;
    PathHolds(out, Pos(0, 0), zs, k, i);
    var z, off: nat, end: nat :| z in zs && HoldsPiece(z, f, off, end) && (off <= i < end || end == |f.body| == 0);
    var j: nat :| ArrivesAt(env, x, arrivals, z, j);
    PieceArrives(env, x, arrivals, z, j, f, off, end, i);
  }
}
