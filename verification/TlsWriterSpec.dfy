/** Writing application data (s3_pkt.cc) as functions on values: a call may fail
    half way, and its retry goes on where the last one stopped. The class in
    TlsWriter.dfy is proved to compute these functions. */
module TlsWriterSpec {
  import opened Wrappers
  import opened TlsBuffer

  const MAX_PLAIN_LENGTH := 16384

  /** `moving` and `partial` are SSL_MODE_ACCEPT_MOVING_WRITE_BUFFER and
      SSL_MODE_ENABLE_PARTIAL_WRITE; `seal` makes the n-th record; `answers` is
      what the writes to the stream return. */
  datatype Config = Config(
    maxFragment: nat,
    overhead: nat,
    moving: bool,
    partial: bool,
    seal: (nat, seq<byte>) -> Option<seq<byte>>,
    answers: nat -> int)

  /** A record that has been made: what went in and what came out. */
  datatype Rec = Rec(plain: seq<byte>, wire: seq<byte>)

  /** A record not yet written out in full, and the address of its plaintext. */
  datatype Pending = Pending(tot: nat, addr: nat)

  /** `recs` are all records made; `flight` is handshake data not yet sent;
      `queue` is in the write buffer, of capacity `cap`; `wire` has been sent. */
  datatype State = State(
    recs: seq<Rec>,
    wnum: nat,
    pending: Option<Pending>,
    flight: seq<byte>,
    queue: seq<byte>,
    cap: nat,
    calls: nat,
    wire: seq<byte>)

  function Initial(flight: seq<byte>): State {
    State([], 0, None, flight, [], 0, 0, [])
  }

  // ---------------------------------------------------------------- one call

  function Flushed(c: Config, s: State): (State, int) {
    var (left, calls, ret) := Drain(c.answers, s.calls, |s.queue|);
    var k := |s.queue| - left;
    var cap := if ret > 0 || s.cap < k then 0 else s.cap - k;
    (s.(queue := s.queue[k..], wire := s.wire + s.queue[..k], calls := calls, cap := cap), ret)
  }

  /** `ssl3_write_pending` */
  function FinishPending(c: Config, s: State, addr: nat, len: nat): (r: (State, int))
    requires s.pending.Some?
    ensures r.1 > 0 ==> r.1 == s.pending.value.tot <= len
  {
    var p := s.pending.value;
    if p.tot > len || (!c.moving && p.addr != addr) then (s, -1)
    else
      var (s', ret) := Flushed(c, s);
      if ret <= 0 then (s', ret) else (s'.(pending := None), p.tot)
  }

  function MaxOut(c: Config, s: State, len: nat): nat {
    len + c.overhead + |s.flight|
  }

  /** Room for a record; unsent handshake data goes in front. */
  function Room(c: Config, s: State, len: nat): State {
    var maxOut := MaxOut(c, s, len);
    s.(cap := if s.cap < maxOut then maxOut else s.cap, queue := s.queue + s.flight, flight := [])
  }

  /** The next record, behind what is in the buffer. */
  function Seal(c: Config, s: State, addr: nat, data: seq<byte>): (r: (State, bool))
    ensures r.1 ==> r.0.pending == Some(Pending(|data|, addr))
  {
    match c.seal(|s.recs|, data)
    case None => (s, false)
    case Some(ct) =>
      if |s.queue| + |ct| > s.cap then (s, false)
      else (s.(queue := s.queue + ct, recs := s.recs + [Rec(data, ct)], pending := Some(Pending(|data|, addr))), true)
  }

  /** The part of `do_ssl3_write` that makes a record. */
  function MakeRecord(c: Config, s: State, addr: nat, data: seq<byte>): (r: (State, bool))
    ensures r.1 ==> r.0.pending == Some(Pending(|data|, addr))
  {
    if MaxOut(c, s, |data|) > MAX_CAP then (s, false) else Seal(c, Room(c, s, |data|), addr, data)
  }

  /** `do_ssl3_write` */
  function DoWrite(c: Config, s: State, addr: nat, data: seq<byte>): (r: (State, int))
    ensures r.1 <= |data|
  {
    if s.pending.Some? then FinishPending(c, s, addr, |data|)
    else if |data| > MAX_PLAIN_LENGTH || s.queue != [] then (s, -1)
    else if data == [] then (s, 0)
    else
      var (s', ok) := MakeRecord(c, s, addr, data);
      if !ok then (s', -1) else FinishPending(c, s', addr, |data|)
  }

  /** The next stretch of the data that fits a record. */
  function Stretch(c: Config, data: seq<byte>, tot: nat): seq<byte>
    requires tot <= |data|
  {
    data[tot..if |data| - tot > c.maxFragment then tot + c.maxFragment else |data|]
  }

  /** The loop of `ssl3_write_app_data` from position `tot` on; also where it
      stopped. */
  function WriteLoop(c: Config, s: State, addr: nat, data: seq<byte>, tot: nat): (r: (State, int, nat))
    requires tot <= |data|
    ensures r.1 <= |data| && r.2 <= |data|
    decreases |data| - tot
  {
    var (s', ret) := DoWrite(c, s, addr + tot, Stretch(c, data, tot));
    if ret <= 0 then (s', ret, tot)
    else if ret == |data| - tot || c.partial then (s', tot + ret, tot)
    else WriteLoop(c, s', addr, data, tot + ret)
  }

  /** `ssl3_write_app_data`, without early data. */
  function WriteApp(c: Config, s: State, addr: nat, data: seq<byte>): (r: (State, int))
    ensures r.1 <= |data|
  {
    if |data| < s.wnum then (s.(wnum := 0), -1)
    else
      var (s', ret, tot) := WriteLoop(c, s.(wnum := 0), addr, data, s.wnum);
      (if ret <= 0 then s'.(wnum := tot) else s', ret)
  }

  // ---------------------------------------------------------------- what goes out

  function Plains(recs: seq<Rec>): seq<byte> {
    if recs == [] then [] else Plains(recs[..|recs| - 1]) + recs[|recs| - 1].plain
  }

  function Wires(recs: seq<Rec>): seq<byte> {
    if recs == [] then [] else Wires(recs[..|recs| - 1]) + recs[|recs| - 1].wire
  }

  /** The n-th record is what the cipher makes of a plaintext of proper size. */
  ghost predicate RecordsOk(c: Config, recs: seq<Rec>) {
    forall i | 0 <= i < |recs| :: c.seal(i, recs[i].plain) == Some(recs[i].wire) && 0 < |recs[i].plain| <= c.maxFragment
  }

  /** Sent or in the buffer: the handshake data there was, once it has been
      picked up, and then every record, in order. */
  ghost predicate Outgoing(s: State, flight: seq<byte>) {
    && s.wire + s.queue == (if s.flight == [] then flight else []) + Wires(s.recs)
    && (s.flight != [] ==> s.flight == flight && s.recs == [])
  }

  ghost predicate Honest(c: Config, s: State, flight: seq<byte>) {
    RecordsOk(c, s.recs) && Outgoing(s, flight)
  }

  lemma InitialHonest(c: Config, flight: seq<byte>)
    ensures Honest(c, Initial(flight), flight)
  {
  }

  lemma FlushedHonest(c: Config, s: State, flight: seq<byte>)
    requires Honest(c, s, flight)
    ensures Honest(c, Flushed(c, s).0, flight)
  {
    hide Drain, Wires;
    var k := |s.queue| - Drain(c.answers, s.calls, |s.queue|).0;
    SplitAt(s.wire, s.queue, k);
  }

  lemma RoomHonest(c: Config, s: State, len: nat, flight: seq<byte>)
    requires Honest(c, s, flight)
    ensures Honest(c, Room(c, s, len), flight)
  {
    hide RecordsOk;
    assert s.wire + (s.queue + s.flight) == s.wire + s.queue + s.flight;
    if s.flight == [] {
      assert s.queue + s.flight == s.queue;
    } else {
      assert s.wire + s.queue == [] && [] + flight == flight == flight + Wires([]);
    }
  }

  lemma SealHonest(c: Config, s: State, addr: nat, data: seq<byte>, flight: seq<byte>)
    requires Honest(c, s, flight) && s.flight == [] && 0 < |data| <= c.maxFragment
    ensures Honest(c, Seal(c, s, addr, data).0, flight)
  {
    var (s', ok) := Seal(c, s, addr, data);
    if ok {
      var r := s'.recs[|s.recs|];
      assert s'.recs[..|s.recs|] == s.recs;
      assert s.wire + (s.queue + r.wire) == s.wire + s.queue + r.wire;
      assert flight + Wires(s.recs) + r.wire == flight + (Wires(s.recs) + r.wire);
    }
  }

  lemma MakeRecordHonest(c: Config, s: State, addr: nat, data: seq<byte>, flight: seq<byte>)
    requires Honest(c, s, flight) && 0 < |data| <= c.maxFragment
    ensures Honest(c, MakeRecord(c, s, addr, data).0, flight)
  {
    hide Honest, Seal;
    RoomHonest(c, s, |data|, flight);
    SealHonest(c, Room(c, s, |data|), addr, data, flight);
  }

  lemma DoWriteHonest(c: Config, s: State, addr: nat, data: seq<byte>, flight: seq<byte>)
    requires Honest(c, s, flight) && |data| <= c.maxFragment
    ensures Honest(c, DoWrite(c, s, addr, data).0, flight)
  {
    hide Flushed, RecordsOk, MakeRecord;
    if s.pending.Some? {
      FlushedHonest(c, s, flight);
    } else if data != [] {
      var (s', ok) := MakeRecord(c, s, addr, data);
      MakeRecordHonest(c, s, addr, data, flight);
      FlushedHonest(c, s', flight);
    }
  }

  lemma {:induction false} WriteLoopHonest(c: Config, s: State, addr: nat, data: seq<byte>, tot: nat, flight: seq<byte>)
    requires Honest(c, s, flight) && tot <= |data|
    ensures Honest(c, WriteLoop(c, s, addr, data, tot).0, flight)
    decreases |data| - tot
  {
    hide DoWrite, Honest;
    DoWriteHonest(c, s, addr + tot, Stretch(c, data, tot), flight);
    var (s', ret) := DoWrite(c, s, addr + tot, Stretch(c, data, tot));
    if 0 < ret < |data| - tot && !c.partial {
      WriteLoopHonest(c, s', addr, data, tot + ret, flight);
    }
  }

  /** Whatever the calls, only ciphertexts of the records follow the handshake
      data, in order and once each. */
  lemma WriteAppHonest(c: Config, s: State, addr: nat, data: seq<byte>, flight: seq<byte>)
    requires Honest(c, s, flight)
    ensures Honest(c, WriteApp(c, s, addr, data).0, flight)
  {
    hide WriteLoop, RecordsOk, Wires;
    if s.wnum <= |data| {
      WriteLoopHonest(c, s.(wnum := 0), addr, data, s.wnum, flight);
    }
  }

  // ---------------------------------------------------------------- which plaintext

  /** `acked`: what calls have reported as written; `unfinished`: the data of the
      last call, if it failed. */
  datatype Log = Log(acked: seq<byte>, unfinished: seq<byte>)

  function Progress(s: State): nat {
    s.wnum + if s.pending.Some? then s.pending.value.tot else 0
  }

  /** Everything sealed has been reported or is the front of the unfinished call. */
  ghost predicate Consistent(s: State, w: Log) {
    Progress(s) <= |w.unfinished| && Plains(s.recs) == w.acked + w.unfinished[..Progress(s)]
  }

  ghost predicate PendingOk(c: Config, s: State) {
    s.pending.Some? ==> 0 < s.pending.value.tot <= c.maxFragment
  }

  function Reported(w: Log, data: seq<byte>, ret: int): Log
    requires ret <= |data|
  {
    if ret > 0 then Log(w.acked + data[..ret], []) else Log(w.acked, data)
  }

  /** What a caller owes: the data begins with what is sealed of the unfinished call. */
  predicate Retries(s: State, w: Log, data: seq<byte>) {
    Progress(s) <= |w.unfinished| && w.unfinished[..Progress(s)] <= data
  }

  /** In a call: what is sealed is what was reported before and the front of the
      data, up to `tot` and the record that is pending. */
  ghost predicate SealedUpto(s: State, acked: seq<byte>, data: seq<byte>, tot: nat) {
    var n := tot + if s.pending.Some? then s.pending.value.tot else 0;
    n <= |data| && Plains(s.recs) == acked + data[..n]
  }

  lemma MakeRecordSeals(c: Config, s: State, addr: nat, data: seq<byte>)
    ensures var (s', ok) := MakeRecord(c, s, addr, data);
            && Plains(s'.recs) == (if ok then Plains(s.recs) + data else Plains(s.recs)) && s.recs <= s'.recs
            && s'.wnum == s.wnum && (!ok ==> s'.pending == s.pending)
  {
    var (s', ok) := MakeRecord(c, s, addr, data);
    if ok {
      assert s'.recs[..|s.recs|] == s.recs;
    }
  }

  /** Finishing a record seals nothing more. */
  lemma FinishSeals(c: Config, s: State, addr: nat, len: nat, acked: seq<byte>, data: seq<byte>, tot: nat)
    requires s.pending.Some? && SealedUpto(s, acked, data, tot) && PendingOk(c, s)
    ensures var (s', ret) := FinishPending(c, s, addr, len);
            && PendingOk(c, s') && s'.wnum == s.wnum && s'.recs == s.recs
            && if ret > 0 then tot + ret <= |data| && s'.pending == None && SealedUpto(s', acked, data, tot + ret)
               else SealedUpto(s', acked, data, tot)
  {
    hide Plains, Drain;
  }

  /** One round seals at most the next stretch, and none while a record is
      pending. */
  lemma DoWriteSeals(c: Config, s: State, addr: nat, acked: seq<byte>, data: seq<byte>, tot: nat)
    requires SealedUpto(s, acked, data, tot) && PendingOk(c, s)
    ensures tot <= |data|
    ensures var (s', ret) := DoWrite(c, s, addr, Stretch(c, data, tot));
            && PendingOk(c, s') && s'.wnum == s.wnum && s.recs <= s'.recs
            && if ret > 0 then tot + ret <= |data| && s'.pending == None && SealedUpto(s', acked, data, tot + ret)
               else SealedUpto(s', acked, data, tot)
  {
    hide Plains, MakeRecord, FinishPending;
    var next := Stretch(c, data, tot);
    if s.pending.Some? {
      FinishSeals(c, s, addr, |next|, acked, data, tot);
    } else if |next| <= MAX_PLAIN_LENGTH && s.queue == [] && next != [] {
      MakeRecordSeals(c, s, addr, next);
      assert data[..tot] + next == data[..tot + |next|];
      assert acked + data[..tot] + next == acked + (data[..tot] + next);
      var (s1, ok) := MakeRecord(c, s, addr, next);
      if ok {
        FinishSeals(c, s1, addr, |next|, acked, data, tot);
      }
    }
  }

  lemma {:induction false} WriteLoopSeals(c: Config, s: State, addr: nat, acked: seq<byte>, data: seq<byte>, tot: nat)
    requires SealedUpto(s, acked, data, tot) && PendingOk(c, s)
    ensures tot <= |data|
    ensures var (s', ret, tot') := WriteLoop(c, s, addr, data, tot);
            && PendingOk(c, s') && s'.wnum == s.wnum && s.recs <= s'.recs
            && if ret > 0 then s'.pending == None && SealedUpto(s', acked, data, ret) && (ret == |data| || c.partial)
               else SealedUpto(s', acked, data, tot')
    decreases |data| - tot
  {
    hide DoWrite, SealedUpto, PendingOk;
    DoWriteSeals(c, s, addr + tot, acked, data, tot);
    var (s', ret) := DoWrite(c, s, addr + tot, Stretch(c, data, tot));
    if 0 < ret < |data| - tot && !c.partial {
      WriteLoopSeals(c, s', addr, acked, data, tot + ret);
    }
  }

  /** One call of a caller that retries properly, on every outcome: what is
      sealed is what has been reported, once each, and the front of the
      unfinished call. */
  lemma WriteAppSeals(c: Config, s: State, w: Log, addr: nat, data: seq<byte>)
    requires Consistent(s, w) && PendingOk(c, s) && Retries(s, w, data)
    ensures var (s', ret) := WriteApp(c, s, addr, data);
            && Consistent(s', Reported(w, data, ret)) && PendingOk(c, s') && s.recs <= s'.recs
            && (ret > 0 ==> ret == |data| || c.partial)
  {
    hide WriteLoop, Plains;
    var n := Progress(s);
    assert w.unfinished[..n] == data[..n];
    WriteLoopSeals(c, s.(wnum := 0), addr, w.acked, data, s.wnum);
    var (s', ret) := WriteApp(c, s, addr, data);
    assert ret > 0 ==> w.acked + data[..ret] + [] == w.acked + data[..ret];
  }

  /** Data shorter than what is known to be written is refused, but the position
      is forgotten: the law holds after a call exactly if the data is long enough. */
  lemma ConsistentExactly(c: Config, s: State, w: Log, addr: nat, data: seq<byte>)
    requires Consistent(s, w) && PendingOk(c, s) && (|data| < s.wnum || Retries(s, w, data))
    ensures var (s', ret) := WriteApp(c, s, addr, data);
            && (Consistent(s', if |data| < s.wnum then w else Reported(w, data, ret)) <==> s.wnum <= |data|)
            && (|data| < s.wnum ==> ret == -1 && s' == s.(wnum := 0))
  {
    if |data| < s.wnum {
      assert |Plains(s.recs)| == |w.acked| + Progress(s);
    } else {
      WriteAppSeals(c, s, w, addr, data);
    }
  }

  // ---------------------------------------------------------------- whole runs

  datatype Call = Call(addr: nat, data: seq<byte>)

  function Run(c: Config, flight: seq<byte>, calls: seq<Call>): (State, Log)
    decreases |calls|
  {
    if calls == [] then (Initial(flight), Log([], []))
    else
      var (s, w) := Run(c, flight, calls[..|calls| - 1]);
      var call := calls[|calls| - 1];
      var (s', ret) := WriteApp(c, s, call.addr, call.data);
      (s', Reported(w, call.data, ret))
  }

  /** Every call begins with what is sealed of the unfinished one before it. */
  predicate Disciplined(c: Config, flight: seq<byte>, calls: seq<Call>)
    decreases |calls|
  {
    calls == [] ||
    var (s, w) := Run(c, flight, calls[..|calls| - 1]);
    Disciplined(c, flight, calls[..|calls| - 1]) && Retries(s, w, calls[|calls| - 1].data)
  }

  /** Exactly once, over every run in which each failed call is retried with the
      bytes sealed so far and anything behind them, and whatever the stream does:
      sent or still in the buffer are the handshake data, once picked up, and
      the ciphertexts of the records; and their plaintexts are the bytes
      reported, in order and once each, followed only by the sealed part of an
      unfinished call. */
  lemma {:induction false} ExactlyOnce(c: Config, flight: seq<byte>, calls: seq<Call>)
    requires Disciplined(c, flight, calls)
    ensures var (s, w) := Run(c, flight, calls);
            && RecordsOk(c, s.recs) && Outgoing(s, flight) && PendingOk(c, s)
            && Progress(s) <= |w.unfinished| && Plains(s.recs) == w.acked + w.unfinished[..Progress(s)]
    decreases |calls|
  {
    hide WriteApp, RecordsOk, Outgoing;
    if calls == [] {
      InitialHonest(c, flight);
    } else {
      var before, call := calls[..|calls| - 1], calls[|calls| - 1];
      ExactlyOnce(c, flight, before);
      var (s, w) := Run(c, flight, before);
      WriteAppHonest(c, s, call.addr, call.data, flight);
      WriteAppSeals(c, s, w, call.addr, call.data);
    }
  }

  // ---------------------------------------------------------------- the position forgotten

  /** The first write is taken, the second fails, all others are taken. */
  function Hiccup(i: nat): int {
    if i == 1 then -1 else 1
  }

  const ONE_BYTE_RECORDS := Config(1, 0, true, false, (n, plain) => Some(plain), Hiccup)

  /** [1] has been sent; [2] is sealed and in the buffer, and the stream has failed. */
  const CUT_SHORT := State([Rec([1], [1]), Rec([2], [2])], 1, Some(Pending(1, 1)), [], [2], 1, 2, [1])

  const SENT_TWICE := State([Rec([1], [1]), Rec([2], [2]), Rec([2], [2])], 0, None, [], [], 0, 4, [1, 2, 2])

  /** The first call is cut short with one byte known to be written and another
      sealed; the second is too short; and the third, a proper retry of the
      first, succeeds but seals and sends its last byte a second time. */
  lemma PositionForgotten()
    ensures var c := ONE_BYTE_RECORDS;
            && WriteApp(c, Initial([]), 0, [1, 2]) == (CUT_SHORT, -1)
            && WriteApp(c, CUT_SHORT, 0, []) == (CUT_SHORT.(wnum := 0), -1)
            && WriteApp(c, CUT_SHORT.(wnum := 0), 0, [1, 2]) == (SENT_TWICE, 2)
    ensures Plains(CUT_SHORT.recs) == [1, 2] && Plains(SENT_TWICE.recs) == [1, 2, 2]
  {
    hide WriteLoop;
    FirstCall();
    ThirdCall();
    var r1, r2 := Rec([1], [1]), Rec([2], [2]);
    assert [r1, r2][..1] == [r1] && [r1][..0] == [] && [r1, r2, r2][..2] == [r1, r2];
    assert Plains([r1]) == [1] && Plains([r1, r2]) == [1, 2];
  }

  lemma LoopOnce(c: Config, s: State, addr: nat, data: seq<byte>, tot: nat)
    requires tot <= |data|
    ensures var (s', ret) := DoWrite(c, s, addr + tot, Stretch(c, data, tot));
            WriteLoop(c, s, addr, data, tot) ==
              if ret <= 0 then (s', ret, tot)
              else if ret == |data| - tot || c.partial then (s', tot + ret, tot)
              else WriteLoop(c, s', addr, data, tot + ret)
  {
    hide DoWrite, Stretch;
  }

  lemma OneRecord(s: State, addr: nat, b: byte)
    requires s.pending == None && s.flight == [] && s.queue == []
    ensures var c := ONE_BYTE_RECORDS;
            var made := s.(recs := s.recs + [Rec([b], [b])], queue := [b], cap := if s.cap < 1 then 1 else s.cap, pending := Some(Pending(1, addr)));
            DoWrite(c, s, addr, [b]) ==
              if s.calls == 1 then (made.(calls := 2), -1)
              else (made.(queue := [], cap := 0, calls := s.calls + 1, wire := s.wire + [b], pending := None), 1)
  {
    var c := ONE_BYTE_RECORDS;
    var made := s.(recs := s.recs + [Rec([b], [b])], queue := [b], cap := if s.cap < 1 then 1 else s.cap, pending := Some(Pending(1, addr)));
    assert MakeRecord(c, s, addr, [b]) == (made, true) by {
      assert [] + [] + [b] == [b];
    }
    OneByteOut(made, addr, b);
  }

  lemma OneByteOut(s: State, addr: nat, b: byte)
    requires s.queue == [b] && s.cap >= 1 && s.pending.Some? && s.pending.value.tot == 1
    ensures FinishPending(ONE_BYTE_RECORDS, s, addr, 1) ==
              if s.calls == 1 then (s.(calls := 2), -1)
              else (s.(queue := [], cap := 0, calls := s.calls + 1, wire := s.wire + [b], pending := None), 1)
  {
    var c := ONE_BYTE_RECORDS;
    assert Drain(c.answers, s.calls, 1) == if s.calls == 1 then (1, 2, -1) else (0, s.calls + 1, 1);
    assert [b][..1] == [b] && [b][1..] == [] && [b][0..] == [b] && s.wire + [b][..0] == s.wire;
  }

  lemma FirstCall()
    ensures WriteApp(ONE_BYTE_RECORDS, Initial([]), 0, [1, 2]) == (CUT_SHORT, -1)
  {
    hide DoWrite, WriteLoop;
    var c, s0 := ONE_BYTE_RECORDS, Initial([]);
    LoopOnce(c, s0, 0, [1, 2], 0);
    OneRecord(s0, 0, 1);
    var s1 := State([Rec([1], [1])], 0, None, [], [], 0, 1, [1]);
    assert Stretch(c, [1, 2], 0) == [1] && Stretch(c, [1, 2], 1) == [2];
    assert DoWrite(c, s0, 0, [1]) == (s1, 1) by {
      assert [] + [Rec([1], [1])] == [Rec([1], [1])] && [] + [1] == [1 as byte];
    }
    LoopOnce(c, s1, 0, [1, 2], 1);
    OneRecord(s1, 1, 2);
    assert DoWrite(c, s1, 1, [2]) == (CUT_SHORT.(wnum := 0), -1) by {
      assert s1.recs + [Rec([2], [2])] == CUT_SHORT.recs;
    }
  }

  lemma ThirdCall()
    ensures WriteApp(ONE_BYTE_RECORDS, CUT_SHORT.(wnum := 0), 0, [1, 2]) == (SENT_TWICE, 2)
  {
    hide FinishPending, WriteLoop;
    var c, s0 := ONE_BYTE_RECORDS, CUT_SHORT.(wnum := 0);
    LoopOnce(c, s0, 0, [1, 2], 0);
    OneByteOut(s0, 0, 2);
    var s1 := s0.(queue := [], cap := 0, calls := 3, wire := [1, 2], pending := None);
    assert Stretch(c, [1, 2], 0) == [1] && Stretch(c, [1, 2], 1) == [2];
    assert DoWrite(c, s0, 0, [1]) == (s1, 1) by {
      assert s0.wire + [2] == s1.wire;
    }
    LoopOnce(c, s1, 0, [1, 2], 1);
    OneRecord(s1, 1, 2);
    assert DoWrite(c, s1, 1, [2]) == (SENT_TWICE, 1) by {
      assert s1.recs + [Rec([2], [2])] == SENT_TWICE.recs && s1.wire + [2] == SENT_TWICE.wire;
    }
  }
}
