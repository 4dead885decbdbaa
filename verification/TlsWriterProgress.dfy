/** That application data does get written. With a cipher that does not fail and
    keeps to its overhead, records that fit the buffer, and a stream that takes
    at least a byte each time, a call reports all of its data, and a retry goes
    on to the end from wherever the last one stopped. */
module TlsWriterProgress {
  import opened Wrappers
  import opened TlsBuffer
  import opened TlsWriterSpec

  // ---------------------------------------------------------------- what it takes

  ghost predicate SealsWithin(c: Config) {
    forall n, plain :: c.seal(n, plain).Some? && |c.seal(n, plain).value| <= |plain| + c.overhead
  }

  ghost predicate Takes(c: Config) {
    forall i :: c.answers(i) > 0
  }

  ghost predicate Favourable(c: Config) {
    SealsWithin(c) && Takes(c) && 1 <= c.maxFragment <= 16384
  }

  /** The largest record and the handshake data fit 16 bits together. */
  predicate FitsBuffer(c: Config, s: State) {
    c.maxFragment + c.overhead + |s.flight| <= 0xffff
  }

  lemma {:induction false} DrainsAll(answers: nat -> int, calls: nat, size: nat)
    requires forall i :: answers(i) > 0
    ensures Drain(answers, calls, size).0 == 0 && Drain(answers, calls, size).2 > 0
    decreases size
  {
    if size == 0 {
    } else {
      DrainsAll(answers, calls + 1, size - Taken(answers, calls, size));
    }
  }

  // ---------------------------------------------------------------- one record

  /** The record that the cipher makes of the data next. */
  function NextRecord(c: Config, s: State, data: seq<byte>): Rec
    requires c.seal(|s.recs|, data).Some?
  {
    Rec(data, c.seal(|s.recs|, data).value)
  }

  /** Nothing waits to be written; `recs` and `wire` have grown as said. */
  predicate Written(s: State, s': State, recs: seq<Rec>, out: seq<byte>) {
    && s'.pending == None && s'.queue == [] && s'.flight == [] && s'.wnum == s.wnum
    && s'.recs == s.recs + recs && s'.wire == s.wire + out
  }

  lemma FlushesAll(c: Config, s: State)
    requires Takes(c)
    ensures var (s', ret) := Flushed(c, s); ret > 0 && s' == s.(queue := [], wire := s.wire + s.queue, calls := s'.calls, cap := 0)
  {
    hide Drain;
    DrainsAll(c.answers, s.calls, |s.queue|);
  }

  lemma RecordWritten(c: Config, s: State, addr: nat, data: seq<byte>)
    requires Favourable(c) && FitsBuffer(c, s) && s.pending == None && s.queue == [] && 0 < |data| <= c.maxFragment
    ensures c.seal(|s.recs|, data).Some?
    ensures var (s', ret) := DoWrite(c, s, addr, data);
            var r := NextRecord(c, s, data);
            ret == |data| && Written(s, s', [r], s.flight + r.wire)
  {
    hide Flushed, Takes;
    assert c.seal(|s.recs|, data).Some? && |c.seal(|s.recs|, data).value| <= |data| + c.overhead;
    var (s1, ok) := MakeRecord(c, s, addr, data);
    assert [] + s.flight == s.flight;
    assert ok;
    FlushesAll(c, s1);
  }

  /** A record that is pending gets out, if it is retried as it should be. */
  lemma PendingWritten(c: Config, s: State, addr: nat, data: seq<byte>)
    requires Favourable(c) && s.pending.Some?
    requires var p := s.pending.value; 0 < p.tot <= |data| && (c.moving || p.addr == addr)
    ensures var (s', ret) := DoWrite(c, s, addr, data);
            ret == s.pending.value.tot && s' == s.(pending := None, queue := [], wire := s.wire + s.queue, calls := s'.calls, cap := 0)
  {
    hide Flushed, Takes, SealsWithin;
    FlushesAll(c, s);
  }

  // ---------------------------------------------------------------- the loop

  /** The data cut into records: full ones and the rest. */
  ghost predicate CutInto(c: Config, first: nat, data: seq<byte>, recs: seq<Rec>) {
    && Plains(recs) == data
    && (forall i | 0 <= i < |recs| - 1 :: |recs[i].plain| == c.maxFragment)
    && (forall i | 0 <= i < |recs| :: 0 < |recs[i].plain| <= c.maxFragment && c.seal(first + i, recs[i].plain) == Some(recs[i].wire))
  }

  lemma {:induction false} PlainsJoin(a: seq<Rec>, b: seq<Rec>)
    ensures Plains(a + b) == Plains(a) + Plains(b) && Wires(a + b) == Wires(a) + Wires(b)
    decreases |b|
  {
    hide Plains, Wires;
    if b == [] {
      assert a + b == a && Plains([]) == [] && Wires([]) == [] by { NoRecs(); }
    } else {
      var before, r := b[..|b| - 1], b[|b| - 1];
      PlainsJoin(a, before);
      OneMore(before, r);
      OneMore(a + before, r);
      assert before + [r] == b && a + before + [r] == a + b;
      assert Plains(a) + Plains(before) + r.plain == Plains(a) + (Plains(before) + r.plain);
      assert Wires(a) + Wires(before) + r.wire == Wires(a) + (Wires(before) + r.wire);
    }
  }

  lemma NoRecs()
    ensures Plains([]) == [] && Wires([]) == []
  {
  }

  lemma OneMore(a: seq<Rec>, r: Rec)
    ensures Plains(a + [r]) == Plains(a) + r.plain && Wires(a + [r]) == Wires(a) + r.wire
  {
    assert (a + [r])[..|a|] == a;
  }

  lemma OneRec(r: Rec)
    ensures Plains([r]) == r.plain && Wires([r]) == r.wire
  {
    assert [r][..0] == [];
  }

  lemma FirstCut(c: Config, first: nat, r: Rec, rest: seq<byte>, recs: seq<Rec>)
    requires CutInto(c, first + 1, rest, recs) && c.seal(first, r.plain) == Some(r.wire)
    requires 0 < |r.plain| <= c.maxFragment && (rest != [] ==> |r.plain| == c.maxFragment)
    ensures CutInto(c, first, r.plain + rest, [r] + recs) && Wires([r] + recs) == r.wire + Wires(recs)
  {
    OneRec(r);
    PlainsJoin([r], recs);
    if recs != [] {
      assert |Plains(recs)| >= |recs[|recs| - 1].plain| > 0;
    }
    forall i | 0 <= i < |recs| + 1
      ensures 0 < |([r] + recs)[i].plain| <= c.maxFragment && c.seal(first + i, ([r] + recs)[i].plain) == Some(([r] + recs)[i].wire)
    {
      if i > 0 {
        assert ([r] + recs)[i] == recs[i - 1];
        assert c.seal(first + 1 + (i - 1), recs[i - 1].plain) == Some(recs[i - 1].wire);
      }
    }
  }

  /** From a position with nothing pending the loop seals and writes all the rest
      of the data. */
  lemma {:induction false} RestWritten(c: Config, s: State, addr: nat, data: seq<byte>, tot: nat) returns (recs: seq<Rec>)
    requires Favourable(c) && !c.partial && FitsBuffer(c, s) && s.pending == None && s.queue == [] && tot < |data|
    ensures var (s', ret, _) := WriteLoop(c, s, addr, data, tot);
            ret == |data| && Written(s, s', recs, s.flight + Wires(recs)) && CutInto(c, |s.recs|, data[tot..], recs)
    decreases |data| - tot
  {
    hide DoWrite, Favourable, Wires, Plains, CutInto;
    var next := Stretch(c, data, tot);
    FragmentsOk(c, data, tot);
    RecordWritten(c, s, addr + tot, next);
    var (s1, ret) := DoWrite(c, s, addr + tot, next);
    var r := NextRecord(c, s, next);
    if ret == |data| - tot {
      recs := [r];
      OneRec(r);
      NothingCut(c, |s.recs| + 1);
      FirstCut(c, |s.recs|, r, [], []);
      assert [r] + [] == [r] && next + [] == next == data[tot..];
    } else {
      var more := RestWritten(c, s1, addr, data, tot + ret);
      recs := [r] + more;
      FirstCut(c, |s.recs|, r, data[tot + ret..], more);
      assert next + data[tot + ret..] == data[tot..];
      assert s.recs + [r] + more == s.recs + recs;
      assert s.wire + (s.flight + r.wire) + ([] + Wires(more)) == s.wire + (s.flight + (r.wire + Wires(more)));
    }
  }

  lemma FragmentsOk(c: Config, data: seq<byte>, tot: nat)
    requires Favourable(c) && tot < |data|
    ensures 0 < |Stretch(c, data, tot)| <= c.maxFragment
    ensures |Stretch(c, data, tot)| < |data| - tot ==> |Stretch(c, data, tot)| == c.maxFragment
    ensures Stretch(c, data, tot) + data[tot + |Stretch(c, data, tot)|..] == data[tot..]
  {
    hide SealsWithin, Takes;
  }

  lemma NothingCut(c: Config, first: nat)
    ensures CutInto(c, first, [], []) && Wires([]) == []
  {
  }

  // ---------------------------------------------------------------- calls

  /** A call on a connection with nothing pending writes all of its data: handshake
      data first, then one record for each fragment, and nothing is left in the
      buffer. */
  lemma WriteSucceeds(c: Config, s: State, addr: nat, data: seq<byte>) returns (recs: seq<Rec>)
    requires Favourable(c) && !c.partial && FitsBuffer(c, s)
    requires s.pending == None && s.queue == [] && s.wnum == 0 && data != []
    ensures var (s', ret) := WriteApp(c, s, addr, data);
            && ret == |data| && CutInto(c, |s.recs|, data, recs)
            && Written(s, s', recs, s.flight + Wires(recs)) && Plains(s'.recs) == Plains(s.recs) + data
  {
    hide WriteLoop, Favourable, Wires, Plains;
    assert s.(wnum := 0) == s && data[0..] == data;
    recs := RestWritten(c, s, addr, data, 0);
    PlainsJoin(s.recs, recs);
  }

  /** A retry after a call cut short, with the same data from the same place or
      with moving buffers allowed: what is pending goes out, is not sealed
      again, and the rest is sealed and written behind it. */
  lemma RetrySucceeds(c: Config, s: State, addr: nat, data: seq<byte>) returns (recs: seq<Rec>)
    requires Favourable(c) && !c.partial && FitsBuffer(c, s) && s.flight == [] && s.pending.Some?
    requires var p := s.pending.value;
             0 < p.tot <= c.maxFragment && s.wnum + p.tot <= |data| && (c.moving || p.addr == addr + s.wnum)
    ensures var (s', ret) := WriteApp(c, s, addr, data);
            && ret == |data| && s'.pending == None && s'.queue == []
            && s'.recs == s.recs + recs && CutInto(c, |s.recs|, data[s.wnum + s.pending.value.tot..], recs)
            && s'.wire == s.wire + s.queue + Wires(recs)
  {
    hide DoWrite, SealsWithin, Takes, Wires, Plains, CutInto;
    var p, tot, s0 := s.pending.value, s.wnum, s.(wnum := 0);
    var next := Stretch(c, data, tot);
    assert |next| >= p.tot;
    PendingWritten(c, s0, addr + tot, next);
    var (s1, ret) := DoWrite(c, s0, addr + tot, next);
    if ret == |data| - tot {
      recs := [];
      NothingCut(c, |s.recs|);
      assert data[tot + ret..] == [] && s.recs + [] == s.recs && s.wire + s.queue + [] == s.wire + s.queue;
    } else {
      recs := RestWritten(c, s1, addr, data, tot + ret);
      assert s.wire + s.queue + ([] + Wires(recs)) == s.wire + s.queue + Wires(recs);
    }
  }

  /** With partial writes allowed a call reports its first record. */
  lemma PartialSucceeds(c: Config, s: State, addr: nat, data: seq<byte>)
    requires Favourable(c) && c.partial && FitsBuffer(c, s)
    requires s.pending == None && s.queue == [] && s.wnum == 0 && data != []
    ensures var (s', ret) := WriteApp(c, s, addr, data);
            && ret == (if |data| > c.maxFragment then c.maxFragment else |data|)
            && Plains(s'.recs) == Plains(s.recs) + data[..ret] && s'.queue == [] && s'.pending == None
  {
    hide DoWrite, Favourable, Wires, Plains;
    assert s.(wnum := 0) == s;
    var next := Stretch(c, data, 0);
    FragmentsOk(c, data, 0);
    RecordWritten(c, s, addr, next);
    OneRec(NextRecord(c, s, next));
    PlainsJoin(s.recs, [NextRecord(c, s, next)]);
  }

  /** A retry from another place, where that is not allowed, or of less than what
      is pending, is refused and changes nothing. */
  lemma BadRetryRefused(c: Config, s: State, addr: nat, data: seq<byte>)
    requires s.pending.Some? && s.wnum <= |data| && 1 <= c.maxFragment
    requires var p, n := s.pending.value, |data| - s.wnum;
             p.tot > (if n > c.maxFragment then c.maxFragment else n) || (!c.moving && p.addr != addr + s.wnum)
    ensures WriteApp(c, s, addr, data) == (s, -1)
  {
    assert WriteLoop(c, s.(wnum := 0), addr, data, s.wnum) == (s.(wnum := 0), -1, s.wnum);
  }
}
