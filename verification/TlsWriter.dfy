/** The writer of application data with its mutable state (s3_pkt.cc), over the
    write buffer and a stream. Every method computes the function of the same
    name in TlsWriterSpec; and what that calls sent and queued is what the
    stream has taken and what is in the buffer. */
module TlsWriter {
  import opened Wrappers
  import opened TlsBuffer
  import opened TlsWriterSpec

  class AppDataWriter {
    const buffer: SslBuffer
    const bio: StreamBio
    const maxFragment: nat
    const overhead: nat
    // ssl_seal_align_prefix_len
    const alignPrefix: nat
    const moving: bool
    const partial: bool
    const seal: (nat, seq<byte>) -> Option<seq<byte>>

    var records: nat
    var wnum: nat
    var pending: bool
    var wpendTot: nat
    var wpendAddr: nat
    var wpendRet: nat
    // Handshake data not yet sent.
    var flight: seq<byte>

    ghost var recs: seq<Rec>
    ghost var queue: seq<byte>
    ghost var wire: seq<byte>

    ghost function Settings(): Config {
      Config(maxFragment, overhead, moving, partial, seal, bio.answers)
    }

    ghost function Abs(): State
      reads this, buffer, bio
    {
      State(recs, wnum, if pending then Some(Pending(wpendTot, wpendAddr)) else None, flight, queue, buffer.cap, bio.calls, wire)
    }

    ghost predicate Valid()
      reads this, buffer
    {
      && buffer.Valid() && records == |recs| && |queue| == buffer.size
      && (pending ==> wpendRet == wpendTot)
    }

    /** The real bytes: while the buffer's offset cannot wrap. */
    ghost predicate InOrder()
      requires buffer.Valid()
      reads `flight, `queue, `wire, buffer, buffer.buf, bio
    {
      && maxFragment + overhead + |flight| + ALIGN - 1 <= 0xffff && buffer.NoWrap()
      && bio.sent == wire && buffer.Contents() == queue
    }

    constructor (c: Config, alignPrefix: nat, flight: seq<byte>, bio: StreamBio)
      requires c.answers == bio.answers && bio.sent == [] && bio.calls == 0
      ensures Valid() && Settings() == c && Abs() == Initial(flight) && fresh(buffer) && this.bio == bio
      ensures c.maxFragment + c.overhead + |flight| + ALIGN - 1 <= 0xffff ==> InOrder()
    {
      maxFragment, overhead, moving, partial, seal := c.maxFragment, c.overhead, c.moving, c.partial, c.seal;
      this.alignPrefix, this.bio, this.flight := alignPrefix, bio, flight;
      buffer := new SslBuffer();
      records, wnum, pending, wpendTot, wpendAddr, wpendRet := 0, 0, false, 0, 0, 0;
      recs, queue, wire := [], [], [];
    }

    /** Flushes the buffer. */
    method FlushBuffer() returns (ret: int)
      requires Valid()
      modifies this`queue, this`wire, buffer, bio
      ensures Valid() && (Abs(), ret) == Flushed(Settings(), old(Abs()))
      ensures buffer.buf == old(buffer.buf) || buffer.buf == null
      ensures old(InOrder()) ==> InOrder()
    {
      hide Drain;
      ghost var before := queue;
      ret := Flush(buffer, bio);
      ghost var k := |before| - buffer.size;
      wire, queue := wire + before[..k], before[k..];
      assert old(buffer.NoWrap()) ==> bio.sent + buffer.Contents() == old(bio.sent + buffer.Contents());
      if old(InOrder()) {
        StillInOrder(old(wire), before, bio.sent, buffer.Contents(), k);
      }
    }

    /** `ssl3_write_pending` */
    method WritePending(addr: nat, len: nat) returns (ret: int)
      requires Valid() && pending
      modifies this`pending, this`queue, this`wire, buffer, bio
      ensures Valid() && (Abs(), ret) == FinishPending(Settings(), old(Abs()), addr, len)
      ensures buffer.buf == old(buffer.buf) || buffer.buf == null
      ensures old(InOrder()) ==> InOrder()
    {
      hide Flushed;
      if wpendTot > len || (!moving && wpendAddr != addr) {
        return -1;
      }
      ret := FlushBuffer();
      if ret <= 0 {
        return;
      }
      pending := false;
      return wpendRet;
    }

    method Put(s: seq<byte>)
      requires Valid() && |s| <= buffer.cap - buffer.size && buffer.buf != null
      modifies this`queue, buffer`size, buffer.buf
      ensures Valid() && queue == old(queue) + s && buffer.size == old(buffer.size) + |s|
      ensures old(InOrder()) ==> InOrder()
    {
      buffer.Append(s);
      queue := queue + s;
    }

    /** Room for the record; unsent handshake data goes in front. */
    method MakeRoom(len: nat, memory: Memory) returns (ok: bool)
      requires Valid() && buffer.size == 0 && len > 0
      modifies this`flight, this`queue, buffer, buffer.buf
      ensures Valid() && (ok <==> MaxOut(Settings(), old(Abs()), len) <= MAX_CAP)
      ensures Abs() == if ok then Room(Settings(), old(Abs()), len) else old(Abs())
      ensures ok ==> buffer.buf != null
      ensures buffer.buf == old(buffer.buf) || fresh(buffer.buf)
      ensures old(InOrder()) && len <= maxFragment ==> InOrder()
    {
      var maxOut := len + overhead + |flight|;
      ok := buffer.EnsureCap(|flight| + alignPrefix, maxOut, memory);
      if ok {
        Put(flight);
        flight := [];
      }
    }

    /** The record, behind what is in the buffer. */
    method SealRecord(addr: nat, data: seq<byte>) returns (ok: bool)
      requires Valid() && buffer.buf != null
      modifies this`records, this`pending, this`wpendTot, this`wpendAddr, this`wpendRet, this`recs, this`queue, buffer`size, buffer.buf
      ensures Valid() && (Abs(), ok) == Seal(Settings(), old(Abs()), addr, data)
      ensures old(InOrder()) ==> InOrder()
    {
      hide InOrder;
      var ct := seal(records, data);
      if ct.None? || |ct.value| > buffer.cap - buffer.size {
        return false;
      }
      Put(ct.value);
      records := records + 1;
      recs := recs + [Rec(data, ct.value)];
      wpendTot, wpendAddr, wpendRet, pending := |data|, addr, |data|, true;
      return true;
    }

    /** The part of `do_ssl3_write` that makes a record. */
    method MakeRecord(addr: nat, data: seq<byte>, memory: Memory) returns (ok: bool)
      requires Valid() && 0 < |data| && buffer.size == 0
      modifies this`records, this`pending, this`wpendTot, this`wpendAddr, this`wpendRet, this`flight, this`recs, this`queue, buffer, buffer.buf
      ensures Valid() && (Abs(), ok) == TlsWriterSpec.MakeRecord(Settings(), old(Abs()), addr, data)
      ensures buffer.buf == old(buffer.buf) || fresh(buffer.buf)
      ensures old(InOrder()) && |data| <= maxFragment ==> InOrder()
    {
      hide InOrder, Seal, Room;
      ok := MakeRoom(|data|, memory);
      if ok {
        ok := SealRecord(addr, data);
      }
    }

    /** `do_ssl3_write` */
    method DoWrite(addr: nat, data: seq<byte>, memory: Memory) returns (ret: int)
      requires Valid()
      modifies this`records, this`pending, this`wpendTot, this`wpendAddr, this`wpendRet, this`flight, this`recs, this`queue, this`wire, buffer, buffer.buf, bio
      ensures Valid() && (Abs(), ret) == TlsWriterSpec.DoWrite(Settings(), old(Abs()), addr, data)
      ensures buffer.buf == old(buffer.buf) || buffer.buf == null || fresh(buffer.buf)
      ensures old(InOrder()) && |data| <= maxFragment ==> InOrder()
    {
      hide FinishPending, TlsWriterSpec.MakeRecord, InOrder;
      if pending {
        ret := WritePending(addr, |data|);
        return;
      }
      if |data| > MAX_PLAIN_LENGTH || buffer.size > 0 {
        return -1;
      }
      if |data| == 0 {
        return 0;
      }
      var ok := MakeRecord(addr, data, memory);
      if !ok {
        return -1;
      }
      ret := WritePending(addr, |data|);
    }

    /** The loop of `ssl3_write_app_data`, from position `start` of the data. */
    method WriteLoop(addr: nat, data: seq<byte>, start: nat, memory: Memory) returns (ret: int, tot: nat)
      requires Valid() && start <= |data|
      modifies this`records, this`pending, this`wpendTot, this`wpendAddr, this`wpendRet, this`flight, this`recs, this`queue, this`wire, buffer, buffer.buf, bio
      ensures Valid() && (Abs(), ret, tot) == TlsWriterSpec.WriteLoop(Settings(), old(Abs()), addr, data, start)
      ensures buffer.buf == old(buffer.buf) || buffer.buf == null || fresh(buffer.buf)
      ensures old(InOrder()) ==> InOrder()
    {
      hide TlsWriterSpec.DoWrite, InOrder;
      tot := start;
      ghost var all := TlsWriterSpec.WriteLoop(Settings(), Abs(), addr, data, tot);
      while true
        invariant Valid() && tot <= |data| && all == TlsWriterSpec.WriteLoop(Settings(), Abs(), addr, data, tot)
        invariant buffer.buf == old(buffer.buf) || buffer.buf == null || fresh(buffer.buf)
        invariant old(InOrder()) ==> InOrder()
        decreases |data| - tot
      {
        var n := |data| - tot;
        var nw := if n > maxFragment then maxFragment else n;
        assert data[tot..tot + nw] == Stretch(Settings(), data, tot);
        ret := DoWrite(addr + tot, data[tot..tot + nw], memory);
        if ret <= 0 {
          return;
        }
        if ret == n || partial {
          return tot + ret, tot;
        }
        tot := tot + ret;
      }
    }

    /** `ssl3_write_app_data`, without early data. */
    method WriteAppData(addr: nat, data: seq<byte>, memory: Memory) returns (ret: int)
      requires Valid()
      modifies this, buffer, buffer.buf, bio
      ensures Valid() && (Abs(), ret) == WriteApp(Settings(), old(Abs()), addr, data)
      ensures buffer.buf == old(buffer.buf) || buffer.buf == null || fresh(buffer.buf)
      ensures old(InOrder()) ==> InOrder()
    {
      hide TlsWriterSpec.WriteLoop;
      var tot := wnum;
      wnum := 0;
      if |data| < tot {
        return -1;
      }
      ret, tot := WriteLoop(addr, data, tot, memory);
      if ret <= 0 {
        wnum := tot;
      }
    }
  }

  /** What has been taken from the front of the queue is at the end of the wire. */
  lemma StillInOrder(wire: seq<byte>, queue: seq<byte>, sent: seq<byte>, contents: seq<byte>, k: nat)
    requires wire + queue == sent + contents && k <= |queue| && |contents| == |queue| - k
    ensures sent == wire + queue[..k] && contents == queue[k..]
  {
    var all := wire + queue;
    assert sent == all[..|wire| + k] && contents == all[|wire| + k..];
  }

  /** A caller that retries until all of its data is reported, `attempts` times
      at most. What it gets reported is the front of the data; and what leaves is
      the ciphertexts of records whose plaintexts are just that, and behind it
      what is sealed of the rest. */
  method SendAll(w: AppDataWriter, addr: nat, data: seq<byte>, attempts: nat, memory: Memory, ghost flight: seq<byte>, ghost acked: seq<byte>)
    returns (done: nat, ghost log: Log)
    requires w.Valid() && w.InOrder() && PendingOk(w.Settings(), w.Abs())
    requires Honest(w.Settings(), w.Abs(), flight) && Consistent(w.Abs(), Log(acked, []))
    modifies w, w.buffer, w.buffer.buf, w.bio
    ensures w.Valid() && w.InOrder() && Honest(w.Settings(), w.Abs(), flight)
    ensures done <= |data| && log.acked == acked + data[..done] && Consistent(w.Abs(), log)
    ensures log.unfinished == [] || log.unfinished == data[done..]
    ensures w.bio.sent + w.buffer.Contents() == (if w.flight == [] then flight else []) + Wires(w.recs)
    ensures Plains(w.recs) == acked + data[..done] + log.unfinished[..Progress(w.Abs())]
  {
    hide w.InOrder, WriteApp, Consistent, RecordsOk, PendingOk, Plains, Honest, Wires, Retries, Progress;
    done := 0;
    log := Log(acked, []);
    assert acked + data[..0] == acked;
    for i := 0 to attempts
      invariant w.Valid() && w.InOrder() && PendingOk(w.Settings(), w.Abs()) && Honest(w.Settings(), w.Abs(), flight)
      invariant w.buffer.buf == old(w.buffer.buf) || w.buffer.buf == null || fresh(w.buffer.buf)
      invariant done <= |data| && log.acked == acked + data[..done] && Consistent(w.Abs(), log)
      invariant log.unfinished == [] || log.unfinished == data[done..]
    {
      if done == |data| {
        break;
      }
      var rest := data[done..];
      ghost var s := w.Abs();
      WhatIsSealedIsKept(s, log, rest);
      WriteAppHonest(w.Settings(), s, addr + done, rest, flight);
      WriteAppSeals(w.Settings(), s, log, addr + done, rest);
      var ret := w.WriteAppData(addr + done, rest, memory);
      log := Reported(log, rest, ret);
      if ret > 0 {
        assert acked + data[..done] + rest[..ret] == acked + data[..done + ret];
        done := done + ret;
      }
    }
    RealBytes(w, flight);
    SealedBytes(w.Abs(), log);
  }

  lemma WhatIsSealedIsKept(s: State, w: Log, data: seq<byte>)
    requires Consistent(s, w) && (w.unfinished == [] || w.unfinished == data)
    ensures Retries(s, w, data)
  {
  }

  lemma SealedBytes(s: State, w: Log)
    requires Consistent(s, w)
    ensures Progress(s) <= |w.unfinished| && Plains(s.recs) == w.acked + w.unfinished[..Progress(s)]
  {
  }

  lemma RealBytes(w: AppDataWriter, flight: seq<byte>)
    requires w.Valid() && w.InOrder() && Honest(w.Settings(), w.Abs(), flight)
    ensures w.bio.sent + w.buffer.Contents() == (if w.flight == [] then flight else []) + Wires(w.recs)
  {
  }
}
