/** The write buffer of a TLS connection (ssl_buffer.cc, `SSLBuffer`) and its
    flush to a stream that may take only part of the data. */
module TlsBuffer {
  import opened Wrappers
  import opened Bytes

  const ALIGN := 8
  const MAX_CAP := 0xffff

  /** What an allocation returns: where it lies, and what happens to be in it. */
  datatype Memory = Memory(address: nat, content: nat -> byte)

  class SslBuffer {
    var buf: array?<byte>
    var offset: nat
    var size: nat
    var cap: nat

    /** The region of `cap` bytes from `offset` on lies in the allocation. */
    ghost predicate Valid()
      reads this
    {
      && size <= cap <= MAX_CAP
      && if buf == null then offset == 0 && cap == 0 else offset + cap <= buf.Length
    }

    /** The 16-bit offset cannot wrap. */
    ghost predicate NoWrap()
      reads this
    {
      offset + cap <= 0xffff
    }

    ghost function Contents(): (s: seq<byte>)
      requires Valid()
      reads this, buf
      ensures |s| == size
    {
      if buf == null then [] else buf[offset..offset + size]
    }

    constructor ()
      ensures Valid() && NoWrap() && Contents() == [] && buf == null
    {
      buf, offset, size, cap := null, 0, 0, 0;
    }

    method Clear()
      modifies this
      ensures Valid() && NoWrap() && Contents() == [] && buf == null && size == 0
    {
      buf, offset, size, cap := null, 0, 0, 0;
    }

    /** The data moves to the new allocation, if one is needed, and is placed
        there so that what follows a header of the given length is aligned. */
    method EnsureCap(headerLen: nat, newCap: nat, memory: Memory) returns (ok: bool)
      requires Valid()
      modifies this
      ensures Valid() && Contents() == old(Contents()) && size == old(size) && (ok <==> newCap <= MAX_CAP)
      ensures cap == if ok && old(cap) < newCap then newCap else old(cap)
      ensures ok && old(cap) < newCap ==>
                && fresh(buf) && offset < ALIGN && (memory.address + offset + headerLen) % ALIGN == 0
                && forall i | 0 <= i < offset :: buf[i] == memory.content(i)
      ensures !ok || old(cap) >= newCap ==> buf == old(buf) && offset == old(offset)
      ensures old(NoWrap()) && newCap + ALIGN - 1 <= 0xffff ==> NoWrap()
    {
      if newCap > MAX_CAP {
        return false;
      }
      if cap >= newCap {
        return true;
      }
      var newBuf := new byte[newCap + ALIGN - 1](i requires 0 <= i => memory.content(i));
      var newOffset := (-(headerLen as int) - memory.address) % ALIGN;
      Aligned(headerLen, memory.address);
      if buf != null {
        Store(newBuf, newOffset, buf[offset..offset + size]);
      }
      assert forall i | 0 <= i < newOffset :: newBuf[..newOffset][i] == memory.content(i);
      buf := newBuf;
      offset := newOffset;
      cap := newCap;
      return true;
    }

    /** Bytes stored in `remaining()` and then reported by `DidWrite`. */
    method Append(s: seq<byte>)
      requires Valid() && |s| <= cap - size && buf != null
      modifies this`size, buf
      ensures Valid() && Contents() == old(Contents()) + s && size == old(size) + |s|
      ensures forall i | 0 <= i < offset :: buf[i] == old(buf[i])
    {
      ghost var before := buf[..offset + size];
      Store(buf, offset + size, s);
      assert buf[..offset + size + |s|] == before + s;
      assert forall i | 0 <= i < offset :: before[i] == buf[..offset + size][i];
      assert old(Contents()) == before[offset..];
      size := size + |s|;
      assert Contents() == (before + s)[offset..];
    }

    /** The front of the data is gone. The 16-bit offset is where the rest of the
        data is exactly if it does not wrap. */
    method Consume(len: nat)
      requires Valid() && len <= size
      modifies this`offset, this`size, this`cap
      ensures Valid() && size == old(size) - len && cap == old(cap) - len && (old(NoWrap()) ==> NoWrap())
      ensures offset == (old(offset) + len) % 0x1_0000
      ensures offset == old(offset) + len <==> old(offset) + len < 0x1_0000
      ensures old(offset) + len < 0x1_0000 || len == old(size) ==> Contents() == old(Contents())[len..]
    {
      ghost var was := Contents();
      offset := (offset + len) % 0x1_0000;
      size := size - len;
      cap := cap - len;
      assert |Contents()| == size;
    }
  }

  lemma Aligned(headerLen: nat, address: nat)
    ensures (address + (-(headerLen as int) - address) % ALIGN + headerLen) % ALIGN == 0
  {
  }

  /** The wrap reached: of a full buffer of ones behind seven bytes of slack, all
      but four are consumed, and what is left to write are zeros that were in
      the slack when it was allocated. */
  method WrapLosesData() returns (b: SslBuffer)
    ensures fresh(b) && b.Valid() && b.size == 4 && b.Contents() == [0, 0, 0, 0]
  {
    b := new SslBuffer();
    var _ := b.EnsureCap(1, MAX_CAP, Memory(0, _ => 0));
    assert b.offset == 7;
    var ones := seq(MAX_CAP, _ => 1 as byte);
    b.Append(ones);
    assert b.Contents() == ones;
    b.Consume(MAX_CAP - 4);
    assert b.offset == 2;
    assert forall i | 0 <= i < 7 :: b.buf[i] == 0;
    assert b.buf[2..6] == [0, 0, 0, 0];
    assert b.Contents() == b.buf[2..6];
  }

  /** A stream BIO: the i-th write takes `answers(i)` bytes, never more than it
      is given, or fails. */
  class StreamBio {
    const answers: nat -> int
    var calls: nat
    var sent: seq<byte>

    constructor (answers: nat -> int)
      ensures this.answers == answers && calls == 0 && sent == []
    {
      this.answers := answers;
      calls, sent := 0, [];
    }

    method Write(s: seq<byte>) returns (ret: int)
      requires s != []
      modifies this
      ensures ret == Taken(answers, old(calls), |s|) <= |s| && calls == old(calls) + 1
      ensures sent == if ret <= 0 then old(sent) else old(sent) + s[..ret]
    {
      var n := answers(calls);
      calls := calls + 1;
      ret := if n > |s| then |s| else n;
      if ret > 0 {
        sent := sent + s[..ret];
      }
    }
  }

  /** What the i-th write of `size` bytes returns. */
  function Taken(answers: nat -> int, i: nat, size: nat): int {
    if answers(i) > size then size else answers(i)
  }

  /** Writing until nothing is left or a write fails: how much is left, the
      number of writes so far, and the result. */
  function Drain(answers: nat -> int, calls: nat, size: nat): (r: (nat, nat, int))
    ensures r.0 <= size && (r.2 > 0 <==> r.0 == 0)
    decreases size
  {
    if size == 0 then (0, calls, 1)
    else
      var n := Taken(answers, calls, size);
      if n <= 0 then (size, calls + 1, n) else Drain(answers, calls + 1, size - n)
  }

  lemma DrainStep(answers: nat -> int, calls: nat, size: nat)
    ensures var n := Taken(answers, calls, size);
            Drain(answers, calls, size) ==
              if size == 0 then (0, calls, 1)
              else if n <= 0 then (size, calls + 1, n)
              else Drain(answers, calls + 1, size - n)
  {
  }

  /** `tls_write_buffer_flush`. Whatever the stream takes leaves the buffer: sent
      and kept bytes together stay the same. */
  method Flush(buffer: SslBuffer, bio: StreamBio) returns (ret: int)
    requires buffer.Valid()
    modifies buffer, bio
    ensures buffer.Valid() && (old(buffer.NoWrap()) ==> buffer.NoWrap())
    ensures (buffer.size, bio.calls, ret) == Drain(bio.answers, old(bio.calls), old(buffer.size))
    ensures buffer.cap == if ret > 0 then 0 else old(buffer.cap) - (old(buffer.size) - buffer.size)
    ensures old(buffer.NoWrap()) ==> bio.sent + buffer.Contents() == old(bio.sent + buffer.Contents())
    ensures buffer.buf == old(buffer.buf) || buffer.buf == null
    ensures ret > 0 ==> buffer.size == 0 && buffer.Contents() == []
    ensures ret <= 0 ==> buffer.size > 0
  {
    hide Drain, Taken, buffer.Contents;
    ghost var total := bio.sent + buffer.Contents();
    ghost var all := Drain(bio.answers, bio.calls, buffer.size);
    while buffer.size > 0
      invariant buffer.Valid() && buffer.buf == old(buffer.buf) && buffer.size <= old(buffer.size)
      invariant all == Drain(bio.answers, bio.calls, buffer.size)
      invariant buffer.cap == old(buffer.cap) - (old(buffer.size) - buffer.size)
      invariant old(buffer.NoWrap()) ==> buffer.NoWrap() && bio.sent + buffer.Contents() == total
      decreases buffer.size
    {
      DrainStep(bio.answers, bio.calls, buffer.size);
      ret := FlushOnce(buffer, bio);
      if ret <= 0 {
        return;
      }
    }
    DrainStep(bio.answers, bio.calls, 0);
    assert bio.sent + [] == bio.sent;
    buffer.Clear();
    return 1;
  }

  /** One write of the data there is. */
  method FlushOnce(buffer: SslBuffer, bio: StreamBio) returns (ret: int)
    requires buffer.Valid() && buffer.size > 0
    modifies buffer`offset, buffer`size, buffer`cap, bio
    ensures buffer.Valid() && (old(buffer.NoWrap()) ==> buffer.NoWrap())
    ensures ret == Taken(bio.answers, old(bio.calls), old(buffer.size)) && bio.calls == old(bio.calls) + 1
    ensures buffer.size == old(buffer.size) - (if ret > 0 then ret else 0)
    ensures buffer.cap == old(buffer.cap) - (if ret > 0 then ret else 0)
    ensures ret <= 0 || old(buffer.NoWrap()) ==> bio.sent + buffer.Contents() == old(bio.sent + buffer.Contents())
  {
    ghost var data, sent := buffer.Contents(), bio.sent;
    ret := bio.Write(buffer.buf[buffer.offset..buffer.offset + buffer.size]);
    if ret > 0 {
      buffer.Consume(ret);
      SplitAt(sent, data, ret);
    }
  }

  lemma SplitAt(a: seq<byte>, d: seq<byte>, k: nat)
    requires k <= |d|
    ensures a + d == a + d[..k] + d[k..]
  {
  }
}
