/** The encoder with its mutable streams (pb_encode.c). A stream either counts
    (a sizing stream) or writes to memory and stops when that is full. */
module PbEncoder {
  import opened Wrappers
  import opened PbVarint
  import opened PbDescriptor
  import opened PbEncoderSpec

  /** A stream as a value: bytes written by it, the memory up to its position,
      and its error. */
  datatype Out = Out(count: nat, data: seq<byte>, err: Option<EncodeError>)

  /** What a stream with `room` bytes left makes of `run`: all of it if it fits
      or is only counted, and otherwise a part and "stream full". */
  ghost predicate Emitted(was: Out, run: Run, now: Out, sizing: bool, room: nat) {
    if sizing then now == Out(was.count + |run.out|, was.data, run.err)
    else if |run.out| <= room then now == Out(was.count + |run.out|, was.data + run.out, run.err)
    else
      && now.err == Some(StreamFull)
      && was.data <= now.data <= was.data + run.out
      && now.count - was.count == |now.data| - |was.data| <= room
  }

  lemma EmittedThen(was: Out, a: Run, mid: Out, b: Run, now: Out, sizing: bool, room: nat, left: nat)
    requires Emitted(was, a, mid, sizing, room) && mid.err == None && (!sizing ==> left + mid.count == room + was.count)
    requires Emitted(mid, b, now, sizing, left)
    ensures Emitted(was, Then(a, b), now, sizing, room)
  {
    assert was.data + (a.out + b.out) == was.data + a.out + b.out;
  }

  lemma EmittedNothing(was: Out, sizing: bool, room: nat)
    requires was.err == None
    ensures Emitted(was, NOTHING, was, sizing, room)
  {
    assert was.data + [] == was.data;
  }

  /** Once a stream has failed, what comes after does not matter. */
  lemma EmittedStop(was: Out, a: Run, b: Run, now: Out, sizing: bool, room: nat)
    requires Emitted(was, a, now, sizing, room) && now.err.Some?
    ensures Emitted(was, Then(a, b), now, sizing, room)
  {
    if a.err.None? {
      assert was.data + (a.out + b.out) == was.data + a.out + b.out;
    }
  }

  class OStream {
    const sizing: bool
    const buf: array<byte>
    const maxSize: nat
    var state: nat
    var written: nat
    var err: Option<EncodeError>

    ghost predicate Valid()
      reads this
    {
      !sizing ==> written <= maxSize && state + (maxSize - written) <= buf.Length
    }

    ghost function Abs(): Out
      requires Valid()
      reads this, buf
    {
      Out(written, if sizing then [] else buf[..state], err)
    }

    ghost function Room(): nat
      requires Valid()
      reads this
    {
      if sizing then 0 else maxSize - written
    }

    /** PB_OSTREAM_SIZING */
    constructor Sizing()
      ensures Valid() && sizing && Abs() == Out(0, [], None) && fresh(buf)
    {
      sizing, maxSize, state, written, err := true, 0, 0, 0, None;
      buf := new byte[0](_ => 0);
    }

    /** `pb_ostream_from_buffer`, and substreams that write behind another. */
    constructor FromBuffer(buf: array<byte>, state: nat, maxSize: nat)
      requires state + maxSize <= buf.Length
      ensures Valid() && !sizing && this.buf == buf && this.maxSize == maxSize && Room() == maxSize
      ensures Abs() == Out(0, buf[..state], None)
    {
      this.sizing, this.buf, this.maxSize, this.state, written, err := false, buf, maxSize, state, 0, None;
    }

    /** `pb_write` */
    method Write(s: seq<byte>) returns (ok: bool)
      requires Valid() && err == None
      modifies this, buf
      ensures Valid() && (ok <==> err == None)
      ensures Emitted(old(Abs()), Put(s), Abs(), sizing, old(Room()))
    {
      if !sizing {
        if written + |s| > maxSize {
          err := Some(StreamFull);
          return false;
        }
        forall i | 0 <= i < |s| {
          buf[state + i] := s[i];
        }
        state := state + |s|;
        assert buf[..state] == old(buf[..state]) + s;
      }
      written := written + |s|;
      return true;
    }

    /** `pb_write` without data, for a sizing stream. */
    method Count(n: nat)
      requires Valid() && err == None && sizing
      modifies this
      ensures Valid() && Abs() == old(Abs()).(count := old(written) + n)
    {
      written := written + n;
    }

    method Stop(e: RunError)
      requires Valid() && err == None
      modifies this
      ensures Valid() && Emitted(old(Abs()), Fail(e), Abs(), sizing, old(Room()))
    {
      err := Some(e);
      assert Abs().data + [] == Abs().data;
    }
  }

  // ---------------------------------------------------------------- numbers

  /** What the loop of pb_encode_varint has stored of the varint `w` when the
      number `v` is left: every byte has its continuation bit set, the last one
      wrongly. */
  ghost predicate Filled(w: seq<byte>, done: seq<byte>, v: nat) {
    if v != 0 then done + Varint(v) == w
    else done != [] && var last := |done| - 1; done[last] >= 128 && done[..last] + [done[last] - 128] == w
  }

  lemma FilledStep(w: seq<byte>, done: seq<byte>, v: nat)
    requires v != 0 && Filled(w, done, v)
    ensures |done| < |w| && Filled(w, done + [v % 128 + 128], v / 128)
  {
    var next := done + [v % 128 + 128];
    if v < 128 {
      assert v / 128 == 0 && v % 128 == v;
      assert next[..|done|] == done;
    } else {
      assert Varint(v) == [128 + v % 128] + Varint(v / 128);
      assert next + Varint(v / 128) == done + Varint(v);
    }
  }

  /** The loop of `pb_encode_varint`: seven bits a byte into a buffer of ten. */
  method FillVarint(value: nat) returns (s: seq<byte>)
    requires 128 <= value < U64
    ensures s == Varint(value)
  {
    hide Varint;
    TenBytes(value);
    ghost var w := Varint(value);
    var buffer := new byte[10](_ => 0);
    var i, v := 0, value;
    assert Filled(w, [], value) by {
      assert [] + w == w;
    }
    assert buffer[..0] == [];
    while v != 0
      invariant i <= 10 && Filled(w, buffer[..i], v)
      decreases v
    {
      ghost var done := buffer[..i];
      FilledStep(w, done, v);
      buffer[i] := v % 128 + 128;
      assert buffer[..i + 1] == done + [v % 128 + 128];
      v := v / 128;
      i := i + 1;
    }
    FilledEnd(w, buffer[..i]);
    buffer[i - 1] := buffer[i - 1] % 128;
    return buffer[..i];
  }

  lemma FilledEnd(w: seq<byte>, done: seq<byte>)
    requires Filled(w, done, 0)
    ensures done != [] && done[..|done| - 1] + [done[|done| - 1] % 128] == w
  {
  }

  /** `pb_encode_varint` */
  method EncodeVarint(stream: OStream, value: nat) returns (ok: bool)
    requires stream.Valid() && stream.err == None && value < U64
    modifies stream, stream.buf
    ensures stream.Valid() && (ok <==> stream.err == None)
    ensures Emitted(old(stream.Abs()), Put(Varint(value)), stream.Abs(), stream.sizing, old(stream.Room()))
  {
    var s := [];
    if value <= 127 {
      s := [value];
    } else {
      s := FillVarint(value);
    }
    ok := stream.Write(s);
  }

  /** `v` without its lowest n bytes. */
  function Shifted(v: nat, n: nat): nat {
    if n == 0 then v else Shifted(v / 256, n - 1)
  }

  lemma LeUnfold(v: nat, n: nat)
    ensures Le(v, n) == if n == 0 then [] else [v % 256] + Le(v / 256, n - 1)
    ensures Shifted(v, n) == if n == 0 then v else Shifted(v / 256, n - 1)
  {
  }

  lemma {:induction false} LeSplit(v: nat, a: nat, b: nat)
    ensures Le(v, a + b) == Le(v, a) + Le(Shifted(v, a), b)
  {
    hide Le, Shifted;
    LeUnfold(v, a);
    LeUnfold(v, a + b);
    if a == 0 {
      assert [] + Le(v, b) == Le(v, b);
    } else {
      LeSplit(v / 256, a - 1, b);
      var low, rest := Le(v / 256, a - 1), Le(Shifted(v / 256, a - 1), b);
      assert [v % 256] + (low + rest) == [v % 256] + low + rest;
    }
  }

  /** The four bytes of a number, each shifted down by eight more bits. */
  lemma LeBytes(v: nat, v1: nat, v2: nat, v3: nat)
    requires v1 == v / 256 && v2 == v1 / 256 && v3 == v2 / 256
    ensures Le(v, 4) == [v % 256, v1 % 256, v2 % 256, v3 % 256] && Shifted(v, 4) == v3 / 256
  {
    assert Le(v2, 2) == [v2 % 256] + Le(v3, 1);
    assert Le(v3, 1) == [v3 % 256] + Le(v3 / 256, 0);
    assert Shifted(v2, 2) == Shifted(v3, 1) == Shifted(v3 / 256, 0);
  }

  method FourBytes(v: nat) returns (s: seq<byte>, rest: nat)
    ensures s == Le(v, 4) && rest == Shifted(v, 4)
  {
    var v1 := v / 256;
    var v2 := v1 / 256;
    var v3 := v2 / 256;
    LeBytes(v, v1, v2, v3);
    return [v % 256, v1 % 256, v2 % 256, v3 % 256], v3 / 256;
  }

  /** `pb_encode_string` */
  method EncodeString(stream: OStream, s: seq<byte>) returns (ok: bool)
    requires stream.Valid() && stream.err == None && |s| < U64
    modifies stream, stream.buf
    ensures stream.Valid() && (ok <==> stream.err == None)
    ensures Emitted(old(stream.Abs()), Put(Delimited(s)), stream.Abs(), stream.sizing, old(stream.Room()))
  {
    hide Varint, Emitted;
    ghost var was, room := stream.Abs(), stream.Room();
    ok := EncodeVarint(stream, |s|);
    if ok {
      ghost var mid, left := stream.Abs(), stream.Room();
      ok := stream.Write(s);
      EmittedThen(was, Put(Varint(|s|)), mid, Put(s), stream.Abs(), stream.sizing, room, left);
    } else {
      EmittedStop(was, Put(Varint(|s|)), Put(s), stream.Abs(), stream.sizing, room);
    }
  }

  // ---------------------------------------------------------------- values

  /** The table of field encoders. */
  method EncodeVal(stream: OStream, t: LType, size: nat, v: Val) returns (ok: bool)
    requires stream.Valid() && stream.err == None && SizeOk(t, size) && ValOk(t, size, v) && (t.LMessage? ==> DescOk(t.desc))
    modifies stream, stream.buf
    ensures stream.Valid() && (ok <==> stream.err == None)
    ensures Emitted(old(stream.Abs()), RunVal(t, size, v), stream.Abs(), stream.sizing, old(stream.Room()))
    decreases t, 0
  {
    hide Emitted, Varint, Le, Delimited, ZigZag, MsgOk;
    match t
    case LFixed32 =>
      var low, _ := FourBytes(v.n);
      ok := stream.Write(low);
    case LFixed64 =>
      ok := EncodeFixed64(stream, v.n);
    case LBytes =>
      if v.len + SIZE_BYTES > size {
        stream.Stop(BytesSizeExceeded);
        return false;
      }
      ok := EncodeString(stream, v.bytes[..v.len]);
    case LString =>
      var n := 0;
      while n < size && v.buf[n] != 0
        invariant n <= StrLen(v.buf) && n <= size
      {
        n := n + 1;
      }
      ok := EncodeString(stream, v.buf[..n]);
    case LFixedBytes =>
      ok := EncodeString(stream, v.buf);
    case LMessage(d) =>
      ok := EncodeSubmessage(stream, d, v.m);
    case _ =>
      ok := EncodeInteger(stream, t, size, v.n);
  }

  /** `pb_enc_varint`, `pb_enc_uvarint` and `pb_enc_svarint` */
  method EncodeInteger(stream: OStream, t: LType, size: nat, n: int) returns (ok: bool)
    requires stream.Valid() && stream.err == None && (t.LVarint? || t.LUvarint? || t.LSvarint?) && ValOk(t, size, Num(n))
    modifies stream, stream.buf
    ensures stream.Valid() && (ok <==> stream.err == None)
    ensures Emitted(old(stream.Abs()), RunVal(t, size, Num(n)), stream.Abs(), stream.sizing, old(stream.Room()))
  {
    hide Emitted, Varint, ZigZag;
    if !IntSize(size) {
      stream.Stop(InvalidDataSize);
      return false;
    }
    var value := ToU64(n);
    if t.LSvarint? {
      ZigZagMeans(n);
      value := ZigZag(n);
    }
    ok := EncodeVarint(stream, value);
  }

  /** `pb_encode_fixed64` */
  method EncodeFixed64(stream: OStream, n: nat) returns (ok: bool)
    requires stream.Valid() && stream.err == None
    modifies stream, stream.buf
    ensures stream.Valid() && (ok <==> stream.err == None)
    ensures Emitted(old(stream.Abs()), Put(Le(n, 8)), stream.Abs(), stream.sizing, old(stream.Room()))
  {
    var low, more := FourBytes(n);
    var high, _ := FourBytes(more);
    LeSplit(n, 4, 4);
    ok := stream.Write(low + high);
  }

  /** `pb_encode_submessage`: the size is counted first, and the data then
      written to a substream of exactly that size. The size never changes in
      between. */
  method EncodeSubmessage(stream: OStream, d: Desc, m: Message) returns (ok: bool)
    requires stream.Valid() && stream.err == None && DescOk(d) && MsgOk(d, m)
    modifies stream, stream.buf
    ensures stream.Valid() && (ok <==> stream.err == None) && stream.err != Some(SubmessageSizeChanged)
    ensures Emitted(old(stream.Abs()), Enclosed(RunMsg(d, m)), stream.Abs(), stream.sizing, old(stream.Room()))
    decreases d, 2 + |d.fields|
  {
    hide Emitted, Varint, RunMsg, DescOk, MsgOk;
    ghost var was, room, run := stream.Abs(), stream.Room(), RunMsg(d, m);
    var sub := new OStream.Sizing();
    ok := EncodeMessage(sub, d, m);
    EmittedSizing(run, sub.Abs());
    if !ok {
      stream.Stop(sub.err.value);
      return false;
    }
    var size := sub.written;
    ok := EncodeVarint(stream, size % U64);
    EmittedError(was, Put(Varint(size % U64)), stream.Abs(), stream.sizing, room);
    if !ok {
      EmittedStop(was, Put(Varint(size % U64)), Put(run.out), stream.Abs(), stream.sizing, room);
      return false;
    }
    ghost var mid, left := stream.Abs(), stream.Room();
    if stream.sizing {
      stream.Count(size);
      EmittedCount(mid, run.out, stream.Abs(), left);
    } else if stream.written + size > stream.maxSize {
      stream.err := Some(StreamFull);
      EmittedFull(mid, run.out, left);
      ok := false;
    } else {
      ok := EncodeInside(stream, d, m, size);
    }
    EmittedThen(was, Put(Varint(size % U64)), mid, Put(run.out), stream.Abs(), stream.sizing, room, left);
  }

  /** The second pass: writing to a substream of `size` bytes. */
  method EncodeInside(stream: OStream, d: Desc, m: Message, size: nat) returns (ok: bool)
    requires stream.Valid() && stream.err == None && DescOk(d) && MsgOk(d, m) && !stream.sizing
    requires RunMsg(d, m).err == None && |RunMsg(d, m).out| == size <= stream.Room()
    modifies stream, stream.buf
    ensures stream.Valid() && ok && stream.err == None
    ensures Emitted(old(stream.Abs()), Put(RunMsg(d, m).out), stream.Abs(), false, old(stream.Room()))
    decreases d, 1 + |d.fields|, 1
  {
    hide Emitted, RunMsg, DescOk, MsgOk;
    ghost var was, room := stream.Abs(), stream.Room();
    var sub := new OStream.FromBuffer(stream.buf, stream.state, size);
    ok := EncodeMessage(sub, d, m);
    EmittedInside(was, RunMsg(d, m), sub.Abs(), size, room);
    stream.written := stream.written + sub.written;
    stream.state := sub.state;
    var err := sub.err;
    if sub.written != size {
      err := if err == None then Some(SubmessageSizeChanged) else err;
      ok := false;
    }
    stream.err := err;
  }

  lemma EmittedSizing(run: Run, now: Out)
    requires Emitted(Out(0, [], None), run, now, true, 0)
    ensures now.err == run.err && now.count == |run.out|
  {
  }

  lemma EmittedError(was: Out, run: Run, now: Out, sizing: bool, room: nat)
    requires Emitted(was, run, now, sizing, room)
    ensures now.err != Some(SubmessageSizeChanged)
  {
  }

  lemma EmittedFull(was: Out, out: seq<byte>, room: nat)
    requires |out| > room
    ensures Emitted(was, Put(out), was.(err := Some(StreamFull)), false, room)
  {
  }

  /** A substream of exactly the right size takes all of the message. */
  lemma EmittedInside(was: Out, run: Run, sub: Out, size: nat, room: nat)
    requires run.err == None && |run.out| == size <= room && was.err == None
    requires Emitted(Out(0, was.data, None), run, sub, false, size)
    ensures sub.count == size && sub.err == None
    ensures Emitted(was, Put(run.out), Out(was.count + sub.count, sub.data, sub.err), false, room)
  {
  }

  /** A submessage: its bytes behind their length, or only its error. */
  ghost function Enclosed(r: Run): Run {
    if r.err.Some? then Run([], r.err) else Put(Delimited(r.out))
  }

  method EncodeMessage(stream: OStream, d: Desc, m: Message) returns (ok: bool)
    requires stream.Valid() && stream.err == None && DescOk(d) && MsgOk(d, m)
    modifies stream, stream.buf
    ensures stream.Valid() && (ok <==> stream.err == None)
    ensures Emitted(old(stream.Abs()), RunMsg(d, m), stream.Abs(), stream.sizing, old(stream.Room()))
    decreases d, 1 + |d.fields|, 0
  {
    hide RunSlot, Emitted, SlotOk, FieldOk;
    ok := true;
    ghost var was, room, done := stream.Abs(), stream.Room(), NOTHING;
    EmittedNothing(was, stream.sizing, room);
    for i := 0 to |d.fields|
      invariant stream.Valid() && stream.err == None
      invariant done.err == None && Emitted(was, done, stream.Abs(), stream.sizing, room)
      invariant RunMsg(d, m) == Then(done, RunFields(d, m, i))
    {
      ghost var mid, left := stream.Abs(), stream.Room();
      ghost var run, rest := RunSlot(d.fields[i], m.slots[i], m.which), RunFields(d, m, i + 1);
      ThenThen(done, run, rest);
      ok := EncodeField(stream, d.fields[i], m.slots[i], m.which);
      EmittedThen(was, done, mid, run, stream.Abs(), stream.sizing, room, left);
      if !ok {
        EmittedStop(was, Then(done, run), rest, stream.Abs(), stream.sizing, room);
        return false;
      }
      done := Then(done, run);
    }
    assert done.out + [] == done.out;
  }

  lemma ThenThen(a: Run, b: Run, c: Run)
    ensures Then(a, Then(b, c)) == Then(Then(a, b), c)
  {
    assert a.out + (b.out + c.out) == a.out + b.out + c.out;
  }

  /** `encode_basic_field` */
  method EncodeField(stream: OStream, f: Field, s: Slot, which: seq<nat>) returns (ok: bool)
    requires stream.Valid() && stream.err == None && FieldOk(f) && SlotOk(f, s) && (f.rule.Oneof? ==> f.rule.group < |which|)
    modifies stream, stream.buf
    ensures stream.Valid() && (ok <==> stream.err == None)
    ensures Emitted(old(stream.Abs()), RunSlot(f, s, which), stream.Abs(), stream.sizing, old(stream.Room()))
    decreases f, 2
  {
    ghost var was := stream.Abs();
    assert was.data + [] == was.data;
    match f.rule
    case Required => ok := EncodeTagged(stream, f, s.v);
    case Optional(hasFlag) =>
      var has := if hasFlag then s.has else !IsDefault(f, s, which);
      if has {
        ok := EncodeTagged(stream, f, s.v);
      } else {
        ok := true;
      }
    case Repeated(fixed, max) =>
      ok := EncodeArray(stream, f, s.items, if fixed then max else s.count);
    case Oneof(g) =>
      if which[g] == f.tag {
        ok := EncodeTagged(stream, f, s.v);
      } else {
        ok := true;
      }
  }

  method EncodeTagged(stream: OStream, f: Field, v: Val) returns (ok: bool)
    requires stream.Valid() && stream.err == None && FieldOk(f) && ValOk(f.ltype, f.size, v)
    modifies stream, stream.buf
    ensures stream.Valid() && (ok <==> stream.err == None)
    ensures Emitted(old(stream.Abs()), Tagged(f, v), stream.Abs(), stream.sizing, old(stream.Room()))
    decreases f, 0
  {
    ghost var was, room, tag := stream.Abs(), stream.Room(), Put(Tag(WireType(f.ltype), f.tag));
    ok := EncodeVarint(stream, 8 * f.tag + WireType(f.ltype));
    if !ok {
      EmittedStop(was, tag, RunVal(f.ltype, f.size, v), stream.Abs(), stream.sizing, room);
      return false;
    }
    ghost var mid, left := stream.Abs(), stream.Room();
    ok := EncodeVal(stream, f.ltype, f.size, v);
    EmittedThen(was, tag, mid, RunVal(f.ltype, f.size, v), stream.Abs(), stream.sizing, room, left);
  }

  /** `encode_array` */
  method EncodeArray(stream: OStream, f: Field, items: seq<Val>, count: nat) returns (ok: bool)
    requires stream.Valid() && stream.err == None && FieldOk(f) && forall v | v in items :: ValOk(f.ltype, f.size, v)
    modifies stream, stream.buf
    ensures stream.Valid() && (ok <==> stream.err == None)
    ensures Emitted(old(stream.Abs()), RunArray(f, items, count), stream.Abs(), stream.sizing, old(stream.Room()))
    decreases f, 1, 4
  {
    ghost var was := stream.Abs();
    assert was.data + [] == was.data;
    if count == 0 {
      return true;
    }
    if count > |items| {
      stream.Stop(ArrayMaxSizeExceeded);
      return false;
    }
    if Packable(f.ltype) {
      ok := EncodePacked(stream, f, items[..count]);
    } else {
      ok := EncodeItems(stream, f, items[..count], true);
    }
  }

  /** A packed array: the data's size is computed or counted, then written
      before the data. */
  method EncodePacked(stream: OStream, f: Field, items: seq<Val>) returns (ok: bool)
    requires stream.Valid() && stream.err == None && FieldOk(f) && Packable(f.ltype) && forall v | v in items :: ValOk(f.ltype, f.size, v)
    modifies stream, stream.buf
    ensures stream.Valid() && (ok <==> stream.err == None)
    ensures Emitted(old(stream.Abs()), Packed(f, items), stream.Abs(), stream.sizing, old(stream.Room()))
    decreases f, 1, 3
  {
    ghost var was, room := stream.Abs(), stream.Room();
    ghost var tag, body := Put(Tag(WT_STRING, f.tag)), RunItems(f.ltype, f.size, items, []);
    ghost var data := if body.err.Some? then Fail(NoMessage) else Put(Delimited(body.out));
    ok := EncodeVarint(stream, 8 * f.tag + WT_STRING);
    if !ok {
      EmittedStop(was, tag, data, stream.Abs(), stream.sizing, room);
      return false;
    }
    ghost var mid, left := stream.Abs(), stream.Room();
    ok := EncodePackedData(stream, f, items);
    EmittedThen(was, tag, mid, data, stream.Abs(), stream.sizing, room, left);
  }

  ghost function Packed(f: Field, items: seq<Val>): Run {
    var body := RunItems(f.ltype, f.size, items, []);
    Then(Put(Tag(WT_STRING, f.tag)), if body.err.Some? then Fail(NoMessage) else Put(Delimited(body.out)))
  }

  method EncodePackedData(stream: OStream, f: Field, items: seq<Val>) returns (ok: bool)
    requires stream.Valid() && stream.err == None && FieldOk(f) && Packable(f.ltype) && forall v | v in items :: ValOk(f.ltype, f.size, v)
    modifies stream, stream.buf
    ensures stream.Valid() && (ok <==> stream.err == None)
    ensures var body := RunItems(f.ltype, f.size, items, []);
            Emitted(old(stream.Abs()), if body.err.Some? then Fail(NoMessage) else Put(Delimited(body.out)), stream.Abs(), stream.sizing, old(stream.Room()))
    decreases f, 1, 2
  {
    hide Varint, ValOk, MsgOk, DescOk, RunItems, Emitted;
    ghost var was, room, body := stream.Abs(), stream.Room(), RunItems(f.ltype, f.size, items, []);
    var counted := PackedSize(f, items);
    if counted.None? {
      stream.Stop(NoMessage);
      return false;
    }
    var size := counted.value;
    ok := EncodeVarint(stream, size % U64);
    if !ok {
      EmittedStop(was, Put(Varint(size % U64)), Put(body.out), stream.Abs(), stream.sizing, room);
      return false;
    }
    ghost var mid, left := stream.Abs(), stream.Room();
    if stream.sizing {
      stream.Count(size);
      EmittedCount(mid, body.out, stream.Abs(), left);
    } else {
      ok := EncodeItems(stream, f, items, false);
    }
    EmittedThen(was, Put(Varint(size % U64)), mid, Put(body.out), stream.Abs(), stream.sizing, room, left);
  }

  lemma EmittedCount(was: Out, out: seq<byte>, now: Out, room: nat)
    requires now == was.(count := was.count + |out|) && was.err == None
    ensures Emitted(was, Put(out), now, true, room)
  {
  }

  /** The size of a packed array: known for fixed sizes, counted otherwise. */
  method PackedSize(f: Field, items: seq<Val>) returns (size: Option<nat>)
    requires FieldOk(f) && Packable(f.ltype) && forall v | v in items :: ValOk(f.ltype, f.size, v)
    ensures var body := RunItems(f.ltype, f.size, items, []); size == if body.err.Some? then None else Some(|body.out|)
    decreases f, 1, 1
  {
    hide RunItems, ValOk;
    if f.ltype.LFixed32? {
      FixedItems(f.ltype, f.size, items);
      return Some(4 * |items|);
    }
    if f.ltype.LFixed64? {
      FixedItems(f.ltype, f.size, items);
      return Some(8 * |items|);
    }
    var sub := new OStream.Sizing();
    var ok := EncodeItems(sub, f, items, false);
    return if ok then Some(sub.written) else None;
  }

  lemma {:induction false} FixedItems(t: LType, size: nat, items: seq<Val>)
    requires t.LFixed32? || t.LFixed64?
    requires forall v | v in items :: ValOk(t, size, v)
    ensures var r := RunItems(t, size, items, []); r.err == None && |r.out| == (if t.LFixed32? then 4 else 8) * |items|
    decreases |items|
  {
    if items == [] {
    } else {
      assert items[0] in items;
      FixedItems(t, size, items[1..]);
    }
  }

  /** The items one by one, each behind the field's tag unless packed. */
  method EncodeItems(stream: OStream, f: Field, items: seq<Val>, tagged: bool) returns (ok: bool)
    requires stream.Valid() && stream.err == None && FieldOk(f) && forall v | v in items :: ValOk(f.ltype, f.size, v)
    modifies stream, stream.buf
    ensures stream.Valid() && (ok <==> stream.err == None)
    ensures Emitted(old(stream.Abs()), RunItems(f.ltype, f.size, items, if tagged then Tag(WireType(f.ltype), f.tag) else []),
                    stream.Abs(), stream.sizing, old(stream.Room()))
    decreases f, 1, 0
  {
    hide RunVal, Varint, Emitted, ValOk, SizeOk, MsgOk, DescOk;
    ghost var lead := if tagged then Tag(WireType(f.ltype), f.tag) else [];
    ghost var all := RunItems(f.ltype, f.size, items, lead);
    ghost var was, room, done := stream.Abs(), stream.Room(), NOTHING;
    ok := true;
    EmittedNothing(was, stream.sizing, room);
    for i := 0 to |items|
      invariant stream.Valid() && stream.err == None
      invariant done.err == None && Emitted(was, done, stream.Abs(), stream.sizing, room)
      invariant all == Then(done, RunItems(f.ltype, f.size, items[i..], lead))
    {
      ghost var mid, left := stream.Abs(), stream.Room();
      ghost var run, rest := Then(Put(lead), RunVal(f.ltype, f.size, items[i])), RunItems(f.ltype, f.size, items[i + 1..], lead);
      assert items[i..][0] == items[i] && items[i..][1..] == items[i + 1..] && items[i] in items;
      ThenThen(done, run, rest);
      if tagged {
        ok := EncodeTagged(stream, f, items[i]);
      } else {
        assert Then(Put([]), RunVal(f.ltype, f.size, items[i])) == RunVal(f.ltype, f.size, items[i]);
        ok := EncodeVal(stream, f.ltype, f.size, items[i]);
      }
      EmittedThen(was, done, mid, run, stream.Abs(), stream.sizing, room, left);
      if !ok {
        EmittedStop(was, Then(done, run), rest, stream.Abs(), stream.sizing, room);
        return false;
      }
      done := Then(done, run);
    }
    assert items[|items|..] == [] && done.out + [] == done.out;
  }

  // ---------------------------------------------------------------- sizes

  /** `pb_get_encoded_size` */
  method GetEncodedSize(d: Desc, m: Message) returns (size: Option<nat>)
    requires DescOk(d) && MsgOk(d, m)
    ensures var r := RunMsg(d, m); size == if r.err == None then Some(|r.out|) else None
  {
    var stream := new OStream.Sizing();
    var ok := EncodeMessage(stream, d, m);
    return if ok then Some(stream.written) else None;
  }

  /** `pb_encode` into a buffer: it succeeds exactly if the message can be
      encoded and its bytes fit, and then they are what the buffer holds. */
  method EncodeToBuffer(buf: array<byte>, d: Desc, m: Message) returns (res: Result<nat, EncodeError>)
    requires DescOk(d) && MsgOk(d, m)
    modifies buf
    ensures var r := RunMsg(d, m);
            if |r.out| > buf.Length then res == Err(StreamFull)
            else if r.err.Some? then res == Err(r.err.value)
            else res == Ok(|r.out|) && buf[..|r.out|] == r.out
    ensures res != Err(SubmessageSizeChanged)
  {
    var stream := new OStream.FromBuffer(buf, 0, buf.Length);
    var ok := EncodeMessage(stream, d, m);
    return if ok then Ok(stream.written) else Err(stream.err.value);
  }

  /** A count decides the fate of a write: if encoding can be counted, then
      writing succeeds exactly in buffers at least as large, fails in smaller
      ones for lack of space only, and puts out as many bytes as were counted. */
  lemma CountDecides(d: Desc, m: Message, counted: Out, written: Out, room: nat)
    requires Emitted(Out(0, [], None), RunMsg(d, m), counted, true, 0)
    requires Emitted(Out(0, [], None), RunMsg(d, m), written, false, room)
    requires counted.err == None
    ensures written.err == if counted.count <= room then None else Some(StreamFull)
    ensures written.err == None ==> written.count == counted.count == |written.data| && written.data == RunMsg(d, m).out
  {
    var r := RunMsg(d, m);
    assert [] + r.out == r.out;
  }
}
