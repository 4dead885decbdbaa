/** The decoder with its mutable streams (pb_decode.c). Each method reads what
    the function of PbDecoderSpec reads and leaves the stream behind it; after a
    failure nothing is promised about the stream. */
module PbDecoder {
  import opened Wrappers
  import opened Arith
  import opened PbVarint
  import opened PbDescriptor
  import opened PbEncoderSpec
  import opened PbIterator
  import opened PbDecoderSpec

  /** A stream over a buffer in memory. */
  class IStream {
    const buf: seq<byte>
    var state: nat
    var left: nat

    ghost predicate Valid()
      reads this
    {
      state + left <= |buf|
    }

    ghost function Rest(): seq<byte>
      requires Valid()
      reads this
    {
      buf[state..state + left]
    }

    ghost function End(): nat
      reads this
    {
      state + left
    }

    /** `pb_istream_from_buffer`, and substreams. */
    constructor (buf: seq<byte>, state: nat, left: nat)
      requires state + left <= |buf|
      ensures Valid() && this.buf == buf && this.state == state && this.left == left
      ensures Rest() == buf[state..state + left]
    {
      this.buf, this.state, this.left := buf, state, left;
    }

    /** `pb_readbyte` */
    method ReadByte() returns (b: Option<byte>)
      requires Valid()
      modifies this
      ensures Valid() && (b.Some? <==> old(Rest()) != []) && (b.None? ==> state == old(state) && left == old(left))
      ensures b.Some? ==> b.value == old(Rest())[0] && Rest() == old(Rest())[1..] && End() == old(End()) && left < old(left)
    {
      if left == 0 {
        return None;
      }
      b := Some(buf[state]);
      state := state + 1;
      left := left - 1;
    }

    /** `pb_read` */
    method Read(n: nat) returns (s: Option<seq<byte>>)
      requires Valid()
      modifies this
      ensures Valid() && Took(this, s, ReadBytes(old(Rest()), n), old(End()))
      ensures s.None? ==> state == old(state) && left == old(left)
    {
      if left < n {
        return None;
      }
      s := Some(buf[state..state + n]);
      assert buf[state..state + n] == Rest()[..n] && buf[state + n..state + left] == Rest()[n..];
      state := state + n;
      left := left - n;
    }
  }

  /** The value read is the one specified, and the stream is behind it. */
  ghost predicate Took<T(!new)>(stream: IStream, r: Option<T>, spec: Option<(T, seq<byte>)>, end: nat)
    requires stream.Valid()
    reads stream
  {
    match spec
    case None => r == None
    case Some((v, rest)) => r == Some(v) && stream.Rest() == rest && stream.End() == end
  }

  // ---------------------------------------------------------------- varints

  lemma {:induction false} Base128Snoc(s: seq<byte>, b: byte)
    ensures Base128(s + [b]) == Base128(s) + b % 128 * Pow2(7 * |s|)
  {
    if s == [] {
      assert [b][1..] == [];
    } else {
      Base128Snoc(s[1..], b);
      SevenBits(|s| - 1);
      assert (s + [b])[1..] == s[1..] + [b];
      var p := Pow2(7 * (|s| - 1));
      assert 128 * (b % 128 * p) == b % 128 * (128 * p);
    }
  }

  lemma {:induction false} Base128Bound(s: seq<byte>)
    ensures Base128(s) < Pow2(7 * |s|)
  {
    if s == [] {
    } else {
      SevenBits(|s| - 1);
      Base128Bound(s[1..]);
    }
  }

  /** One round of the loop of pb_decode_varint, on 64 bits. */
  lemma OrGroup(s: seq<byte>, b: byte)
    requires |s| < 10
    ensures Or(Base128(s), b % 128 * Pow2(7 * |s|) % U64) == Base128(s + [b]) % U64
    ensures |s| < 9 ==> Base128(s + [b]) < U64
  {
    hide Or, Pow2, Base128;
    Base128Snoc(s, b);
    Base128Bound(s);
    if |s| < 9 {
      Base128Bound(s + [b]);
      SmallGroup(Base128(s), b % 128, 7 * |s|);
    } else {
      TopGroup(b % 128, Base128(s));
    }
  }

  lemma SmallGroup(low: nat, g: nat, k: nat)
    requires low < Pow2(k) && k + 7 <= 63 && low + g * Pow2(k) < Pow2(k + 7)
    ensures low + g * Pow2(k) < U64 && Or(low, g * Pow2(k) % U64) == (low + g * Pow2(k)) % U64
  {
    hide Or, Pow2;
    Pow64();
    PowGrows(k + 7, 63);
    OrAdds(low, g, k);
    var h := g * Pow2(k);
    SmallMod(h, U64);
    SmallMod(low + h, U64);
  }

  lemma SmallMod(n: nat, m: nat)
    requires n < m
    ensures n % m == n
  {
  }

  lemma PowGrows(a: nat, b: nat)
    requires a <= b
    ensures Pow2(a) <= Pow2(b)
  {
    PowSum(a, b - a);
    assert Pow2(a) * Pow2(b - a) >= Pow2(a);
  }

  /** Whole multiples of the range are gone; `h` is half of it. */
  lemma HalfTimes(q: nat, b: nat, h: nat, low: nat)
    requires b < 2 && low < h
    ensures (low + (2 * q + b) * h) % (2 * h) == low + b * h
  {
    assert (2 * q + b) * h == 2 * h * q + b * h;
    assert b * h <= h;
    ModOf(q, 2 * h, low + b * h);
  }

  /** The tenth group: only its lowest bit fits. */
  lemma TopGroup(g: nat, low: nat)
    requires g < 128 && low < Pow2(63)
    ensures Or(low, g * Pow2(63) % U64) == (low + g * Pow2(63)) % U64
  {
    hide Or, Pow2;
    var h := Pow2(63);
    assert U64 == 2 * h by { Pow64(); }
    HalfTimes(g / 2, g % 2, h, 0);
    HalfTimes(g / 2, g % 2, h, low);
    assert 2 * (g / 2) + g % 2 == g;
    OrAdds(low, g % 2, 63);
  }

  /** `pb_decode_varint` */
  method DecodeVarint(stream: IStream) returns (r: Option<nat>)
    requires stream.Valid()
    modifies stream
    ensures stream.Valid() && Took(stream, r, ReadVarint(old(stream.Rest())), old(stream.End()))
  {
    hide Or, Base128, VarintEnd, IsVarint, ReadVarint, Pow2;
    ghost var s := stream.Rest();
    ghost var k := 0;
    var bitpos: nat, result: nat, more := 0, 0, true;
    GroupsStart(s);
    while more
      invariant stream.Valid() && stream.End() == old(stream.End()) && bitpos == 7 * k
      invariant k <= |s| && stream.Rest() == s[k..] && stream.left == |s| - k
      invariant if more then GroupsSoFar(s, k, result) else ReadVarint(s) == Some((result, s[k..]))
      decreases stream.left, more
    {
      if bitpos >= 64 {
        GroupsFail(s, k, result);
        return None;
      }
      var b := stream.ReadByte();
      if b.None? {
        GroupsFail(s, k, result);
        return None;
      }
      GroupsStep(s, k, result);
      result := Or(result, b.value % 128 * Pow2(bitpos) % U64);
      bitpos := bitpos + 7;
      k := k + 1;
      more := b.value >= 128;
    }
    return Some(result);
  }

  /** After k bytes, all continued, `result` holds their groups. */
  ghost predicate GroupsSoFar(s: seq<byte>, k: nat, result: nat) {
    k <= |s| && k <= 10 && (forall i | 0 <= i < k :: s[i] >= 128) && (k < 10 ==> result == Base128(s[..k]))
  }

  lemma GroupsStart(s: seq<byte>)
    ensures GroupsSoFar(s, 0, 0)
  {
    Base128Empty();
    assert s[..0] == [];
  }

  lemma GroupsStep(s: seq<byte>, k: nat, result: nat)
    requires GroupsSoFar(s, k, result) && k < |s| && k < 10
    ensures var r := Or(result, s[k] % 128 * Pow2(7 * k) % U64);
            if s[k] >= 128 then GroupsSoFar(s, k + 1, r) else ReadVarint(s) == Some((r, s[k + 1..]))
  {
    hide Or, Base128, Pow2;
    OrGroup(s[..k], s[k]);
    assert s[..k] + [s[k]] == s[..k + 1];
    if s[k] < 128 {
      VarintEndOf(s[..k + 1], s[k + 1..]);
      assert s[..k + 1] + s[k + 1..] == s;
    }
  }

  lemma GroupsFail(s: seq<byte>, k: nat, result: nat)
    requires GroupsSoFar(s, k, result) && (k == 10 || k == |s|)
    ensures ReadVarint(s) == None
  {
  }

  lemma Base128Empty()
    ensures Base128([]) == 0
  {
  }

  /** `pb_decode_varint32_eof` */
  method DecodeVarint32(stream: IStream) returns (r: Option<nat>)
    requires stream.Valid()
    modifies stream
    ensures stream.Valid() && Took(stream, r, ReadVarint32(old(stream.Rest())), old(stream.End()))
  {
    hide Or, Pow2;
    Pow64();
    var b := stream.ReadByte();
    if b.None? {
      return None;
    }
    if b.value < 128 {
      return Some(b.value);
    }
    ghost var start := Tail32(stream.Rest(), 7, b.value % 128);
    var bitpos: nat, result: nat, more := 7, b.value % 128, true;
    while more
      invariant stream.Valid() && stream.End() == old(stream.End()) && b.Some?
      invariant more ==> start == Tail32(stream.Rest(), bitpos, result)
      invariant !more ==> start == Some((result, bitpos, b.value, stream.Rest()))
      decreases stream.left, more
    {
      b := stream.ReadByte();
      if b.None? {
        return None;
      }
      if bitpos >= 32 {
        var signExtension := if bitpos < 63 then 0xFF else 0x01;
        if b.value % 128 != 0 && (result / 0x8000_0000 == 0 || b.value != signExtension) {
          return None;
        }
      } else {
        result := Or(result, b.value % 128 * Pow2(bitpos) % U32);
      }
      bitpos := (bitpos + 7) % 256;
      more := b.value >= 128;
    }
    if bitpos == 35 && b.value / 16 % 8 != 0 {
      return None;
    }
    return Some(result);
  }

  /** `pb_skip_varint` */
  method SkipOverVarint(stream: IStream) returns (ok: bool)
    requires stream.Valid()
    modifies stream
    ensures stream.Valid() && Skipped(stream, ok, SkipVarint(old(stream.Rest())), old(stream.End()))
  {
    hide VarintEnd;
    ghost var s := stream.Rest();
    ghost var k := 0;
    var more := true;
    while more
      invariant stream.Valid() && stream.End() == old(stream.End())
      invariant k <= |s| && stream.Rest() == s[k..] && stream.left == |s| - k
      invariant more ==> forall i | 0 <= i < k :: s[i] >= 128
      invariant !more ==> IsVarint(s[..k])
      decreases stream.left, more
    {
      var b := stream.ReadByte();
      if b.None? {
        NeverEnds(s);
        return false;
      }
      k := k + 1;
      more := b.value >= 128;
    }
    VarintEndOf(s[..k], s[k..]);
    assert s[..k] + s[k..] == s;
    return true;
  }

  lemma NeverEnds(s: seq<byte>)
    requires forall i | 0 <= i < |s| :: s[i] >= 128
    ensures VarintEnd(s) == None
  {
  }

  ghost predicate Skipped(stream: IStream, ok: bool, spec: Option<seq<byte>>, end: nat)
    requires stream.Valid()
    reads stream
  {
    (ok <==> spec.Some?) && (ok ==> stream.Rest() == spec.value && stream.End() == end)
  }

  /** `pb_skip_field` */
  method SkipField(stream: IStream, wireType: nat) returns (ok: bool)
    requires stream.Valid()
    modifies stream
    ensures stream.Valid() && Skipped(stream, ok, Skip(wireType, old(stream.Rest())), old(stream.End()))
  {
    hide ReadVarint32;
    if wireType == WT_VARINT {
      ok := SkipOverVarint(stream);
    } else if wireType == WT_64BIT {
      var s := stream.Read(8);
      return s.Some?;
    } else if wireType == WT_STRING {
      var n := DecodeVarint32(stream);
      if n.None? {
        return false;
      }
      var s := stream.Read(n.value);
      return s.Some?;
    } else if wireType == WT_32BIT {
      var s := stream.Read(4);
      return s.Some?;
    } else {
      return false;
    }
  }

  // ---------------------------------------------------------------- substreams and values

  /** `pb_make_string_substream`: the length is taken off the stream at once, its
      position moves when the substream is closed. */
  method MakeSubstream(stream: IStream) returns (sub: Option<IStream>)
    requires stream.Valid()
    modifies stream
    ensures stream.state + stream.left <= |stream.buf|
    ensures match ReadDelimited(old(stream.Rest()))
            case None => sub == None
            case Some((body, rest)) =>
              && sub.Some? && fresh(sub.value) && sub.value.Valid() && sub.value.buf == stream.buf && sub.value.Rest() == body
              && |rest| == stream.left && sub.value.End() + stream.left == old(stream.End()) <= |stream.buf|
              && stream.buf[sub.value.End()..old(stream.End())] == rest
  {
    hide ReadVarint32;
    var size := DecodeVarint32(stream);
    if size.None? || stream.left < size.value {
      return None;
    }
    ghost var mid := stream.Rest();
    var made := new IStream(stream.buf, stream.state, size.value);
    assert made.Rest() == mid[..size.value];
    assert stream.buf[made.End()..stream.End()] == mid[size.value..];
    stream.left := stream.left - size.value;
    return Some(made);
  }

  /** `pb_close_string_substream`: what is left of the substream is skipped. */
  method CloseSubstream(stream: IStream, sub: IStream)
    requires sub.Valid() && stream != sub && stream.buf == sub.buf && sub.End() + stream.left <= |stream.buf|
    modifies stream, sub
    ensures stream.Valid() && stream.state == old(sub.End()) && stream.left == old(stream.left)
  {
    if sub.left > 0 {
      var _ := sub.Read(sub.left);
    }
    stream.state := sub.state;
  }

  /** The decoders of packable types. */
  method DecodeNum(stream: IStream, t: LType, size: nat) returns (v: Option<Val>)
    requires stream.Valid()
    modifies stream
    ensures stream.Valid() && Took(stream, v, DecNum(t, size, old(stream.Rest())), old(stream.End()))
  {
    hide ReadVarint;
    if t.LFixed32? {
      var b := stream.Read(4);
      return if b.None? then None else Some(Num(ReadLe(b.value)));
    }
    if t.LFixed64? {
      var b := stream.Read(8);
      return if b.None? then None else Some(Num(ReadLe(b.value)));
    }
    var u := DecodeVarint(stream);
    if u.None? {
      return None;
    }
    var n := CastNum(t, size, u.value);
    return if n.None? then None else Some(Num(n.value));
  }

  /** `pb_dec_bytes`, `pb_dec_string` and `pb_dec_fixed_length_bytes`, into the
      buffer that `v` is. */
  method DecodeText(stream: IStream, t: LType, size: nat, v: Val) returns (r: Option<Val>)
    requires stream.Valid()
    modifies stream
    ensures stream.Valid() && Took(stream, r, DecText(t, size, v, old(stream.Rest())), old(stream.End()))
  {
    hide ReadVarint32, Overlay, Zeros;
    var n := DecodeVarint32(stream);
    if n.None? {
      return None;
    }
    if (t.LBytes? && n.value + SIZE_BYTES > size) || (t.LString? && n.value + 1 > size)
       || (!t.LBytes? && !t.LString? && n.value != 0 && n.value != size) {
      return None;
    }
    var b := stream.Read(n.value);
    if b.None? {
      return None;
    }
    match t
    case LBytes => return if v.Blob? then Some(Blob(n.value, Overlay(b.value, v.bytes))) else None;
    case LString => return if v.Text? then Some(Text(Overlay(b.value + [0], v.buf))) else None;
    case _ => return Some(Text(if n.value == 0 then Zeros(size) else b.value));
  }

  /** The items of a packed array. */
  method DecodePacked(sub: IStream, t: LType, size: nat, items: seq<Val>, count: nat) returns (r: Option<(seq<Val>, nat)>)
    requires sub.Valid()
    modifies sub
    ensures sub.Valid() && r == DecPacked(t, size, items, count, old(sub.Rest()))
    ensures r.Some? ==> sub.End() == old(sub.End())
  {
    hide DecNum;
    var cur, n: nat := items, count;
    while sub.left > 0 && n < |items|
      invariant sub.Valid() && sub.End() == old(sub.End()) && |cur| == |items|
      invariant DecPacked(t, size, items, count, old(sub.Rest())) == DecPacked(t, size, cur, n, sub.Rest())
      decreases sub.left
    {
      var v := DecodeNum(sub, t, size);
      if v.None? {
        return None;
      }
      cur := cur[n := v.value];
      n := n + 1;
    }
    if sub.left != 0 {
      return None;
    }
    return Some((cur, n));
  }

  // ---------------------------------------------------------------- the state of the loop

  /** The bits of `words` are the numbers in `seen`. */
  ghost predicate BitsAre(words: seq<nat>, seen: set<nat>) {
    && |words| == 2 && words[0] < Pow2(32) && words[1] < Pow2(32)
    && (forall k: nat | k < 32 :: BitAt(words[0], k) <==> k in seen)
    && (forall k: nat | k < 32 :: BitAt(words[1], k) <==> k + 32 in seen)
    && forall k | k in seen :: k < MAX_REQUIRED
  }

  /** `fields_seen[index >> 5] |= 1 << (index & 31)` */
  method MarkSeen(words: array<nat>, index: nat, ghost seen: set<nat>)
    requires words.Length == 2 && BitsAre(words[..], seen) && index < MAX_REQUIRED
    modifies words
    ensures BitsAre(words[..], seen + {index})
  {
    var w, k := index / 32, index % 32;
    forall i: nat | i < 32 ensures BitAt(WithBit(words[w], k), i) <==> i == k || BitAt(words[w], i) {
      WithBitBits(words[w], k, i);
    }
    WithBitFits(words[w], k, 32);
    words[w] := WithBit(words[w], k);
  }

  ghost predicate AllBits(word: nat, n: nat) {
    forall k: nat | k < n :: BitAt(word, k)
  }

  /** The first n of 32 bits are all that is set. */
  lemma FirstBits(word: nat, n: nat)
    requires n <= 32 && word < Pow2(32) && forall k: nat | n <= k < 32 :: !BitAt(word, k)
    ensures word == Pow2(n) - 1 <==> AllBits(word, n)
  {
    hide Pow2, BitAt;
    HighBitsClear(word, n, 32);
    if AllBits(word, n) {
      AllSet(word, n);
    }
    if word == Pow2(n) - 1 {
      forall k: nat | k < n ensures BitAt(word, k) {
        OnesSet(n, k);
      }
    }
  }

  /** The check for required fields: whole words first, then the rest. */
  method AllSeen(words: array<nat>, required: nat, ghost seen: set<nat>) returns (ok: bool)
    requires words.Length == 2 && BitsAre(words[..], seen) && forall k | k in seen :: k < required
    ensures ok <==> forall k | 0 <= k < required && k < MAX_REQUIRED :: k in seen
  {
    hide Pow2, BitAt, AllBits;
    var count := if required > MAX_REQUIRED then MAX_REQUIRED else required;
    assert Pow2(32) == U32 by { Pow64(); }
    ghost var low, high := if count >= 32 then 32 else count, if count >= 32 then count - 32 else 0;
    WordsSeen(words[..], seen, count, low, high);
    ok := true;
    for i := 0 to count / 32
      invariant ok <==> forall j | 0 <= j < i :: words[j] == U32 - 1
    {
      if words[i] != U32 - 1 {
        ok := false;
        break;
      }
    }
    if ok && count % 32 != 0 {
      ok := words[count / 32] == Pow2(count % 32) - 1;
    }
  }

  lemma WordsSeen(words: seq<nat>, seen: set<nat>, count: nat, low: nat, high: nat)
    requires BitsAre(words, seen) && count <= MAX_REQUIRED
    requires low == (if count >= 32 then 32 else count) && high == if count >= 32 then count - 32 else 0
    requires count < MAX_REQUIRED ==> forall k | k in seen :: k < count
    ensures (forall k | 0 <= k < count :: k in seen) <==> words[0] == Pow2(low) - 1 && words[1] == Pow2(high) - 1
    ensures high == 0 ==> words[1] == Pow2(0) - 1
    ensures low == 0 ==> words[0] == Pow2(0) - 1
  {
    hide Pow2, BitAt;
    FirstBits(words[0], low);
    FirstBits(words[1], high);
    assert AllBits(words[0], low) <==> forall k | 0 <= k < low :: k in seen;
    assert AllBits(words[1], high) <==> forall k | 32 <= k < count :: k in seen by {
      forall k: nat | k < high ensures BitAt(words[1], k) <==> k + 32 in seen {
      }
      if AllBits(words[1], high) {
        forall k | 32 <= k < count ensures k in seen {
          assert BitAt(words[1], k - 32);
        }
      }
    }
  }

  lemma {:induction false} ReqIndexGrows(fields: seq<Field>, i: nat, j: nat)
    requires i <= j <= |fields|
    ensures ReqIndex(fields, i) <= ReqIndex(fields, j)
  {
    if i == j {
    } else {
      ReqIndexGrows(fields, i, j - 1);
    }
  }

  lemma NoBitsYet(words: seq<nat>)
    requires |words| == 2 && words[0] == 0 && words[1] == 0
    ensures BitsAre(words, {})
  {
    hide Pow2, BitAt;
    forall k: nat | k < 32 ensures !BitAt(0, k) {
      ZeroBit(k);
    }
  }

  /** What `pb_decode_noinit` keeps while it runs. */
  class Decoding {
    const d: Desc
    const words: array<nat>
    const iter: FieldIter
    var m: Message
    var fixedField: Option<nat>
    var fixedCount: nat
    ghost var seen: set<nat>

    ghost predicate Valid()
      reads this, words, iter
    {
      && DescOk(d) && words.Length == 2 && BitsAre(words[..], seen)
      && iter.fields == d.fields && iter.Valid()
      && forall k | k in seen :: k < ReqIndex(d.fields, |d.fields|)
    }

    ghost function Abs(): State
      reads this
    {
      State(m, seen, fixedField, fixedCount)
    }

    constructor (d: Desc, m: Message)
      requires DescOk(d)
      ensures Valid() && this.d == d && Abs() == Start(m) && fresh(words) && fresh(iter)
    {
      hide BitsAre, DescOk;
      this.d, this.m, fixedField, fixedCount, seen := d, m, None, 0, {};
      words := new nat[2](_ => 0);
      iter := new FieldIter(d.fields);
      new;
      NoBitsYet(words[..]);
    }

    /** The bookkeeping for the field that the iterator has found. */
    method Prepare() returns (ok: bool)
      requires Valid() && d.fields != []
      modifies this, words
      ensures Valid()
      ensures match PbDecoderSpec.Prepare(d, iter.pos, old(Abs()))
              case None => !ok
              case Some(st) => ok && Abs() == st
    {
      hide Pow2, BitAt, BitsAre, DescOk;
      var f := d.fields[iter.pos];
      if f.rule.Repeated? && f.rule.fixed && fixedField != Some(iter.pos) {
        if fixedField.Some? && !(fixedField.value < |d.fields| && d.fields[fixedField.value].rule.Repeated?
                                 && fixedCount == d.fields[fixedField.value].rule.max) {
          return false;
        }
        fixedField := Some(iter.pos);
        fixedCount := 0;
      }
      if f.rule.Required? && iter.required < MAX_REQUIRED {
        ReqIndexGrows(d.fields, iter.pos + 1, |d.fields|);
        MarkSeen(words, iter.required, seen);
        seen := seen + {iter.required};
      }
      return true;
    }

    method Store(slot: Slot, count: nat, ghost got: Got)
      requires Valid() && d.fields != [] && iter.pos < |m.slots| && got.slot == slot && got.count == count
      modifies this
      ensures Valid() && Abs() == PbDecoderSpec.Store(d, iter.pos, old(Abs()), got)
    {
      hide Pow2, BitAt, BitsAre, DescOk;
      var i := iter.pos;
      match d.fields[i].rule
      case Repeated(fixed, _) =>
        if fixed {
          m := m.(slots := m.slots[i := slot]);
          fixedCount := count;
        } else if slot.Many? {
          m := m.(slots := m.slots[i := slot.(count := count)]);
        }
      case Oneof(g) =>
        m := Message(m.slots[i := slot], if g < |m.which| then m.which[g := d.fields[i].tag] else m.which);
      case _ =>
        m := m.(slots := m.slots[i := slot]);
    }

    /** The checks at the end. */
    method Finish() returns (ok: bool)
      requires Valid()
      modifies iter
      ensures ok <==> Finished(d, Abs())
    {
      hide Pow2, BitAt, DescOk;
      if fixedField.Some? && !(fixedField.value < |d.fields| && d.fields[fixedField.value].rule.Repeated?
                               && fixedCount == d.fields[fixedField.value].rule.max) {
        return false;
      }
      var required := iter.CountRequired();
      ok := AllSeen(words, required, seen);
    }
  }

  // ---------------------------------------------------------------- fields and messages

  /** The decoder of one item of any type; `renew` for a new array entry. */
  method DecodeVal(stream: IStream, t: LType, size: nat, renew: bool, v: Val) returns (r: Option<Val>)
    requires stream.Valid() && (t.LMessage? ==> DescOk(t.desc))
    modifies stream
    ensures stream.state + stream.left <= |stream.buf|
    ensures Took(stream, r, DecVal(t, size, renew, v, old(stream.Rest())), old(stream.End()))
    decreases stream.left, 0
  {
    hide ReadDelimited, DecNum, DecText, DecMsg;
    if t.LMessage? {
      var sub := MakeSubstream(stream);
      if sub.None? || !v.Sub? {
        return None;
      }
      var m := DecodeMessage(sub.value, t.desc, if renew then SetDefaults(t.desc, v.m) else v.m);
      if m.None? {
        return None;
      }
      CloseSubstream(stream, sub.value);
      return Some(Sub(m.value));
    } else if Packable(t) {
      r := DecodeNum(stream, t, size);
    } else {
      r := DecodeText(stream, t, size, v);
    }
  }

  ghost predicate GotIt(stream: IStream, r: Option<(Slot, nat)>, spec: Option<Got>, end: nat)
    requires stream.Valid()
    reads stream
  {
    match spec
    case None => r == None
    case Some(got) => r == Some((got.slot, got.count)) && stream.Rest() == got.rest && stream.End() == end
  }

  /** `decode_static_field` */
  method DecodeSlot(stream: IStream, f: Field, slot: Slot, count: nat, wireType: nat) returns (r: Option<(Slot, nat)>)
    requires stream.Valid() && FieldOk(f)
    modifies stream
    ensures stream.state + stream.left <= |stream.buf|
    ensures GotIt(stream, r, DecSlot(f, slot, count, wireType, old(stream.Rest())), old(stream.End()))
    decreases stream.left, 1
  {
    hide ReadDelimited, DecVal, DecPacked, ValOk, DescOk;
    match f.rule
    case Repeated(_, _) =>
      if !slot.Many? {
        return None;
      }
      if wireType == WT_STRING && Packable(f.ltype) {
        var sub := MakeSubstream(stream);
        if sub.None? {
          return None;
        }
        var items := DecodePacked(sub.value, f.ltype, f.size, slot.items, count);
        if items.None? {
          return None;
        }
        CloseSubstream(stream, sub.value);
        return Some((Many(slot.count, items.value.0), items.value.1));
      }
      if count >= |slot.items| {
        return None;
      }
      var v := DecodeVal(stream, f.ltype, f.size, true, slot.items[count]);
      return if v.None? then None else Some((Many(slot.count, slot.items[count := v.value]), count + 1));
    case Optional(hasFlag) =>
      if (hasFlag && !slot.Opt?) || (!hasFlag && !slot.One?) {
        return None;
      }
      var v := DecodeVal(stream, f.ltype, f.size, false, slot.v);
      return if v.None? then None else Some((if hasFlag then Opt(true, v.value) else One(v.value), 0));
    case _ =>
      if !slot.One? {
        return None;
      }
      var v := DecodeVal(stream, f.ltype, f.size, false, Target(f, slot.v));
      return if v.None? then None else Some((One(v.value), 0));
  }

  /** `pb_decode_noinit`. On success the stream has been read to its end or up to
      and including a zero key. */
  method DecodeMessage(stream: IStream, d: Desc, m: Message) returns (r: Option<Message>)
    requires stream.Valid() && DescOk(d)
    modifies stream
    ensures stream.Valid() && Took(stream, r, DecMsg(d, old(stream.Rest()), m), old(stream.End()))
    decreases stream.left, 4
  {
    hide ReadVarint32, DecStep, Finished, DescOk;
    var st := new Decoding(d, m);
    ghost var all := DecLoop(d, stream.Rest(), st.Abs());
    var more := true;
    while more && stream.left > 0
      invariant stream.Valid() && stream.End() == old(stream.End()) && st.Valid() && st.d == d
      invariant all == if more then DecLoop(d, stream.Rest(), st.Abs()) else Some((st.Abs(), stream.Rest()))
      invariant fresh(st) && fresh(st.words) && fresh(st.iter)
      invariant stream.left <= old(stream.left)
      decreases more, stream.left
    {
      var key := DecodeVarint32(stream);
      if key.None? {
        return None;
      }
      if key.value == 0 {
        more := false;
      } else {
        var ok := DecodeField(stream, st, key.value);
        if !ok {
          return None;
        }
      }
    }
    var done := st.Finish();
    return if done then Some(st.m) else None;
  }

  /** One round of the loop, after the key. */
  method DecodeField(stream: IStream, st: Decoding, key: nat) returns (ok: bool)
    requires stream.Valid() && st.Valid()
    modifies stream, st, st.words, st.iter
    ensures st.Valid() && stream.Valid()
    ensures match DecStep(st.d, key, old(stream.Rest()), old(st.Abs()))
            case None => !ok
            case Some((st', rest)) => ok && st.Abs() == st' && stream.Rest() == rest && stream.End() == old(stream.End())
    decreases stream.left, 3
  {
    hide BitsAre, DecField, Skip;
    var found := st.iter.Find(key / 8);
    if !found {
      ok := SkipField(stream, key % 8);
      return;
    }
    if st.d.fields == [] {
      return false;
    }
    ok := DecodeFound(stream, st, key % 8);
  }

  lemma PrepareKeeps(d: Desc, i: nat, st: State)
    requires i < |d.fields|
    ensures PbDecoderSpec.Prepare(d, i, st).Some? ==> PbDecoderSpec.Prepare(d, i, st).value.m == st.m
  {
  }

  method DecodeFound(stream: IStream, st: Decoding, wireType: nat) returns (ok: bool)
    requires stream.Valid() && st.Valid() && st.d.fields != []
    modifies stream, st, st.words
    ensures st.Valid() && stream.Valid()
    ensures match DecField(st.d, st.iter.pos, wireType, old(stream.Rest()), old(st.Abs()))
            case None => !ok
            case Some((st', rest)) => ok && st.Abs() == st' && stream.Rest() == rest && stream.End() == old(stream.End())
    decreases stream.left, 2
  {
    hide BitsAre, PbDecoderSpec.Store, PbDecoderSpec.Prepare;
    var i := st.iter.pos;
    if i >= |st.m.slots| {
      return false;
    }
    PrepareKeeps(st.d, i, st.Abs());
    ghost var was := st.Abs();
    ok := st.Prepare();
    if !ok {
      return false;
    }
    assert st.Abs() == PbDecoderSpec.Prepare(st.d, i, was).value;
    var f, slot := st.d.fields[i], st.m.slots[i];
    assert FieldOk(f);
    var count := if f.rule.Repeated? && f.rule.fixed then st.fixedCount else if slot.Many? then slot.count else 0;
    ghost var spec := DecSlot(f, slot, count, wireType, stream.Rest());
    var r := DecodeSlot(stream, f, slot, count, wireType);
    if r.None? {
      return false;
    }
    st.Store(r.value.0, r.value.1, spec.value);
  }

  /** `pb_decode` from a buffer; also tells how much was not read. */
  method DecodeBuffer(buf: seq<byte>, d: Desc, dest: Message) returns (r: Option<Message>, left: nat)
    requires DescOk(d)
    ensures match Decode(d, buf, dest)
            case None => r == None
            case Some((m, rest)) => r == Some(m) && left == |rest| <= |buf| && buf[|buf| - left..] == rest
  {
    var stream := new IStream(buf, 0, |buf|);
    assert stream.Rest() == buf;
    r := DecodeMessage(stream, d, SetDefaults(d, dest));
    left := stream.left;
  }
}
