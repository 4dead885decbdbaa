/** What decoding does to any input at all, not only to what an encoder wrote:
    no value leaves the range of its field, no text its buffer and no array its
    size; and which inputs are refused. */
module PbSafety {
  import opened Wrappers
  import opened PbVarint
  import opened PbDescriptor
  import opened PbEncoderSpec
  import opened PbDecoderSpec
  import opened PbIterator
  import opened PbMerge
  import opened PbObservable
  import opened PbRoundTrip

  // ---------------------------------------------------------------- values

  lemma CastKeepsRange(t: LType, size: nat, u: nat)
    requires (t.LVarint? || t.LUvarint? || t.LSvarint?) && u < U64 && CastNum(t, size, u).Some?
    ensures ValOk(t, size, Num(CastNum(t, size, u).value))
  {
  }

  lemma NumKeepsRange(t: LType, size: nat, s: seq<byte>)
    requires Packable(t) && SizeOk(t, size) && DecNum(t, size, s).Some?
    ensures ValOk(t, size, DecNum(t, size, s).value.0)
  {
    hide ReadVarint, CastNum;
    Pow64Bits();
    if t.LFixed32? {
      ReadLeBound(s[..4]);
    } else if t.LFixed64? {
      ReadLeBound(s[..8]);
    } else {
      CastKeepsRange(t, size, ReadVarint(s).value.0);
    }
  }

  lemma TextKeepsBuffer(t: LType, size: nat, v: Val, s: seq<byte>)
    requires (t.LBytes? || t.LString? || t.LFixedBytes?) && SizeOk(t, size) && ValOk(t, size, v) && DecText(t, size, v, s).Some?
    ensures ValOk(t, size, DecText(t, size, v, s).value.0)
  {
    hide ReadDelimited;
  }

  lemma {:induction false} PackedKeepsArray(t: LType, size: nat, items: seq<Val>, count: nat, s: seq<byte>)
    requires Packable(t) && SizeOk(t, size) && (forall v | v in items :: ValOk(t, size, v)) && DecPacked(t, size, items, count, s).Some?
    ensures var (r, n) := DecPacked(t, size, items, count, s).value;
            && |r| == |items| && (n <= |items| || n == count) && forall v | v in r :: ValOk(t, size, v)
    decreases |s|
  {
    hide DecNum, ValOk, SizeOk;
    if s == [] {
    } else {
      var (v, rest) := DecNum(t, size, s).value;
      NumKeepsRange(t, size, s);
      assert forall w | w in items[count := v] :: w == v || w in items;
      PackedKeepsArray(t, size, items[count := v], count + 1, rest);
    }
  }

  // ---------------------------------------------------------------- fields and messages

  lemma {:induction false} ValKeepsType(f: Field, renew: bool, v: Val, s: seq<byte>)
    requires FieldOk(f) && ValOk(f.ltype, f.size, v) && DecVal(f.ltype, f.size, renew, v, s).Some?
    ensures ValOk(f.ltype, f.size, DecVal(f.ltype, f.size, renew, v, s).value.0)
    decreases |s|, 0
  {
    hide DecNum, DecText, ReadDelimited, DecMsg, MsgOk;
    match f.ltype
    case LMessage(d) =>
      var (sub, _) := ReadDelimited(s).value;
      if renew {
        DefaultsAreFresh(d, v.m);
      }
      DecodeKeepsType(d, sub, if renew then SetDefaults(d, v.m) else v.m);
    case _ =>
      if Packable(f.ltype) {
        NumKeepsRange(f.ltype, f.size, s);
      } else {
        TextKeepsBuffer(f.ltype, f.size, v, s);
      }
  }

  lemma {:induction false} SlotKeepsType(f: Field, slot: Slot, count: nat, wireType: nat, s: seq<byte>)
    requires FieldOk(f) && SlotOk(f, slot) && count < U32 && DecSlot(f, slot, count, wireType, s).Some?
    ensures var got := DecSlot(f, slot, count, wireType, s).value; SlotOk(f, got.slot) && got.count < U32
    decreases |s|, 1
  {
    hide ValOk, DecVal, DecPacked, ReadDelimited, DescOk, SetDefaults, ZeroMsg;
    match f.rule
    case Repeated(_, max) =>
      if wireType == WT_STRING && Packable(f.ltype) {
        PackedKeepsArray(f.ltype, f.size, slot.items, count, ReadDelimited(s).value.0);
      } else {
        var v := slot.items[count];
        assert v in slot.items;
        ValKeepsType(f, true, v, s);
        var w := DecVal(f.ltype, f.size, true, v, s).value.0;
        assert forall x | x in slot.items[count := w] :: x == w || x in slot.items;
      }
    case Optional(true) => ValKeepsType(f, false, slot.v, s);
    case _ =>
      TargetKeepsType(f, slot);
      ValKeepsType(f, false, Target(f, slot.v), s);
  }

  lemma TargetKeepsType(f: Field, slot: Slot)
    requires FieldOk(f) && SlotOk(f, slot) && slot.One?
    ensures ValOk(f.ltype, f.size, Target(f, slot.v))
  {
    if f.rule.Oneof? && f.ltype.LMessage? {
      ZeroOk(f.ltype.desc);
      DefaultsAreFresh(f.ltype.desc, ZeroMsg(f.ltype.desc));
    }
  }

  ghost predicate Typed(d: Desc, st: State) {
    MsgOk(d, st.m) && st.fixedCount < U32
  }

  lemma {:induction false} FieldKeepsType(d: Desc, i: nat, wireType: nat, s: seq<byte>, st: State)
    requires DescOk(d) && Typed(d, st) && i < |d.fields| && DecField(d, i, wireType, s, st).Some?
    ensures Typed(d, DecField(d, i, wireType, s, st).value.0)
    decreases |s|, 2
  {
    hide DecSlot, SlotOk, FieldOk, ReqIndex, FixedFull;
    var f, slot, st' := d.fields[i], st.m.slots[i], Prepare(d, i, st).value;
    assert FieldOk(f) && SlotOk(f, slot);
    CountFits(f, slot, st');
    SlotKeepsType(f, slot, CountOf(f, slot, st'), wireType, s);
    var got := DecSlot(f, slot, CountOf(f, slot, st'), wireType, s).value;
    NewCountFits(f, got.slot, got.count);
  }

  lemma CountFits(f: Field, slot: Slot, st: State)
    requires SlotOk(f, slot) && st.fixedCount < U32
    ensures CountOf(f, slot, st) < U32
  {
  }

  lemma NewCountFits(f: Field, slot: Slot, n: nat)
    requires SlotOk(f, slot) && n < U32
    ensures slot.Many? ==> SlotOk(f, slot.(count := n))
    ensures f.rule.Repeated? <==> slot.Many?
  {
  }

  lemma {:induction false} LoopKeepsType(d: Desc, s: seq<byte>, st: State)
    requires DescOk(d) && Typed(d, st) && DecLoop(d, s, st).Some?
    ensures Typed(d, DecLoop(d, s, st).value.0)
    decreases |s|, 4
  {
    hide ReadVarint32, DecField, Skip, FindTag, DescOk, Typed;
    if s == [] || ReadVarint32(s).value.0 == 0 {
    } else {
      var (key, rest) := ReadVarint32(s).value;
      if FindTag(d.fields, key / 8).Some? {
        FieldKeepsType(d, FindTag(d.fields, key / 8).value, key % 8, rest, st);
      }
      var (st', rest') := DecStep(d, key, rest, st).value;
      LoopKeepsType(d, rest', st');
    }
  }

  /** Memory safety of the decoder. Whatever the input, a structure that has been
      decoded into is one its descriptor describes: every number in the range
      of its field, every text within its buffer, every array with the items it
      has room for, at any depth. */
  lemma {:induction false} DecodeKeepsType(d: Desc, s: seq<byte>, m: Message)
    requires DescOk(d) && MsgOk(d, m) && DecMsg(d, s, m).Some?
    ensures MsgOk(d, DecMsg(d, s, m).value.0)
    decreases |s|, 5
  {
    hide DecLoop, Finished, DescOk, MsgOk;
    LoopKeepsType(d, s, Start(m));
  }

  // ---------------------------------------------------------------- what is refused

  /** A varint of any form is read as what its groups stand for, modulo 2^64, if it
      has at most ten bytes, and refused if it has more or does not end. */
  lemma VarintsExactly(s: seq<byte>, t: seq<byte>)
    ensures IsVarint(s) ==> ReadVarint(s + t) == if |s| <= 10 then Some((Base128(s) % 0x1_0000_0000_0000_0000, t)) else None
    ensures IsVarint(s) ==> SkipVarint(s + t) == Some(t)
    ensures (forall i | 0 <= i < |s| :: s[i] >= 128) ==> ReadVarint(s) == None && SkipVarint(s) == None
  {
    hide Base128;
    if IsVarint(s) {
      VarintEndOf(s, t);
      assert (s + t)[..|s|] == s && (s + t)[|s|..] == t;
    }
  }

  /** The number that an integer field reads from the varint u: a signed field
      of at most four bytes looks at 32 bits only. */
  function Meant(t: LType, size: nat, u: nat): int {
    if t.LUvarint? then u
    else if t.LSvarint? then (if u % 2 == 0 then u / 2 else -(u / 2) - 1)
    else if size == 8 then (if u < 0x8000_0000_0000_0000 then u else u - 0x1_0000_0000_0000_0000)
    else if u % 0x1_0000_0000 < 0x8000_0000 then u % 0x1_0000_0000
    else u % 0x1_0000_0000 - 0x1_0000_0000
  }

  /** The range of an integer field of `size` bytes. */
  predicate InRange(t: LType, size: nat, n: int) {
    var bound := if size == 1 then 0x100 else if size == 2 then 0x1_0000 else if size == 4 then 0x1_0000_0000 else 0x1_0000_0000_0000_0000;
    size in {1, 2, 4, 8} && if t.LUvarint? then 0 <= n < bound else -bound <= 2 * n < bound
  }

  /** An integer field takes a varint exactly if what is meant is in its range. */
  lemma NumsExactly(t: LType, size: nat, u: nat, tail: seq<byte>)
    requires (t.LVarint? || t.LUvarint? || t.LSvarint?) && u < 0x1_0000_0000_0000_0000
    ensures DecNum(t, size, Varint(u) + tail) ==
              if InRange(t, size, Meant(t, size, u)) then Some((Num(Meant(t, size, u)), tail)) else None
  {
    hide ReadVarint, Varint;
    ReadVarintOfVarint(u, tail);
    CastExactly(t, size, u);
  }

  lemma CastExactly(t: LType, size: nat, u: nat)
    requires (t.LVarint? || t.LUvarint? || t.LSvarint?) && u < 0x1_0000_0000_0000_0000
    ensures CastNum(t, size, u) == if InRange(t, size, Meant(t, size, u)) then Some(Meant(t, size, u)) else None
  {
    if t.LSvarint? {
      assert UnZigZag(u) == Meant(t, size, u);
    }
  }

  /** Four and eight bytes are read lowest first. */
  lemma FixedExactly(b: seq<byte>, size: nat, tail: seq<byte>)
    ensures |b| == 4 ==> DecNum(LFixed32, size, b + tail) == Some((Num(b[0] as int + 0x100 * b[1] as int + 0x1_0000 * b[2] as int + 0x100_0000 * b[3] as int), tail))
    ensures |b| == 8 ==> DecNum(LFixed64, size, b + tail) == Some((Num(ReadLe(b)), tail))
    ensures |b| < 4 ==> DecNum(LFixed32, size, b) == None
    ensures |b| < 8 ==> DecNum(LFixed64, size, b) == None
  {
    if |b| == 4 || |b| == 8 {
      assert (b + tail)[..|b|] == b && (b + tail)[|b|..] == tail;
    }
    if |b| == 4 {
      assert ReadLe(b) == b[0] + 256 * ReadLe(b[1..]);
      assert ReadLe(b[1..]) == b[1] + 256 * ReadLe(b[2..]);
      assert b[2..][1..] == b[3..] && b[3..][1..] == [];
      assert ReadLe(b[2..]) == b[2] + 256 * ReadLe(b[3..]);
      assert ReadLe(b[3..]) == b[3];
    }
  }

  /** Bytes need four more for their length, strings one for the terminator, and
      fixed-length bytes are all there or none; what is behind them in the
      buffer is kept. */
  lemma TextsExactly(t: LType, size: nat, v: Val, b: seq<byte>, tail: seq<byte>)
    requires (t.LBytes? || t.LString? || t.LFixedBytes?) && SizeOk(t, size) && ValOk(t, size, v) && |b| < 0x1_0000_0000
    ensures var r := DecText(t, size, v, Delimited(b) + tail);
            && (t.LBytes? ==> r == if |b| + 4 <= size then Some((Blob(|b|, b + v.bytes[|b|..]), tail)) else None)
            && (t.LString? ==> r == if |b| + 1 <= size then Some((Text(b + [0] + v.buf[|b| + 1..]), tail)) else None)
            && (t.LFixedBytes? ==>
                  r == if |b| == 0 then Some((Text(Zeros(size)), tail)) else if |b| == size then Some((Text(b), tail)) else None)
  {
    hide ReadDelimited, Delimited;
    ReadDelimitedOf(b, tail);
  }

  /** Payloads are skipped by wire type number: a varint for 0, eight bytes for 1,
      a length and that many bytes for 2, four bytes for 5. */
  lemma SkipsByNumber(s: seq<byte>)
    ensures Skip(0, s) == SkipVarint(s)
    ensures Skip(1, s) == if |s| < 8 then None else Some(s[8..])
    ensures Skip(5, s) == if |s| < 4 then None else Some(s[4..])
    ensures Skip(2, s) == if ReadDelimited(s).None? then None else Some(ReadDelimited(s).value.1)
  {
    hide ReadDelimited, SkipVarint;
  }

  /** All other wire types are refused. */
  lemma OtherTypesRefused(w: nat, s: seq<byte>)
    requires w == 3 || w == 4 || w > 5
    ensures Skip(w, s) == None
  {
  }
}
