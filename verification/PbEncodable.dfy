/** What the encoder refuses, what it leaves out, and the bytes of its keys. */
module PbEncodable {
  import opened Wrappers
  import opened PbVarint
  import opened PbDescriptor
  import opened PbEncoderSpec
  import opened PbDecoderSpec

  // ---------------------------------------------------------------- what can be encoded

  /** Sizes are those of integer types, lengths and counts within their buffers. */
  ghost predicate EncodableVal(t: LType, size: nat, v: Val)
    decreases t, 0
  {
    match t
    case LVarint => size in {1, 2, 4, 8}
    case LUvarint => size in {1, 2, 4, 8}
    case LSvarint => size in {1, 2, 4, 8}
    case LBytes => v.Blob? && v.len + 4 <= size
    case LMessage(d) => v.Sub? && Encodable(d, v.m)
    case _ => true
  }

  ghost predicate EncodableItems(t: LType, size: nat, vs: seq<Val>)
    decreases t, 1
  {
    forall k | 0 <= k < |vs| :: EncodableVal(t, size, vs[k])
  }

  ghost predicate EncodableSlot(f: Field, which: seq<nat>, s: Slot)
    decreases f
  {
    match f.rule
    case Required => s.One? && EncodableVal(f.ltype, f.size, s.v)
    case Optional(true) => s.Opt? && (s.has ==> EncodableVal(f.ltype, f.size, s.v))
    case Optional(false) => s.One? && (IsDefault(f, s, which) || EncodableVal(f.ltype, f.size, s.v))
    case Oneof(g) => s.One? && (g < |which| && which[g] == f.tag ==> EncodableVal(f.ltype, f.size, s.v))
    case Repeated(fixed, max) =>
      && s.Many?
      && var n := if fixed then max else s.count;
         n <= |s.items| && EncodableItems(f.ltype, f.size, s.items[..n])
  }

  ghost predicate Encodable(d: Desc, m: Message)
    decreases d
  {
    |m.slots| == |d.fields| && forall i | 0 <= i < |d.fields| :: EncodableSlot(d.fields[i], m.which, m.slots[i])
  }

  lemma {:induction false} ItemsEncode(t: LType, size: nat, vs: seq<Val>, lead: seq<byte>)
    requires forall v | v in vs :: RunVal(t, size, v).err == None <==> EncodableVal(t, size, v)
    ensures RunItems(t, size, vs, lead).err == None <==> EncodableItems(t, size, vs)
    decreases |vs|
  {
    hide RunVal, EncodableVal;
    if vs == [] {
    } else {
      assert vs[0] in vs && forall v | v in vs[1..] :: v in vs;
      ItemsEncode(t, size, vs[1..], lead);
      assert forall k | 0 < k < |vs| :: vs[k] == vs[1..][k - 1];
    }
  }

  lemma {:induction false} ValEncodes(t: LType, size: nat, v: Val)
    requires ValOk(t, size, v) && (t.LMessage? ==> DescOk(t.desc))
    ensures RunVal(t, size, v).err == None <==> EncodableVal(t, size, v)
    decreases t, 0
  {
    hide Varint, Le, ZigZag;
    if t.LMessage? {
      EncodesExactly(t.desc, v.m);
    }
  }

  lemma {:induction false} SlotEncodes(f: Field, which: seq<nat>, s: Slot)
    requires FieldOk(f) && SlotOk(f, s)
    ensures RunSlot(f, s, which).err == None <==> EncodableSlot(f, which, s)
    decreases f
  {
    hide Varint, RunVal, RunItems, ValOk, DescOk, EncodableVal, EncodableItems, IsDefault;
    match f.rule
    case Repeated(fixed, max) =>
      var n := if fixed then max else s.count;
      if n <= |s.items| {
        var vs := s.items[..n];
        forall v | v in vs ensures RunVal(f.ltype, f.size, v).err == None <==> EncodableVal(f.ltype, f.size, v) {
          assert v in s.items;
          ValEncodes(f.ltype, f.size, v);
        }
        ItemsEncode(f.ltype, f.size, vs, []);
        ItemsEncode(f.ltype, f.size, vs, Tag(WireType(f.ltype), f.tag));
        if n == 0 {
          NoItemsEncode(f.ltype, f.size);
        }
      }
    case _ => ValEncodes(f.ltype, f.size, s.v);
  }

  lemma NoItemsEncode(t: LType, size: nat)
    ensures EncodableItems(t, size, [])
  {
  }

  lemma {:induction false} FieldsEncode(d: Desc, m: Message, i: nat)
    requires DescOk(d) && MsgOk(d, m) && i <= |d.fields|
    ensures RunFields(d, m, i).err == None <==>
              forall j | i <= j < |d.fields| :: EncodableSlot(d.fields[j], m.which, m.slots[j])
    decreases d, |d.fields| - i
  {
    hide RunSlot, EncodableSlot, SlotOk, FieldOk;
    if i == |d.fields| {
    } else {
      SlotEncodes(d.fields[i], m.which, m.slots[i]);
      FieldsEncode(d, m, i + 1);
    }
  }

  /** The encoder fails exactly for sizes that no integer type has, lengths past
      their buffer and counts past their array, in what it would write. */
  lemma {:induction false} EncodesExactly(d: Desc, m: Message)
    requires DescOk(d) && MsgOk(d, m)
    ensures RunMsg(d, m).err == None <==> Encodable(d, m)
    decreases d, 1 + |d.fields|
  {
    hide RunFields, EncodableSlot;
    FieldsEncode(d, m, 0);
  }

  // ---------------------------------------------------------------- what is left out

  /** A proto3 message: no required fields and no arrays of fixed count. The
      source writes fixed-length bytes always, so that there are none of those. */
  ghost predicate Proto3(d: Desc)
    decreases d
  {
    forall i | 0 <= i < |d.fields| :: Proto3Field(d.fields[i])
  }

  ghost predicate Proto3Field(f: Field)
    decreases f
  {
    && !f.rule.Required? && !IsFixed(f) && !f.ltype.LFixedBytes?
    && (f.ltype.LMessage? ==> Proto3(f.ltype.desc))
  }

  lemma {:induction false} ZeroIsDefault(f: Field, groups: nat)
    requires FieldOk(f) && Proto3Field(f) && (f.rule.Oneof? ==> f.rule.group < groups)
    ensures IsDefault(f, ZeroSlot(f), seq(groups, _ => 0))
    decreases f
  {
    match f.rule
    case Optional(false) =>
      match f.ltype {
        case LMessage(e) => ZeroSubmessageIsDefault(e, f);
        case LString => assert StrLen(Zeros(f.size)) == 0;
        case _ =>
      }
    case _ =>
  }

  lemma {:induction false} ZeroSubmessageIsDefault(e: Desc, f: Field)
    requires f.ltype == LMessage(e) && FieldOk(f) && Proto3Field(f)
    ensures |ZeroMsg(e).slots| == |e.fields|
    ensures forall i | 0 <= i < |e.fields| :: IsDefault(e.fields[i], ZeroMsg(e).slots[i], ZeroMsg(e).which)
    decreases e
  {
    hide IsDefault, ZeroVal;
    forall i | 0 <= i < |e.fields| ensures IsDefault(e.fields[i], ZeroMsg(e).slots[i], ZeroMsg(e).which) {
      assert FieldOk(e.fields[i]) && Proto3Field(e.fields[i]);
      ZeroIsDefault(e.fields[i], e.groups);
    }
  }

  lemma {:induction false} ZeroFieldsWriteNothing(d: Desc, i: nat)
    requires DescOk(d) && Proto3(d) && i <= |d.fields|
    ensures RunFields(d, ZeroMsg(d), i) == NOTHING
    decreases |d.fields| - i
  {
    hide IsDefault, FieldOk, ZeroVal, RunVal;
    if i == |d.fields| {
    } else {
      var f, m := d.fields[i], ZeroMsg(d);
      assert FieldOk(f) && Proto3Field(f);
      ZeroIsDefault(f, d.groups);
      NothingForZero(f, m.which);
      assert RunSlot(f, m.slots[i], m.which) == NOTHING;
      ZeroFieldsWriteNothing(d, i + 1);
    }
  }

  lemma NothingForZero(f: Field, which: seq<nat>)
    requires FieldOk(f) && Proto3Field(f) && IsDefault(f, ZeroSlot(f), which) && forall g | 0 <= g < |which| :: which[g] == 0
    ensures RunSlot(f, ZeroSlot(f), which) == NOTHING
  {
    hide IsDefault, ZeroVal, RunVal;
  }

  /** A proto3 message of zeros is no bytes at all, at any depth. */
  lemma ZeroWritesNothing(d: Desc)
    requires DescOk(d) && Proto3(d)
    ensures RunMsg(d, ZeroMsg(d)) == NOTHING
  {
    ZeroFieldsWriteNothing(d, 0);
  }

  /** A singular value is taken for a default exactly if it is zero or empty. */
  lemma DefaultsExactly(f: Field, v: Val, which: seq<nat>)
    requires f.rule == Optional(false) && FieldOk(f) && ValOk(f.ltype, f.size, v)
    ensures v.Num? ==> (IsDefault(f, One(v), which) <==> v.n == 0)
    ensures v.Blob? ==> (IsDefault(f, One(v), which) <==> v.len == 0)
    ensures f.ltype.LString? ==> (IsDefault(f, One(v), which) <==> v.buf[0] == 0)
    ensures f.ltype.LFixedBytes? ==> (IsDefault(f, One(v), which) <==> |v.buf| == 0)
  {
  }

  // ---------------------------------------------------------------- keys in numbers

  /** The low three bits of the key that each type is written with. */
  function TypeNumber(t: LType): nat {
    match t
    case LVarint => 0
    case LUvarint => 0
    case LSvarint => 0
    case LFixed64 => 1
    case LBytes => 2
    case LString => 2
    case LMessage(_) => 2
    case LFixedBytes => 2
    case LFixed32 => 5
  }

  /** A value is written behind the varint of eight times its field's number and
      the number of its type; a packed array behind that of type 2. */
  lemma KeyNumbers(f: Field, v: Val, items: seq<Val>, count: nat)
    ensures Varint(8 * f.tag + TypeNumber(f.ltype)) <= Tagged(f, v).out
    ensures 0 < count <= |items| && Packable(f.ltype) ==> Varint(8 * f.tag + 2) <= RunArray(f, items, count).out
  {
    hide Varint, RunVal, RunItems;
  }

  // ---------------------------------------------------------------- examples

  function Plain(tag: nat, t: LType, size: nat): Field {
    Field(tag, t, Required, size, None, Place(0, 0))
  }

  lemma SmallVarints()
    ensures Varint(1) == [1] && Varint(2) == [2] && Varint(3) == [3] && Varint(5) == [5]
    ensures Varint(8) == [8] && Varint(18) == [18] && Varint(26) == [26]
  {
  }

  lemma GuideVarints()
    ensures Varint(150) == [0x96, 0x01] && Varint(270) == [0x8e, 0x02] && Varint(86942) == [0x9e, 0xa7, 0x05]
  {
    SmallVarints();
    assert Varint(679) == [0xa7] + Varint(5);
  }

  /** The examples of the Protocol Buffers encoding guide: 150 in field 1. */
  lemma GuideNumber()
    ensures Tagged(Plain(1, LVarint, 4), Num(150)) == Put([0x08, 0x96, 0x01])
  {
    hide Varint;
    SmallVarints();
    GuideVarints();
  }

  /** "testing" in field 2. */
  lemma GuideText()
    ensures Tagged(Plain(2, LString, 8), Text([0x74, 0x65, 0x73, 0x74, 0x69, 0x6e, 0x67, 0])).out
         == [0x12, 0x07, 0x74, 0x65, 0x73, 0x74, 0x69, 0x6e, 0x67]
  {
    hide StrLen;
    var s: seq<byte> := [0x74, 0x65, 0x73, 0x74, 0x69, 0x6e, 0x67, 0];
    StrLenIs(s, 7);
    assert s[..7] == [0x74, 0x65, 0x73, 0x74, 0x69, 0x6e, 0x67];
    assert Varint(7) == [7] && Varint(18) == [18];
  }

  /** A submessage with 150 in its field 1, in field 3. */
  lemma GuideSubmessage()
    ensures Tagged(Plain(3, LMessage(Desc([Plain(1, LVarint, 4)], 0)), 4), Sub(Message([One(Num(150))], []))).out
         == [0x1a, 0x03, 0x08, 0x96, 0x01]
  {
    hide Varint, Tagged;
    var d, m := Desc([Plain(1, LVarint, 4)], 0), Message([One(Num(150))], []);
    SmallVarints();
    GuideNumber();
    assert RunFields(d, m, 1) == NOTHING;
    assert RunSlot(d.fields[0], m.slots[0], m.which) == Put([0x08, 0x96, 0x01]);
    assert RunMsg(d, m) == Put([0x08, 0x96, 0x01]);
    TaggedSub(d, m);
  }

  lemma TaggedSub(d: Desc, m: Message)
    requires RunMsg(d, m) == Put([0x08, 0x96, 0x01])
    ensures Tagged(Plain(3, LMessage(d), 4), Sub(m)).out == [0x1a, 0x03, 0x08, 0x96, 0x01]
  {
    hide Varint, RunMsg;
    SmallVarints();
  }

  lemma StrLenIs(s: seq<byte>, n: nat)
    requires n < |s| && s[n] == 0 && forall i | 0 <= i < n :: s[i] != 0
    ensures StrLen(s) == n
  {
  }

  /** Numbers of other types: ZigZag of -1, five in four and in eight bytes. */
  lemma ZigZagExample()
    ensures Tagged(Plain(1, LSvarint, 4), Num(-1)) == Put([0x08, 0x01])
  {
    hide Varint, ZigZag;
    SmallVarints();
    ZigZagMeans(-1);
  }

  lemma FixedExamples()
    ensures Tagged(Plain(1, LFixed32, 4), Num(5)) == Put([0x0d, 5, 0, 0, 0])
    ensures Tagged(Plain(1, LFixed64, 8), Num(5)) == Put([0x09, 5, 0, 0, 0, 0, 0, 0, 0])
  {
    hide Varint, Le;
    assert Varint(13) == [0x0d] && Varint(9) == [0x09] by { FixedKeys(); }
    LeFive();
  }

  lemma FixedKeys()
    ensures Varint(13) == [0x0d] && Varint(9) == [0x09]
  {
  }

  lemma LeFive()
    ensures Le(5, 4) == [5, 0, 0, 0] && Le(5, 8) == [5, 0, 0, 0, 0, 0, 0, 0]
  {
    assert Le(0, 1) == [0] && Le(0, 2) == [0, 0] && Le(0, 3) == [0, 0, 0] && Le(0, 4) == [0, 0, 0, 0];
    assert Le(0, 5) == [0, 0, 0, 0, 0] && Le(0, 6) == [0, 0, 0, 0, 0, 0] && Le(0, 7) == [0, 0, 0, 0, 0, 0, 0];
  }

  lemma MoreVarints()
    ensures Varint(34) == [0x22] && Varint(6) == [6]
  {
  }

  /** One more item in front. */
  lemma ItemInFront(n: nat, vs: seq<Val>, rest: seq<byte>)
    requires n < 0x8000_0000 && RunItems(LVarint, 4, vs, []) == Put(rest)
    ensures RunItems(LVarint, 4, [Num(n)] + vs, []) == Put(Varint(n) + rest)
  {
    hide Varint;
    assert ([Num(n)] + vs)[1..] == vs && [] + Varint(n) == Varint(n);
  }

  /** The guide's packed array: 3, 270 and 86942 in field 4. */
  lemma GuidePacked()
    ensures var f := Field(4, LVarint, Repeated(false, 3), 4, None, Place(0, 0));
            RunArray(f, [Num(3), Num(270), Num(86942)], 3) == Put([0x22, 0x06, 0x03, 0x8e, 0x02, 0x9e, 0xa7, 0x05])
  {
    hide Varint, RunVal, RunItems;
    SmallVarints();
    GuideVarints();
    MoreVarints();
    assert RunItems(LVarint, 4, [], []) == NOTHING by { NoItems(); }
    ItemInFront(86942, [], []);
    assert [Num(86942)] + [] == [Num(86942)] && Varint(86942) + [] == [0x9e, 0xa7, 0x05];
    ItemInFront(270, [Num(86942)], [0x9e, 0xa7, 0x05]);
    assert [Num(270)] + [Num(86942)] == [Num(270), Num(86942)] && Varint(270) + [0x9e, 0xa7, 0x05] == [0x8e, 0x02, 0x9e, 0xa7, 0x05];
    ItemInFront(3, [Num(270), Num(86942)], [0x8e, 0x02, 0x9e, 0xa7, 0x05]);
    var items := [Num(3), Num(270), Num(86942)];
    assert [Num(3)] + [Num(270), Num(86942)] == items && Varint(3) + [0x8e, 0x02, 0x9e, 0xa7, 0x05] == [0x03, 0x8e, 0x02, 0x9e, 0xa7, 0x05];
    assert items[..3] == items;
  }

  lemma NoItems()
    ensures RunItems(LVarint, 4, [], []) == NOTHING
  {
  }
}
