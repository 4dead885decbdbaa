/** When decoding what was encoded gives the message back, as far as it can be
    observed: for every static descriptor tree and every message that can be
    encoded, exactly if the message survives the check for defaults. */
module PbRoundTrip {
  import opened Wrappers
  import opened PbVarint
  import opened PbDescriptor
  import opened PbEncoderSpec
  import opened PbDecoderSpec
  import opened PbIterator
  import opened PbMerge
  import opened PbObservable
  import opened Arith

  // ---------------------------------------------------------------- numbers

  /** Adding the range of a larger unsigned type does not change the low word. */
  lemma LowWord(n: int)
    requires -(U32 as int) <= n < 0
    ensures (n + U64) % U32 == n + U32
  {
    assert n + U64 == U32 * (U32 - 1) + (n + U32);
    ModOf(U32 - 1, U32, n + U32);
  }

  lemma SignedBack(size: nat, n: int)
    requires IntSize(size) && FitsSigned(n, size)
    ensures CastSigned(ToU64(n), size) == Some(n)
  {
    assert ToU64(n) == if n < 0 then n + U64 else n;
    if size != 8 && n < 0 {
      LowWord(n);
    }
  }

  lemma CastBack(t: LType, size: nat, n: int)
    requires (t.LVarint? || t.LUvarint? || t.LSvarint?) && IntSize(size) && ValOk(t, size, Num(n))
    ensures t.LSvarint? ==> ZigZag(n) < U64 && CastNum(t, size, ZigZag(n)) == Some(n)
    ensures !t.LSvarint? ==> CastNum(t, size, ToU64(n)) == Some(n)
  {
    if t.LSvarint? {
      hide ZigZag, UnZigZag;
      ZigZagMeans(n);
    } else if t.LVarint? {
      hide ToU64, CastSigned;
      SignedBack(size, n);
    }
  }

  lemma FixedBack(n: nat, bytes: nat, tail: seq<byte>)
    requires n < Pow2(8 * bytes)
    ensures ReadFixed(Le(n, bytes) + tail, bytes) == Some((Num(n), tail))
  {
    ReadLeOfLe(n, bytes);
    var s := Le(n, bytes) + tail;
    assert s[..bytes] == Le(n, bytes) && s[bytes..] == tail;
  }

  lemma Pow64Bits()
    ensures Pow2(8 * 4) == U32 && Pow2(8 * 8) == U64
  {
    Pow64();
  }

  lemma NumRoundTrip(t: LType, size: nat, v: Val, tail: seq<byte>)
    requires Packable(t) && SizeOk(t, size) && ValOk(t, size, v) && RunVal(t, size, v).err == None
    ensures DecNum(t, size, RunVal(t, size, v).out + tail) == Some((v, tail))
    ensures RunVal(t, size, v).out != []
  {
    hide Varint, Le, ReadFixed, ZigZag, ReadVarint, Pow2;
    var n := v.n;
    if t.LFixed32? {
      Pow64Bits();
      FixedBack(n, 4, tail);
    } else if t.LFixed64? {
      Pow64Bits();
      FixedBack(n, 8, tail);
    } else {
      CastBack(t, size, n);
      ReadVarintOfVarint(if t.LSvarint? then ZigZag(n) else ToU64(n), tail);
    }
  }

  // ---------------------------------------------------------------- texts

  lemma TextRoundTrip(t: LType, size: nat, v: Val, v0: Val, tail: seq<byte>)
    requires (t.LBytes? || t.LString? || t.LFixedBytes?) && SizeOk(t, size) && ValOk(t, size, v) && ValOk(t, size, v0)
    requires GoodVal(t, v) && RunVal(t, size, v).err == None
    ensures var r := DecText(t, size, v0, RunVal(t, size, v).out + tail);
            r.Some? && r.value.1 == tail && ObsVal(t, v, r.value.0) && ValOk(t, size, r.value.0)
  {
    hide ReadDelimited, Delimited;
    match t
    case LBytes =>
      var b := v.bytes[..v.len];
      ReadDelimitedOf(b, tail);
    case LString =>
      var b := v.buf[..StrLen(v.buf)];
      ReadDelimitedOf(b, tail);
      var w := Overlay(b + [0], v0.buf);
      assert w[..|b|] == b && w[|b|] == 0;
      assert StrLen(w) == |b|;
    case LFixedBytes =>
      ReadDelimitedOf(v.buf, tail);
  }

  // ---------------------------------------------------------------- packed arrays

  lemma {:induction false} PackedRoundTrip(t: LType, size: nat, vs: seq<Val>, k: nat, items: seq<Val>)
    requires Packable(t) && SizeOk(t, size) && k <= |vs| <= |items|
    requires (forall v | v in vs :: ValOk(t, size, v)) && (forall v | v in items :: ValOk(t, size, v))
    requires items[..k] == vs[..k] && RunItems(t, size, vs[k..], []).err == None
    ensures var r := DecPacked(t, size, items, k, RunItems(t, size, vs[k..], []).out);
            && r.Some? && r.value.1 == |vs| && |r.value.0| == |items|
            && r.value.0[..|vs|] == vs && r.value.0[|vs|..] == items[|vs|..]
            && forall v | v in r.value.0 :: ValOk(t, size, v)
    decreases |vs| - k
  {
    hide RunVal, DecNum, ValOk, SizeOk;
    if k == |vs| {
    } else {
      var v, rest := vs[k], RunItems(t, size, vs[k + 1..], []);
      assert vs[k..][0] == v && vs[k..][1..] == vs[k + 1..] && v in vs;
      var out := RunVal(t, size, v).out;
      assert RunItems(t, size, vs[k..], []).out == out + rest.out by {
        assert [] + out == out;
      }
      NumRoundTrip(t, size, v, rest.out);
      var items' := items[k := v];
      assert items'[|vs|..] == items[|vs|..];
      assert items'[..k + 1] == items[..k] + [v] && vs[..k + 1] == vs[..k] + [v];
      assert forall w | w in items' :: w == v || w in items;
      PackedRoundTrip(t, size, vs, k + 1, items');
    }
  }

  // ---------------------------------------------------------------- what survives

  /** What an item is decoded into: new array entries are set to defaults. */
  function Begun(t: LType, renew: bool, v0: Val): Val {
    if renew && t.LMessage? && v0.Sub? then Sub(SetDefaults(t.desc, v0.m)) else v0
  }

  ghost predicate SurvivesVal(t: LType, v: Val, v0: Val)
    decreases t, 0
  {
    match t
    case LMessage(d) => v.Sub? && v0.Sub? && Survives(d, v.m, v0.m)
    case _ => true
  }

  ghost predicate SurvivesItems(t: LType, vs: seq<Val>, vs0: seq<Val>, n: nat)
    decreases t, 1
  {
    forall k | 0 <= k < n && k < |vs| && k < |vs0| :: SurvivesVal(t, vs[k], Begun(t, true, vs0[k]))
  }

  /** A singular value that is taken for a default is not written, so it must
      look like what is there already; whatever is written must survive inside. */
  ghost predicate SurvivesSlot(f: Field, which: seq<nat>, s: Slot, s0: Slot)
    decreases f
  {
    match f.rule
    case Required => s.One? && s0.One? && SurvivesVal(f.ltype, s.v, s0.v)
    case Optional(true) => s.Opt? && s0.Opt? && (s.has ==> SurvivesVal(f.ltype, s.v, s0.v))
    case Optional(false) =>
      && s.One? && s0.One?
      && if IsDefault(f, s, which) then ObsVal(f.ltype, s.v, s0.v) else SurvivesVal(f.ltype, s.v, s0.v)
    case Repeated(fixed, max) =>
      s.Many? && s0.Many? && SurvivesItems(f.ltype, s.items, s0.items, if fixed then max else s.count)
    case Oneof(g) =>
      s.One? && s0.One? && (g < |which| && which[g] == f.tag ==> SurvivesVal(f.ltype, s.v, Target(f, s0.v)))
  }

  /** The message `m` survives being encoded and decoded into `m0`. */
  ghost predicate Survives(d: Desc, m: Message, m0: Message)
    decreases d
  {
    && |m.slots| == |d.fields| == |m0.slots|
    && forall i | 0 <= i < |d.fields| :: SurvivesSlot(d.fields[i], m.which, m.slots[i], m0.slots[i])
  }

  // ---------------------------------------------------------------- the state after i fields

  /** The slot `r`, decoded from `s` over `s0`, looks like `s` exactly if `s` survives. */
  ghost predicate CameBack(f: Field, which: seq<nat>, s: Slot, s0: Slot, r: Slot) {
    ObsSlot(f, which, s, r) <==> SurvivesSlot(f, which, s, s0)
  }

  ghost predicate SlotsUpto(d: Desc, m: Message, m0: Message, i: nat, r: Message) {
    && |m.slots| == |d.fields| == |r.slots| == |m0.slots|
    && (forall j | 0 <= j < i && j < |d.fields| :: CameBack(d.fields[j], m.which, m.slots[j], m0.slots[j], r.slots[j]))
    && (forall j | i <= j < |d.fields| :: r.slots[j] == m0.slots[j])
  }

  /** The tag chosen in union g belongs to one of the first i fields. */
  ghost predicate ChosenBefore(d: Desc, g: nat, tag: nat, i: nat) {
    exists j :: 0 <= j < i && j < |d.fields| && Chosen(d.fields[j], g, tag)
  }

  ghost predicate WhichUpto(d: Desc, m: Message, i: nat, which: seq<nat>) {
    |which| == |m.which| && forall g | 0 <= g < |which| :: which[g] == if ChosenBefore(d, g, m.which[g], i) then m.which[g] else 0
  }

  ghost predicate SeenUpto(d: Desc, i: nat, seen: set<nat>)
    requires i <= |d.fields|
  {
    forall k | 0 <= k < ReqIndex(d.fields, i) && k < MAX_REQUIRED :: k in seen
  }

  ghost predicate FixedUpto(d: Desc, i: nat, st: State) {
    FixedFull(d, st) && (st.fixedField.Some? ==> st.fixedField.value < i)
  }

  /** A freshly defaulted message of the descriptor. */
  ghost predicate Blank(d: Desc, m0: Message) {
    MsgOk(d, m0) && Fresh(d, m0)
  }

  ghost predicate Upto(d: Desc, m: Message, m0: Message, i: nat, st: State)
    requires i <= |d.fields|
  {
    && Blank(d, m0) && MsgOk(d, st.m) && SlotsUpto(d, m, m0, i, st.m) && WhichUpto(d, m, i, st.m.which)
    && SeenUpto(d, i, st.seen) && FixedUpto(d, i, st)
  }

  // ---------------------------------------------------------------- one field

  lemma {:induction false} TagsFound(fields: seq<Field>, i: nat)
    requires i < |fields| && forall j, k | 0 <= j < k < |fields| :: fields[j].tag != fields[k].tag
    ensures FindTag(fields, fields[i].tag) == Some(i)
  {
    var r := FindTag(fields, fields[i].tag);
    assert r.Some?;
  }

  /** A key and its payload, at the front of the input. */
  lemma KeyStep(d: Desc, i: nat, wireType: nat, payload: seq<byte>, st: State)
    requires DescOk(d) && i < |d.fields| && wireType < 8
    ensures DecLoop(d, Tag(wireType, d.fields[i].tag) + payload, st) ==
              match DecField(d, i, wireType, payload, st)
              case None => None
              case Some((st', rest)) => DecLoop(d, rest, st')
  {
    hide Varint, DecField, ReadVarint32, FindTag;
    var f := d.fields[i];
    assert FieldOk(f);
    var key := 8 * f.tag + wireType;
    ReadVarint32OfVarint(key, payload);
    assert key / 8 == f.tag && key % 8 == wireType;
    TagsFound(d.fields, i);
  }

  /** Field i has been decoded. */
  lemma StoreUpto(d: Desc, m: Message, m0: Message, i: nat, st: State, got: Got)
    requires DescOk(d) && MsgOk(d, m) && i < |d.fields| && Upto(d, m, m0, i, st)
    requires !d.fields[i].rule.Repeated? && Prepare(d, i, st).Some?
    requires SlotOk(d.fields[i], got.slot) && CameBack(d.fields[i], m.which, m.slots[i], m0.slots[i], got.slot)
    requires d.fields[i].rule.Oneof? ==> m.which[d.fields[i].rule.group] == d.fields[i].tag
    ensures Upto(d, m, m0, i + 1, Store(d, i, Prepare(d, i, st).value, got))
  {
    hide CameBack, SlotOk, FieldOk, WhichUpto, SeenUpto, FixedUpto, Blank;
    WhichNext(d, m, i, st.m.which);
    StoreBooks(d, i, st, got);
    var st' := Store(d, i, Prepare(d, i, st).value, got);
    assert st'.m.slots == st.m.slots[i := got.slot];
    assert st'.m.which == (if d.fields[i].rule.Oneof? then st.m.which[d.fields[i].rule.group := d.fields[i].tag] else st.m.which) by {
      assert |st.m.which| == d.groups;
    }
    assert SlotsUpto(d, m, m0, i + 1, st'.m);
  }

  /** What decoding field i does to the bookkeeping. */
  lemma StoreBooks(d: Desc, i: nat, st: State, got: Got)
    requires i < |d.fields| && i < |st.m.slots| && !d.fields[i].rule.Repeated? && Prepare(d, i, st).Some?
    requires SeenUpto(d, i, st.seen) && FixedUpto(d, i, st)
    ensures var st' := Store(d, i, Prepare(d, i, st).value, got); SeenUpto(d, i + 1, st'.seen) && FixedUpto(d, i + 1, st')
  {
  }

  lemma WhichNext(d: Desc, m: Message, i: nat, which: seq<nat>)
    requires DescOk(d) && i < |d.fields| && WhichUpto(d, m, i, which)
    ensures var f := d.fields[i];
            var chosen := f.rule.Oneof? && f.rule.group < |which| && m.which[f.rule.group] == f.tag;
            WhichUpto(d, m, i + 1, if chosen then which[f.rule.group := f.tag] else which)
  {
    var f := d.fields[i];
    forall g | 0 <= g < |which|
      ensures ChosenBefore(d, g, m.which[g], i + 1) <==> ChosenBefore(d, g, m.which[g], i) || Chosen(f, g, m.which[g])
    {
      if Chosen(f, g, m.which[g]) {
        assert ChosenBefore(d, g, m.which[g], i + 1);
      }
    }
  }

  /** A field that was left out. */
  lemma SkippedUpto(d: Desc, m: Message, m0: Message, i: nat, st: State)
    requires DescOk(d) && MsgOk(d, m) && i < |d.fields| && Upto(d, m, m0, i, st) && !d.fields[i].rule.Required?
    requires CameBack(d.fields[i], m.which, m.slots[i], m0.slots[i], st.m.slots[i])
    requires d.fields[i].rule.Oneof? ==> m.which[d.fields[i].rule.group] != d.fields[i].tag
    ensures Upto(d, m, m0, i + 1, st)
  {
    hide CameBack, SlotOk, Blank;
    WhichNext(d, m, i, st.m.which);
  }

  // ---------------------------------------------------------------- values, submessages included

  ghost predicate MsgFits(d: Desc, m: Message) {
    DescOk(d) && MsgOk(d, m) && GoodMsg(d, m)
  }

  lemma {:induction false} ValRoundTrip(f: Field, renew: bool, v: Val, v0: Val, tail: seq<byte>)
    requires FieldOk(f) && ValOk(f.ltype, f.size, v) && ValOk(f.ltype, f.size, v0) && GoodVal(f.ltype, v)
    requires f.ltype.LMessage? && !renew ==> Fresh(f.ltype.desc, v0.m)
    requires RunVal(f.ltype, f.size, v).err == None && |RunVal(f.ltype, f.size, v).out| < U32
    ensures var r := DecVal(f.ltype, f.size, renew, v0, RunVal(f.ltype, f.size, v).out + tail);
            && r.Some? && r.value.1 == tail && ValOk(f.ltype, f.size, r.value.0)
            && (ObsVal(f.ltype, v, r.value.0) <==> SurvivesVal(f.ltype, v, Begun(f.ltype, renew, v0)))
    decreases f, 0
  {
    hide DecNum, DecText, ReadDelimited, Delimited, DecMsg, RunMsg, Fresh, MsgOk, GoodMsg, ObsMsg, Survives;
    match f.ltype
    case LMessage(d) =>
      var out := RunMsg(d, v.m).out;
      assert Delimited(out) == RunVal(f.ltype, f.size, v).out;
      DelimitedLength(out);
      ReadDelimitedOf(out, tail);
      var start := if renew then SetDefaults(d, v0.m) else v0.m;
      if renew {
        DefaultsAreFresh(d, v0.m);
      }
      MsgRoundTrip(d, v.m, start);
    case _ =>
      if Packable(f.ltype) {
        NumRoundTrip(f.ltype, f.size, v, tail);
      } else {
        TextRoundTrip(f.ltype, f.size, v, v0, tail);
      }
  }

  lemma DelimitedLength(b: seq<byte>)
    ensures |b| <= |Delimited(b)|
  {
  }

  /** A field with one value, after its key. */
  lemma {:induction false} TaggedRoundTrip(d: Desc, m: Message, m0: Message, i: nat, v: Val, st: State, tail: seq<byte>) returns (st': State)
    requires DescOk(d) && MsgOk(d, m) && i < |d.fields| && Upto(d, m, m0, i, st)
    requires !d.fields[i].rule.Repeated? && GoodVal(d.fields[i].ltype, v)
    requires (m.slots[i].One? && m.slots[i].v == v) || (m.slots[i] == Opt(true, v))
    requires d.fields[i].rule == Optional(false) ==> !IsDefault(d.fields[i], m.slots[i], m.which)
    requires Tagged(d.fields[i], v).err == None && |Tagged(d.fields[i], v).out| < U32
    requires d.fields[i].rule.Oneof? ==> m.which[d.fields[i].rule.group] == d.fields[i].tag
    ensures Upto(d, m, m0, i + 1, st')
    ensures DecLoop(d, Tagged(d.fields[i], v).out + tail, st) == DecLoop(d, tail, st')
    decreases d.fields[i], 1
  {
    hide DecLoop, RunVal, DecVal, MsgOk, GoodVal, ObsVal, SurvivesVal, ValOk, SetDefaults, ZeroMsg, ReqIndex, Store, Tag, IsDefault;
    var f, slot := d.fields[i], st.m.slots[i];
    SlotFacts(d, m, m0, i, st);
    var target := Target(f, slot.v);
    TargetFresh(f, slot);
    ValRoundTrip(f, false, v, target, tail);
    var payload := RunVal(f.ltype, f.size, v).out + tail;
    KeyStep(d, i, WireType(f.ltype), payload, st);
    assert Tagged(f, v).out + tail == Tag(WireType(f.ltype), f.tag) + payload;
    var got := DecSlot(f, slot, CountOf(f, slot, Prepare(d, i, st).value), WireType(f.ltype), payload).value;
    TaggedCameBack(f, m.which, m.slots[i], slot, got.slot, v);
    StoreUpto(d, m, m0, i, st, got);
    st' := Store(d, i, Prepare(d, i, st).value, got);
  }

  lemma TaggedCameBack(f: Field, which: seq<nat>, s: Slot, s0: Slot, r: Slot, v: Val)
    requires SlotOk(f, s) && SlotOk(f, s0) && !f.rule.Repeated? && s.v == v && (s.Opt? ==> s.has)
    requires f.rule == Optional(false) ==> !IsDefault(f, s, which)
    requires f.rule.Oneof? ==> f.rule.group < |which| && which[f.rule.group] == f.tag
    requires if f.rule == Optional(true) then r.Opt? && r.has else r.One?
    requires ObsVal(f.ltype, v, r.v) <==> SurvivesVal(f.ltype, v, Target(f, s0.v))
    ensures CameBack(f, which, s, s0, r)
  {
    hide ObsVal, SurvivesVal, ValOk, IsDefault;
  }

  lemma SlotFacts(d: Desc, m: Message, m0: Message, i: nat, st: State)
    requires DescOk(d) && MsgOk(d, m) && i < |d.fields| && Upto(d, m, m0, i, st)
    ensures FieldOk(d.fields[i]) && SlotOk(d.fields[i], m.slots[i]) && SlotOk(d.fields[i], st.m.slots[i])
    ensures st.m.slots[i] == m0.slots[i] && FreshSlot(d.fields[i], st.m.slots[i])
    ensures d.fields[i].rule.Oneof? ==> d.fields[i].rule.group < |m.which|
  {
  }

  lemma TargetFresh(f: Field, slot: Slot)
    requires FieldOk(f) && SlotOk(f, slot) && FreshSlot(f, slot) && !slot.Many?
    ensures ValOk(f.ltype, f.size, Target(f, slot.v))
    ensures f.ltype.LMessage? ==> Fresh(f.ltype.desc, Target(f, slot.v).m)
  {
    if f.rule.Oneof? && f.ltype.LMessage? {
      ZeroOk(f.ltype.desc);
      DefaultsAreFresh(f.ltype.desc, ZeroMsg(f.ltype.desc));
    }
  }

  // ---------------------------------------------------------------- arrays

  function CountIn(f: Field, s: Slot): nat
    requires s.Many? && f.rule.Repeated?
  {
    if f.rule.fixed then f.rule.max else s.count
  }

  /** Like Upto, with the first k items of array i there. */
  ghost predicate ItemsUpto(d: Desc, m: Message, m0: Message, i: nat, k: nat, st: State)
    requires i < |d.fields|
  {
    && Blank(d, m0) && MsgOk(d, st.m) && OthersUpto(d, m, m0, i, st.m) && WhichUpto(d, m, i, st.m.which) && SeenUpto(d, i, st.seen)
    && d.fields[i].rule.Repeated? && m.slots[i].Many? && m0.slots[i].Many? && st.m.slots[i].Many?
    && ItemsBack(d.fields[i].ltype, m.slots[i].items, m0.slots[i].items, st.m.slots[i].items, k)
    && (IsFixed(d.fields[i]) && k > 0 ==> st.fixedField == Some(i) && st.fixedCount == k)
    && (IsFixed(d.fields[i]) && k == 0 ==> FixedUpto(d, i, st))
    && (!IsFixed(d.fields[i]) ==> FixedUpto(d, i, st) && st.m.slots[i].count == k)
  }

  /** Each of the first k items looks the same exactly if it survives; the
      others are still what they were. */
  ghost predicate ItemsBack(t: LType, vs: seq<Val>, vs0: seq<Val>, ws: seq<Val>, k: nat) {
    && k <= |vs| && k <= |ws| == |vs0|
    && (forall j | 0 <= j < k :: ItemBack(t, vs[j], vs0[j], ws[j]))
    && (forall j | k <= j < |ws| :: ws[j] == vs0[j])
  }

  ghost predicate ItemBack(t: LType, v: Val, v0: Val, w: Val) {
    ObsVal(t, v, w) <==> SurvivesVal(t, v, Begun(t, true, v0))
  }

  ghost predicate OthersUpto(d: Desc, m: Message, m0: Message, i: nat, r: Message) {
    && |m.slots| == |d.fields| == |r.slots| == |m0.slots|
    && (forall j | 0 <= j < i && j < |d.fields| :: CameBack(d.fields[j], m.which, m.slots[j], m0.slots[j], r.slots[j]))
    && (forall j | i + 1 <= j < |d.fields| :: r.slots[j] == m0.slots[j])
  }

  lemma NoItemsYet(d: Desc, m: Message, m0: Message, i: nat, st: State)
    requires DescOk(d) && MsgOk(d, m) && i < |d.fields| && Upto(d, m, m0, i, st) && d.fields[i].rule.Repeated?
    ensures ItemsUpto(d, m, m0, i, 0, st)
  {
    hide CameBack, MsgOk;
    SlotFacts(d, m, m0, i, st);
  }

  lemma AllItems(d: Desc, m: Message, m0: Message, i: nat, st: State)
    requires DescOk(d) && MsgOk(d, m) && i < |d.fields| && d.fields[i].rule.Repeated? && m.slots[i].Many?
    requires ItemsUpto(d, m, m0, i, CountIn(d.fields[i], m.slots[i]), st)
    ensures Upto(d, m, m0, i + 1, st)
  {
    hide CameBack, ItemsBack, FieldOk, SlotOk, Blank;
    WhichNext(d, m, i, st.m.which);
    ItemsCameBack(d.fields[i], m.which, m.slots[i], m0.slots[i], st.m.slots[i]);
  }

  lemma ItemsCameBack(f: Field, which: seq<nat>, s: Slot, s0: Slot, r: Slot)
    requires f.rule.Repeated? && s.Many? && s0.Many? && r.Many? && (!f.rule.fixed ==> r.count == s.count)
    requires ItemsBack(f.ltype, s.items, s0.items, r.items, CountIn(f, s))
    ensures CameBack(f, which, s, s0, r)
  {
    hide ObsVal, SurvivesVal, Begun;
    var n := CountIn(f, s);
    forall j | 0 <= j < n
      ensures ObsVal(f.ltype, s.items[j], r.items[j]) <==> SurvivesVal(f.ltype, s.items[j], Begun(f.ltype, true, s0.items[j]))
    {
      assert ItemBack(f.ltype, s.items[j], s0.items[j], r.items[j]);
    }
    assert ObsItems(f.ltype, s.items, r.items, n) <==> SurvivesItems(f.ltype, s.items, s0.items, n);
  }

  /** The number of items in the array so far is read where it is kept. */
  lemma PrepareItems(d: Desc, m: Message, m0: Message, i: nat, k: nat, st: State)
    requires DescOk(d) && MsgOk(d, m) && i < |d.fields| && ItemsUpto(d, m, m0, i, k, st)
    ensures Prepare(d, i, st).Some?
    ensures var st' := Prepare(d, i, st).value;
            && CountOf(d.fields[i], st.m.slots[i], st') == k && st'.m == st.m && st'.seen == st.seen
            && (IsFixed(d.fields[i]) ==> st'.fixedField == Some(i)) && (!IsFixed(d.fields[i]) ==> st' == st)
  {
    hide CameBack, ItemsBack, Blank;
  }

  /** Storing an array keeps everything else. */
  lemma StoreItems(d: Desc, m: Message, m0: Message, i: nat, k: nat, n: nat, st: State, items: seq<Val>, rest: seq<byte>)
    requires DescOk(d) && MsgOk(d, m) && i < |d.fields| && ItemsUpto(d, m, m0, i, k, st) && k < n
    requires (forall v | v in items :: ValOk(d.fields[i].ltype, d.fields[i].size, v)) && |items| == |st.m.slots[i].items|
    requires n <= |items| && ItemsBack(d.fields[i].ltype, m.slots[i].items, m0.slots[i].items, items, n)
    ensures Prepare(d, i, st).Some?
    ensures ItemsUpto(d, m, m0, i, n, Store(d, i, Prepare(d, i, st).value, Got(Many(st.m.slots[i].count, items), n, rest)))
  {
    hide CameBack, Blank, ValOk, ItemsBack, Prepare;
    PrepareItems(d, m, m0, i, k, st);
    var f := d.fields[i];
    assert FieldOk(f) && SlotOk(f, st.m.slots[i]);
    var st' := Store(d, i, Prepare(d, i, st).value, Got(Many(st.m.slots[i].count, items), n, rest));
    assert SlotOk(f, st'.m.slots[i]);
  }

  lemma ItemsBackNext(t: LType, vs: seq<Val>, vs0: seq<Val>, ws: seq<Val>, k: nat, w: Val)
    requires ItemsBack(t, vs, vs0, ws, k) && k < |vs| && k < |ws| && ItemBack(t, vs[k], vs0[k], w)
    ensures ItemsBack(t, vs, vs0, ws[k := w], k + 1)
  {
    hide ItemBack;
  }

  /** The items of an array that is not packed, one key each. */
  lemma {:induction false} ItemsRoundTrip(d: Desc, m: Message, m0: Message, i: nat, k: nat, st: State, tail: seq<byte>) returns (st': State)
    requires DescOk(d) && MsgOk(d, m) && i < |d.fields| && ItemsUpto(d, m, m0, i, k, st)
    requires GoodSlot(d.fields[i], m.which, m.slots[i]) && !Packable(d.fields[i].ltype)
    requires k <= CountIn(d.fields[i], m.slots[i]) <= |m.slots[i].items|
    requires var r := ItemsFrom(d.fields[i], m.slots[i], k); r.err == None && |r.out| < U32
    ensures ItemsUpto(d, m, m0, i, CountIn(d.fields[i], m.slots[i]), st')
    ensures DecLoop(d, ItemsFrom(d.fields[i], m.slots[i], k).out + tail, st) == DecLoop(d, tail, st')
    decreases d.fields[i], 1, CountIn(d.fields[i], m.slots[i]) - k
  {
    hide DecLoop, RunVal, DecVal, MsgOk, GoodVal, ObsVal, SurvivesVal, ItemsBack, ValOk, ItemsUpto, Tag, Prepare, Store, CountOf, Begun;
    ItemShape(d, m, m0, i, k, st);
    var f, slot := d.fields[i], m.slots[i];
    if k == CountIn(f, slot) {
      assert [] + tail == tail;
      return st;
    }
    var v, rest := slot.items[k], ItemsFrom(f, slot, k + 1);
    NextItem(f, slot, k);
    var target := st.m.slots[i].items[k];
    ItemFacts(d, m, m0, i, k, st);
    var after := rest.out + tail;
    ValRoundTrip(f, true, v, target, after);
    var payload := RunVal(f.ltype, f.size, v).out + after;
    KeyStep(d, i, WireType(f.ltype), payload, st);
    assert ItemsFrom(f, slot, k).out + tail == Tag(WireType(f.ltype), f.tag) + payload;
    var w := DecVal(f.ltype, f.size, true, target, payload).value.0;
    var items := st.m.slots[i].items[k := w];
    ItemsBackNext(f.ltype, slot.items, m0.slots[i].items, st.m.slots[i].items, k, w);
    PrepareItems(d, m, m0, i, k, st);
    StoreItems(d, m, m0, i, k, k + 1, st, items, after);
    var next := Store(d, i, Prepare(d, i, st).value, Got(Many(st.m.slots[i].count, items), k + 1, after));
    st' := ItemsRoundTrip(d, m, m0, i, k + 1, next, tail);
  }

  /** What is written for the items from k on. */
  function ItemsFrom(f: Field, s: Slot, k: nat): Run
    requires s.Many? && f.rule.Repeated? && k <= CountIn(f, s) <= |s.items|
  {
    RunItems(f.ltype, f.size, s.items[k..CountIn(f, s)], Tag(WireType(f.ltype), f.tag))
  }

  lemma NextItem(f: Field, s: Slot, k: nat)
    requires s.Many? && f.rule.Repeated? && k < CountIn(f, s) <= |s.items|
    requires ItemsFrom(f, s, k).err == None
    ensures var v, rest := RunVal(f.ltype, f.size, s.items[k]), ItemsFrom(f, s, k + 1);
            && v.err == None && rest.err == None
            && ItemsFrom(f, s, k).out == Tag(WireType(f.ltype), f.tag) + v.out + rest.out
  {
    hide RunVal, Tag;
    var n := CountIn(f, s);
    assert s.items[k..n][0] == s.items[k] && s.items[k..n][1..] == s.items[k + 1..n];
  }

  lemma ItemShape(d: Desc, m: Message, m0: Message, i: nat, k: nat, st: State)
    requires i < |d.fields| && ItemsUpto(d, m, m0, i, k, st)
    ensures |m.slots| == |d.fields| == |st.m.slots| == |m0.slots| && d.fields[i].rule.Repeated?
    ensures m.slots[i].Many? && st.m.slots[i].Many? && m0.slots[i].Many?
    ensures MsgOk(d, m) ==> |m.slots[i].items| == |st.m.slots[i].items|
  {
    assert MsgOk(d, m) ==> SlotOk(d.fields[i], m.slots[i]);
    assert SlotOk(d.fields[i], st.m.slots[i]);
  }

  lemma ItemFacts(d: Desc, m: Message, m0: Message, i: nat, k: nat, st: State)
    requires DescOk(d) && MsgOk(d, m) && i < |d.fields| && ItemsUpto(d, m, m0, i, k, st)
    requires GoodSlot(d.fields[i], m.which, m.slots[i]) && k < CountIn(d.fields[i], m.slots[i]) <= |m.slots[i].items|
    ensures var f, a, b := d.fields[i], m.slots[i], st.m.slots[i];
            && FieldOk(f) && |b.items| == |a.items| && GoodVal(f.ltype, a.items[k])
            && ValOk(f.ltype, f.size, a.items[k]) && ValOk(f.ltype, f.size, b.items[k])
            && ItemsBack(f.ltype, a.items, m0.slots[i].items, b.items, k) && b.items[k] == m0.slots[i].items[k]
            && forall v | v in b.items :: ValOk(f.ltype, f.size, v)
  {
    hide ValOk, GoodVal, CameBack, ItemBack, Blank;
    assert SlotOk(d.fields[i], m.slots[i]) && SlotOk(d.fields[i], st.m.slots[i]);
    assert m.slots[i].items[k] in m.slots[i].items;
  }

  /** A packed array, in one field. */
  lemma PackedFieldRoundTrip(d: Desc, m: Message, m0: Message, i: nat, st: State, tail: seq<byte>) returns (st': State)
    requires DescOk(d) && MsgOk(d, m) && i < |d.fields| && ItemsUpto(d, m, m0, i, 0, st) && Packable(d.fields[i].ltype)
    requires 0 < CountIn(d.fields[i], m.slots[i]) <= |m.slots[i].items|
    requires var r := RunSlot(d.fields[i], m.slots[i], m.which); r.err == None && |r.out| < U32
    ensures ItemsUpto(d, m, m0, i, CountIn(d.fields[i], m.slots[i]), st')
    ensures DecLoop(d, RunSlot(d.fields[i], m.slots[i], m.which).out + tail, st) == DecLoop(d, tail, st')
  {
    hide DecLoop, ReadDelimited, Delimited, MsgOk, ValOk, ItemsUpto, ItemsBack, Tag, Prepare, Store, CountOf, DecPacked, RunItems, FieldOk;
    ItemShape(d, m, m0, i, 0, st);
    var f, slot, st1 := d.fields[i], m.slots[i], st.m.slots[i];
    var n := CountIn(f, slot);
    var vs := slot.items[..n];
    var body := RunItems(f.ltype, f.size, vs, []);
    DelimitedLength(body.out);
    ReadDelimitedOf(body.out, tail);
    var payload := Delimited(body.out) + tail;
    KeyStep(d, i, WT_STRING, payload, st);
    assert RunSlot(f, slot, m.which).out + tail == Tag(WT_STRING, f.tag) + payload;
    PackedItems(d, m, m0, i, st);
    var items := DecPacked(f.ltype, f.size, st1.items, 0, body.out).value.0;
    PrepareItems(d, m, m0, i, 0, st);
    StoreItems(d, m, m0, i, 0, n, st, items, tail);
    st' := Store(d, i, Prepare(d, i, st).value, Got(Many(st1.count, items), n, tail));
  }

  lemma PackedItems(d: Desc, m: Message, m0: Message, i: nat, st: State)
    requires DescOk(d) && MsgOk(d, m) && i < |d.fields| && ItemsUpto(d, m, m0, i, 0, st) && Packable(d.fields[i].ltype)
    requires CountIn(d.fields[i], m.slots[i]) <= |m.slots[i].items|
    requires RunItems(d.fields[i].ltype, d.fields[i].size, m.slots[i].items[..CountIn(d.fields[i], m.slots[i])], []).err == None
    ensures |m.slots| == |d.fields| == |st.m.slots| == |m0.slots| && st.m.slots[i].Many? && m0.slots[i].Many?
    ensures var f, vs, items0 := d.fields[i], m.slots[i].items, st.m.slots[i].items;
            var n := CountIn(f, m.slots[i]);
            var r := DecPacked(f.ltype, f.size, items0, 0, RunItems(f.ltype, f.size, vs[..n], []).out);
            && r.Some? && r.value.1 == n && |r.value.0| == |items0| && n <= |items0|
            && (forall v | v in r.value.0 :: ValOk(f.ltype, f.size, v))
            && ItemsBack(f.ltype, vs, m0.slots[i].items, r.value.0, n)
  {
    hide ValOk, RunItems, DecPacked, CameBack, Blank;
    var f := d.fields[i];
    assert FieldOk(f) && SlotOk(f, m.slots[i]) && SlotOk(f, st.m.slots[i]);
    var vs := m.slots[i].items[..CountIn(f, m.slots[i])];
    assert vs[0..] == vs && forall v | v in vs :: v in m.slots[i].items;
    PackedRoundTrip(f.ltype, f.size, vs, 0, st.m.slots[i].items);
    var items := DecPacked(f.ltype, f.size, st.m.slots[i].items, 0, RunItems(f.ltype, f.size, vs, []).out).value.0;
    forall k | 0 <= k < |vs| ensures ItemBack(f.ltype, m.slots[i].items[k], m0.slots[i].items[k], items[k]) {
      assert items[..|vs|][k] == vs[k];
    }
    var items0 := st.m.slots[i].items;
    forall k | |vs| <= k < |items| ensures items[k] == m0.slots[i].items[k] {
      assert items[|vs|..][k - |vs|] == items0[|vs|..][k - |vs|];
    }
  }

  // ---------------------------------------------------------------- fields and messages

  /** One field of the message, present or not. */
  lemma {:induction false} FieldRoundTrip(d: Desc, m: Message, m0: Message, i: nat, st: State, tail: seq<byte>) returns (st': State)
    requires MsgFits(d, m) && i < |d.fields| && Upto(d, m, m0, i, st)
    requires var r := RunSlot(d.fields[i], m.slots[i], m.which); r.err == None && |r.out| < U32
    ensures Upto(d, m, m0, i + 1, st')
    ensures DecLoop(d, RunSlot(d.fields[i], m.slots[i], m.which).out + tail, st) == DecLoop(d, tail, st')
    decreases d.fields[i], 2
  {
    hide DecLoop, RunVal, RunItems, Upto, ItemsUpto, GoodVal, ValOk, FreshVal, ObsVal, IsDefault;
    SlotFacts(d, m, m0, i, st);
    var f, s := d.fields[i], m.slots[i];
    assert GoodSlot(f, m.which, s);
    match f.rule
    case Repeated(fixed, max) =>
      NoItemsYet(d, m, m0, i, st);
      var n := CountIn(f, s);
      if n == 0 {
        st' := st;
        assert [] + tail == tail;
      } else if Packable(f.ltype) {
        st' := PackedFieldRoundTrip(d, m, m0, i, st, tail);
      } else {
        assert s.items[0..n] == s.items[..n];
        st' := ItemsRoundTrip(d, m, m0, i, 0, st, tail);
      }
      AllItems(d, m, m0, i, st');
    case _ =>
      if RunSlot(f, s, m.which) == NOTHING {
        st' := AbsentField(d, m, m0, i, st);
        assert [] + tail == tail;
      } else {
        st' := TaggedRoundTrip(d, m, m0, i, s.v, st, tail);
      }
  }

  lemma TaggedIsSomething(f: Field, v: Val)
    ensures Tagged(f, v) != NOTHING
  {
  }

  lemma AbsentField(d: Desc, m: Message, m0: Message, i: nat, st: State) returns (st': State)
    requires MsgFits(d, m) && i < |d.fields| && Upto(d, m, m0, i, st) && !d.fields[i].rule.Repeated?
    requires RunSlot(d.fields[i], m.slots[i], m.which) == NOTHING
    ensures st' == st && Upto(d, m, m0, i + 1, st)
  {
    hide RunVal, ObsVal, SurvivesVal, FreshVal, ValOk, GoodVal, IsDefault, SeenUpto, FixedUpto, WhichUpto;
    SlotFacts(d, m, m0, i, st);
    var f, s := d.fields[i], m.slots[i];
    TaggedIsSomething(f, s.v);
    SkippedUpto(d, m, m0, i, st);
    st' := st;
  }

  lemma {:induction false} FieldsRoundTrip(d: Desc, m: Message, m0: Message, i: nat, st: State) returns (st': State)
    requires MsgFits(d, m) && i <= |d.fields| && Upto(d, m, m0, i, st)
    requires RunFields(d, m, i).err == None && |RunFields(d, m, i).out| < U32
    ensures Upto(d, m, m0, |d.fields|, st')
    ensures DecLoop(d, RunFields(d, m, i).out, st) == Some((st', []))
    decreases d, |d.fields| - i
  {
    hide Upto, RunSlot, MsgFits, DecStep, ReadVarint32;
    if i == |d.fields| {
      st' := st;
    } else {
      FitsShape(d, m);
      var rest := RunFields(d, m, i + 1).out;
      var next := FieldRoundTrip(d, m, m0, i, st, rest);
      st' := FieldsRoundTrip(d, m, m0, i + 1, next);
    }
  }

  lemma FitsShape(d: Desc, m: Message)
    ensures MsgFits(d, m) ==> |m.slots| == |d.fields|
  {
  }

  lemma UptoStart(d: Desc, m: Message, m0: Message)
    requires MsgFits(d, m) && Blank(d, m0)
    ensures Upto(d, m, m0, 0, Start(m0))
  {
    hide CameBack, FreshSlot, SlotOk, GoodSlot;
  }

  lemma UptoEnd(d: Desc, m: Message, m0: Message, st: State)
    requires MsgFits(d, m) && Upto(d, m, m0, |d.fields|, st)
    ensures Finished(d, st) && (ObsMsg(d, m, st.m) <==> Survives(d, m, m0))
  {
    hide ObsSlot, SurvivesSlot, FreshSlot, SlotOk, GoodSlot, Blank;
    forall g | 0 <= g < |m.which| ensures st.m.which[g] == m.which[g] {
      assert m.which[g] != 0 ==> ChosenBefore(d, g, m.which[g], |d.fields|);
    }
    forall i | 0 <= i < |d.fields|
      ensures ObsSlot(d.fields[i], m.which, m.slots[i], st.m.slots[i]) <==> SurvivesSlot(d.fields[i], m.which, m.slots[i], m0.slots[i])
    {
      assert CameBack(d.fields[i], m.which, m.slots[i], m0.slots[i], st.m.slots[i]);
    }
  }

  /** At every depth, over every freshly defaulted structure. */
  lemma {:induction false} MsgRoundTrip(d: Desc, m: Message, m0: Message)
    requires MsgFits(d, m) && MsgOk(d, m0) && Fresh(d, m0)
    requires RunMsg(d, m).err == None && |RunMsg(d, m).out| < U32
    ensures var r := DecMsg(d, RunMsg(d, m).out, m0);
            r.Some? && r.value.1 == [] && MsgOk(d, r.value.0) && (ObsMsg(d, m, r.value.0) <==> Survives(d, m, m0))
    decreases d, 1 + |d.fields|
  {
    hide Finished, ObsMsg, DecLoop, RunFields, Survives;
    FitsShape(d, m);
    UptoStart(d, m, m0);
    var st := FieldsRoundTrip(d, m, m0, 0, Start(m0));
    UptoEnd(d, m, m0, st);
  }

  /** The round trip, exactly. For every descriptor and every message that can be
      encoded in less than 2^32 bytes, decoding what was encoded into any
      structure succeeds and reads it all; and the result looks the same if and
      only if the message survives over the defaults of that structure. */
  lemma RoundTripExactly(d: Desc, m: Message, dest: Message)
    requires MsgFits(d, m) && MsgOk(d, dest)
    requires RunMsg(d, m).err == None && |RunMsg(d, m).out| < U32
    ensures var r := Decode(d, RunMsg(d, m).out, dest);
            r.Some? && r.value.1 == [] && (ObsMsg(d, m, r.value.0) <==> Survives(d, m, SetDefaults(d, dest)))
  {
    hide ObsMsg, RunMsg, DecMsg, Survives;
    DefaultsAreFresh(d, dest);
    MsgRoundTrip(d, m, SetDefaults(d, dest));
  }

  // ---------------------------------------------------------------- where nothing can be lost

  lemma {:induction false} PlainSurvives(d: Desc, m: Message, m0: Message)
    requires MsgFits(d, m) && PlainDesc(d) && MsgOk(d, m0) && Fresh(d, m0)
    ensures Survives(d, m, m0)
    decreases d
  {
    forall i | 0 <= i < |d.fields| ensures SurvivesSlot(d.fields[i], m.which, m.slots[i], m0.slots[i]) {
      var f := d.fields[i];
      assert FieldOk(f) && PlainField(f) && SlotOk(f, m.slots[i]) && SlotOk(f, m0.slots[i]) && GoodSlot(f, m.which, m.slots[i]);
      PlainSlotSurvives(f, m.which, m.slots[i], m0.slots[i]);
    }
  }

  lemma {:induction false} PlainSlotSurvives(f: Field, which: seq<nat>, s: Slot, s0: Slot)
    requires FieldOk(f) && PlainField(f) && SlotOk(f, s) && SlotOk(f, s0) && GoodSlot(f, which, s) && FreshSlot(f, s0)
    requires f.rule.Oneof? ==> f.rule.group < |which|
    ensures SurvivesSlot(f, which, s, s0)
    decreases f, 1
  {
    hide ValOk, GoodVal, Fresh, ObsVal, IsDefault, SurvivesVal, PlainDesc, NoFixedInside, DescOk;
    match f.rule
    case Repeated(fixed, max) =>
      forall k | 0 <= k < |s.items| && (fixed || k < s.count) && k < |s0.items|
        ensures SurvivesVal(f.ltype, s.items[k], Begun(f.ltype, true, s0.items[k]))
      {
        BegunIsBlank(f, s0.items[k]);
        PlainValSurvives(f, s.items[k], Begun(f.ltype, true, s0.items[k]));
      }
    case Optional(false) =>
      if IsDefault(f, s, which) {
        DefaultObs(f, which, s, s0);
      } else {
        PlainValSurvives(f, s.v, s0.v);
      }
    case Optional(true) =>
      if s.has {
        PlainValSurvives(f, s.v, s0.v);
      }
    case Required => PlainValSurvives(f, s.v, s0.v);
    case Oneof(g) =>
      if which[g] == f.tag {
        TargetFresh(f, s0);
        PlainValSurvives(f, s.v, Target(f, s0.v));
      }
  }

  lemma BegunIsBlank(f: Field, v0: Val)
    requires FieldOk(f) && ValOk(f.ltype, f.size, v0)
    ensures var v := Begun(f.ltype, true, v0);
            ValOk(f.ltype, f.size, v) && (f.ltype.LMessage? ==> Fresh(f.ltype.desc, v.m))
  {
    if f.ltype.LMessage? {
      DefaultsAreFresh(f.ltype.desc, v0.m);
    }
  }

  lemma {:induction false} PlainValSurvives(f: Field, v: Val, v0: Val)
    requires FieldOk(f) && PlainField(f) && ValOk(f.ltype, f.size, v) && GoodVal(f.ltype, v) && ValOk(f.ltype, f.size, v0)
    requires f.ltype.LMessage? ==> Fresh(f.ltype.desc, v0.m)
    ensures SurvivesVal(f.ltype, v, v0)
    decreases f, 0
  {
    if f.ltype.LMessage? {
      PlainSurvives(f.ltype.desc, v.m, v0.m);
    }
  }

  /** The round trip. For every descriptor whose singular fields have no
      explicit default and whose singular submessages hold no array of fixed
      count, every message that can be encoded in less than 2^32 bytes comes
      back. */
  lemma DecodeOfEncode(d: Desc, m: Message, dest: Message)
    requires MsgFits(d, m) && PlainDesc(d) && MsgOk(d, dest)
    requires RunMsg(d, m).err == None && |RunMsg(d, m).out| < U32
    ensures var r := Decode(d, RunMsg(d, m).out, dest); r.Some? && r.value.1 == [] && ObsMsg(d, m, r.value.0)
  {
    hide ObsMsg, RunMsg, DecMsg, Survives, Decode, PlainDesc;
    DefaultsAreFresh(d, dest);
    RoundTripExactly(d, m, dest);
    PlainSurvives(d, m, SetDefaults(d, dest));
  }

  // ---------------------------------------------------------------- where it fails

  const FIXED_PAIR := Field(1, LUvarint, Repeated(true, 2), 4, None, Place(0, 0))
  const WITH_PAIR := Desc([Field(1, LMessage(Desc([FIXED_PAIR], 0)), Optional(false), 8, None, Place(0, 0))], 0)

  function Pair(a: nat, b: nat): Message {
    Message([One(Sub(Message([Many(0, [Num(a), Num(b)])], [])))], [])
  }

  lemma PairsDiffer(b: nat, c: nat)
    ensures ObsMsg(WITH_PAIR, Pair(0, b), Pair(0, c)) <==> b == c
  {
    var f, d := WITH_PAIR.fields[0], Desc([FIXED_PAIR], 0);
    var m, n := Message([Many(0, [Num(0), Num(b)])], []), Message([Many(0, [Num(0), Num(c)])], []);
    assert ObsItems(LUvarint, [Num(0), Num(b)], [Num(0), Num(c)], 2) <==> b == c by {
      assert ObsVal(LUvarint, Num(0), Num(0));
      assert ObsVal(LUvarint, Num(b), Num(c)) <==> b == c;
      assert [Num(0), Num(b)][1] == Num(b) && [Num(0), Num(c)][1] == Num(c);
    }
    assert d.fields[0] == FIXED_PAIR && m.slots[0] == Many(0, [Num(0), Num(b)]) && n.slots[0] == Many(0, [Num(0), Num(c)]);
    assert ObsSlot(FIXED_PAIR, [], m.slots[0], n.slots[0]) <==> b == c;
    assert ObsMsg(d, m, n) <==> b == c;
    assert Pair(0, b).slots[0] == One(Sub(m)) && Pair(0, c).slots[0] == One(Sub(n));
    assert ObsVal(f.ltype, Sub(m), Sub(n)) <==> b == c;
    assert ObsSlot(f, [], Pair(0, b).slots[0], Pair(0, c).slots[0]) <==> b == c;
  }

  lemma PairNotWritten()
    ensures RunMsg(WITH_PAIR, Pair(0, 5)) == NOTHING
  {
    var f, m := WITH_PAIR.fields[0], Pair(0, 5);
    var items := [Num(0), Num(5)];
    assert Front(FIXED_PAIR, items) == Le(0, 4) + Front(FIXED_PAIR, [Num(5)]);
    assert Le(0, 4) == [0, 0, 0, 0] by {
      assert Le(0, 2) == [0] + Le(0, 1) && Le(0, 1) == [0] + Le(0, 0);
    }
    assert FirstWordZero(FIXED_PAIR, items);
    assert IsDefault(f, m.slots[0], m.which);
    assert RunSlot(f, m.slots[0], m.which) == NOTHING;
    assert RunFields(WITH_PAIR, m, 1) == NOTHING;
    assert RunFields(WITH_PAIR, m, 0) == Then(NOTHING, NOTHING);
  }

  /** An array of fixed count in a singular submessage can be lost: the check for
      defaults takes the zero at its front for a count, so that nothing is
      written, and decoding keeps what the destination had behind its front. */
  lemma FixedArrayLost(a: nat, b: nat)
    requires a < U32 && b < U32
    ensures RunMsg(WITH_PAIR, Pair(0, 5)) == NOTHING
    ensures Decode(WITH_PAIR, [], Pair(a, b)) == Some((Pair(0, b), []))
    ensures ObsMsg(WITH_PAIR, Pair(0, 5), Pair(0, b)) <==> b == 5
  {
    hide RunMsg, ObsMsg;
    PairsDiffer(5, b);
    PairNotWritten();
    var f := WITH_PAIR.fields[0];
    var inner := Message([Many(0, [Num(a), Num(b)])], []);
    var cleared := Message([Many(0, [Num(0), Num(b)])], []);
    assert ClearFront([Num(a), Num(b)], 4, 4) == [Num(0)] + ClearFront([Num(b)], 4, 0);
    assert DefaultSlot(FIXED_PAIR, inner.slots[0]) == cleared.slots[0];
    assert SetDefaults(Desc([FIXED_PAIR], 0), inner).slots == cleared.slots;
    assert DefaultVal(f, Sub(inner)) == Sub(cleared);
    assert DefaultSlot(f, One(Sub(inner))) == One(Sub(cleared));
    assert SetDefaults(WITH_PAIR, Pair(a, b)).slots == Pair(0, b).slots;
    assert ReqIndex(WITH_PAIR.fields, 1) == 0;
  }
}
