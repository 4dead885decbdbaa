/** A field that occurs more than once: singular submessages merge, of numbers
    and of unions the last one counts, and each item of an array starts from
    defaults (pb_decode.c, `decode_static_field`). */
module PbRepeats {
  import opened Wrappers
  import opened PbVarint
  import opened PbDescriptor
  import opened PbEncoderSpec
  import opened PbDecoderSpec
  import opened PbIterator
  import opened PbMerge
  import opened PbRoundTrip

  /** One occurrence of field i: its key and a payload. */
  function Occurrence(d: Desc, i: nat, w: nat, payload: seq<byte>): seq<byte>
    requires i < |d.fields|
  {
    Varint(8 * d.fields[i].tag + w) + payload
  }

  /** Field i is singular and so needs no bookkeeping but for being seen. */
  ghost predicate SingularAt(d: Desc, i: nat, st: State) {
    && DescOk(d) && i < |d.fields| == |st.m.slots| && !d.fields[i].rule.Repeated?
    && (if d.fields[i].rule == Optional(true) then st.m.slots[i].Opt? else st.m.slots[i].One?)
  }

  /** The state after one occurrence with value v: present, chosen, seen. */
  function Set(d: Desc, i: nat, st: State, v: Val): State
    requires i < |d.fields| == |st.m.slots|
  {
    var f := d.fields[i];
    var slot := if f.rule == Optional(true) then Opt(true, v) else One(v);
    var which := if f.rule.Oneof? && f.rule.group < |st.m.which| then st.m.which[f.rule.group := f.tag] else st.m.which;
    var seen := if f.rule.Required? && ReqIndex(d.fields, i) < 64 then st.seen + {ReqIndex(d.fields, i)} else st.seen;
    State(Message(st.m.slots[i := slot], which), seen, st.fixedField, st.fixedCount)
  }

  /** What is there before an occurrence is decoded. */
  function Before(d: Desc, i: nat, st: State): Val
    requires i < |d.fields| == |st.m.slots| && !st.m.slots[i].Many?
  {
    st.m.slots[i].v
  }

  /** Decoding one occurrence sets the field and nothing else. */
  lemma OccurrenceSets(d: Desc, i: nat, w: nat, st: State, payload: seq<byte>, tail: seq<byte>)
    requires SingularAt(d, i, st) && w < 8
    ensures var f := d.fields[i];
            var r := DecVal(f.ltype, f.size, false, Target(f, Before(d, i, st)), payload + tail);
            DecLoop(d, Occurrence(d, i, w, payload) + tail, st) ==
              match r case None => None case Some((v, rest)) => DecLoop(d, rest, Set(d, i, st, v))
  {
    hide DecLoop, DecVal, Varint, DescOk;
    var f, bytes := d.fields[i], payload + tail;
    KeyStep(d, i, w, bytes, st);
    assert Occurrence(d, i, w, payload) + tail == Tag(w, f.tag) + bytes;
    var r := DecVal(f.ltype, f.size, false, Target(f, Before(d, i, st)), bytes);
    var st' := Prepare(d, i, st).value;
    assert DecSlot(f, st.m.slots[i], CountOf(f, st.m.slots[i], st'), w, bytes) ==
             match r
             case None => None
             case Some((v, rest)) => Some(Got(if f.rule == Optional(true) then Opt(true, v) else One(v), 0, rest));
    if r.Some? {
      var (v, rest) := r.value;
      var got := Got(if f.rule == Optional(true) then Opt(true, v) else One(v), 0, rest);
      assert Store(d, i, st', got) == Set(d, i, st, v);
    }
  }

  lemma SetTwice(d: Desc, i: nat, st: State, v: Val, w: Val)
    requires SingularAt(d, i, st)
    ensures SingularAt(d, i, Set(d, i, st, v)) && Before(d, i, Set(d, i, st, v)) == v
    ensures Set(d, i, Set(d, i, st, v), w) == Set(d, i, st, w)
  {
    hide DescOk;
    var s := Set(d, i, st, v);
    var slot := if d.fields[i].rule == Optional(true) then Opt(true, w) else One(w);
    assert s.m.slots[i := slot] == st.m.slots[i := slot];
  }

  /** A number read again replaces the one there. */
  lemma LastNumberCounts(d: Desc, i: nat, st: State, a: Val, b: Val, tail: seq<byte>)
    requires SingularAt(d, i, st) && Packable(d.fields[i].ltype)
    requires var f := d.fields[i];
             forall v | v == a || v == b :: ValOk(f.ltype, f.size, v) && RunVal(f.ltype, f.size, v).err == None
    ensures var f := d.fields[i];
            var first, second := RunVal(f.ltype, f.size, a).out, RunVal(f.ltype, f.size, b).out;
            var w := WireType(f.ltype);
            DecLoop(d, Occurrence(d, i, w, first) + Occurrence(d, i, w, second) + tail, st) == DecLoop(d, tail, Set(d, i, st, b))
  {
    hide DecLoop, RunVal, DecNum, Varint, ValOk, DescOk, Set;
    var f := d.fields[i];
    assert SizeOk(f.ltype, f.size) by { SizesOk(d, i); }
    var first, second, w := RunVal(f.ltype, f.size, a).out, RunVal(f.ltype, f.size, b).out, WireType(f.ltype);
    var more := Occurrence(d, i, w, second) + tail;
    assert Occurrence(d, i, w, first) + Occurrence(d, i, w, second) + tail == Occurrence(d, i, w, first) + more;
    NumRoundTrip(f.ltype, f.size, a, more);
    NumRoundTrip(f.ltype, f.size, b, tail);
    OccurrenceSets(d, i, w, st, first, more);
    SetTwice(d, i, st, a, b);
    OccurrenceSets(d, i, w, Set(d, i, st, a), second, tail);
  }

  lemma SizesOk(d: Desc, i: nat)
    requires DescOk(d) && i < |d.fields|
    ensures SizeOk(d.fields[i].ltype, d.fields[i].size)
  {
    assert FieldOk(d.fields[i]);
  }

  /** Reading a submessage goes on from what is there, or, in a union, from the
      defaults. */
  lemma SubmessageReads(t: LType, size: nat, v: Val, body: seq<byte>, tail: seq<byte>)
    requires t.LMessage? && v.Sub? && |body| < U32
    ensures DecVal(t, size, false, v, Delimited(body) + tail) ==
              match DecMsg(t.desc, body, v.m) case None => None case Some((m, _)) => Some((Sub(m), tail))
  {
    hide ReadDelimited, Delimited, DecMsg;
    ReadDelimitedOf(body, tail);
  }

  /** Two occurrences of a singular submessage decode as one that holds the bytes
      of both: they merge. */
  lemma SubmessagesMerge(d: Desc, i: nat, st: State, a: seq<byte>, b: seq<byte>, tail: seq<byte>)
    requires SingularAt(d, i, st) && d.fields[i].ltype.LMessage? && !d.fields[i].rule.Oneof? && Before(d, i, st).Sub?
    requires |a + b| < U32 && NoFixedArrays(d.fields[i].ltype.desc)
    requires var e, m := d.fields[i].ltype.desc, Before(d, i, st).m;
             && !StopsAtZero(e, a, PbDecoderSpec.Start(m)) && DecMsg(e, a, m).Some?
             && DecMsg(e, b, DecMsg(e, a, m).value.0).Some?
    ensures DecLoop(d, Occurrence(d, i, 2, Delimited(a)) + Occurrence(d, i, 2, Delimited(b)) + tail, st)
         == DecLoop(d, Occurrence(d, i, 2, Delimited(a + b)) + tail, st)
  {
    hide DecLoop, DecMsg, Varint, Delimited, DescOk, Set, StopsAtZero;
    var f := d.fields[i];
    var e, m := f.ltype.desc, Before(d, i, st).m;
    var m1 := DecMsg(e, a, m).value.0;
    var more := Occurrence(d, i, 2, Delimited(b)) + tail;
    assert Occurrence(d, i, 2, Delimited(a)) + Occurrence(d, i, 2, Delimited(b)) + tail == Occurrence(d, i, 2, Delimited(a)) + more;
    SubmessageReads(f.ltype, f.size, Sub(m), a, more);
    OccurrenceSets(d, i, 2, st, Delimited(a), more);
    SetTwice(d, i, st, Sub(m1), Sub(DecMsg(e, b, m1).value.0));
    SubmessageReads(f.ltype, f.size, Sub(m1), b, tail);
    OccurrenceSets(d, i, 2, Set(d, i, st, Sub(m1)), Delimited(b), tail);
    SubmessageReads(f.ltype, f.size, Sub(m), a + b, tail);
    OccurrenceSets(d, i, 2, st, Delimited(a + b), tail);
    ConcatenationMerges(e, a, b, m);
  }

  /** A submessage in a union replaces the one there: it starts from defaults. */
  lemma LastOfUnionCounts(d: Desc, i: nat, st: State, a: seq<byte>, b: seq<byte>, tail: seq<byte>)
    requires SingularAt(d, i, st) && d.fields[i].ltype.LMessage? && d.fields[i].rule.Oneof?
    requires |a| < U32 && |b| < U32
    requires var e := d.fields[i].ltype.desc;
             DecMsg(e, a, SetDefaults(e, ZeroMsg(e))).Some? && DecMsg(e, b, SetDefaults(e, ZeroMsg(e))).Some?
    ensures DecLoop(d, Occurrence(d, i, 2, Delimited(a)) + Occurrence(d, i, 2, Delimited(b)) + tail, st)
         == DecLoop(d, tail, Set(d, i, st, Sub(DecMsg(d.fields[i].ltype.desc, b, SetDefaults(d.fields[i].ltype.desc, ZeroMsg(d.fields[i].ltype.desc))).value.0)))
  {
    hide DecLoop, DecMsg, Varint, Delimited, DescOk, Set, SetDefaults, ZeroMsg;
    var f := d.fields[i];
    var e := f.ltype.desc;
    var m0 := SetDefaults(e, ZeroMsg(e));
    var va, vb := Sub(DecMsg(e, a, m0).value.0), Sub(DecMsg(e, b, m0).value.0);
    var more := Occurrence(d, i, 2, Delimited(b)) + tail;
    assert Occurrence(d, i, 2, Delimited(a)) + Occurrence(d, i, 2, Delimited(b)) + tail == Occurrence(d, i, 2, Delimited(a)) + more;
    SubmessageReads(f.ltype, f.size, Sub(m0), a, more);
    OccurrenceSets(d, i, 2, st, Delimited(a), more);
    SetTwice(d, i, st, va, vb);
    SubmessageReads(f.ltype, f.size, Sub(m0), b, tail);
    OccurrenceSets(d, i, 2, Set(d, i, st, va), Delimited(b), tail);
  }
}
