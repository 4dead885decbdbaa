/** Arrays of numbers on the wire: packed in one field, one key an item, or any
    mix of both (Protocol Buffers encoding, "Packed Repeated Fields"). A decoder
    must take all of them alike (pb_decode.c, `decode_static_field`). */
module PbArrays {
  import opened Wrappers
  import opened PbVarint
  import opened PbDescriptor
  import opened PbEncoderSpec
  import opened PbDecoderSpec
  import opened PbIterator
  import opened PbMerge
  import opened PbRoundTrip

  // ---------------------------------------------------------------- what appending means

  /** `items` with `vs` in the place of those from position c on. */
  function Spliced(items: seq<Val>, c: nat, vs: seq<Val>): seq<Val>
    requires c + |vs| <= |items|
  {
    items[..c] + vs + items[c + |vs|..]
  }

  /** Field i is an array of numbers, and the message has room for `max` items. */
  ghost predicate ArrayAt(d: Desc, i: nat, st: State) {
    && DescOk(d) && i < |d.fields| == |st.m.slots|
    && d.fields[i].rule.Repeated? && Packable(d.fields[i].ltype)
    && st.m.slots[i].Many? && |st.m.slots[i].items| == d.fields[i].rule.max
  }

  /** The items go behind those that are there, if there is room for all; an
      array of fixed count can begin only when the one before it is full. */
  function Appended(d: Desc, i: nat, st: State, vs: seq<Val>): Option<State>
    requires i < |d.fields| == |st.m.slots| && d.fields[i].rule.Repeated? && st.m.slots[i].Many?
  {
    var slot := st.m.slots[i];
    if !d.fields[i].rule.fixed then
      if slot.count + |vs| > |slot.items| then None
      else Some(st.(m := st.m.(slots := st.m.slots[i := Many(slot.count + |vs|, Spliced(slot.items, slot.count, vs))])))
    else if st.fixedField == Some(i) then
      if st.fixedCount + |vs| > |slot.items| then None
      else Some(State(st.m.(slots := st.m.slots[i := Many(slot.count, Spliced(slot.items, st.fixedCount, vs))]), st.seen, Some(i), st.fixedCount + |vs|))
    else if !FixedFull(d, st) || |vs| > |slot.items| then None
    else Some(State(st.m.(slots := st.m.slots[i := Many(slot.count, Spliced(slot.items, 0, vs))]), st.seen, Some(i), |vs|))
  }

  lemma AppendedTwice(d: Desc, i: nat, st: State, vs: seq<Val>, ws: seq<Val>)
    requires ArrayAt(d, i, st) && vs != []
    ensures Appended(d, i, st, vs).Some? ==> ArrayAt(d, i, Appended(d, i, st, vs).value)
    ensures Appended(d, i, st, vs + ws) ==
              match Appended(d, i, st, vs) case None => None case Some(st') => Appended(d, i, st', ws)
  {
    hide Spliced, DescOk;
    var slot := st.m.slots[i];
    var c := if !d.fields[i].rule.fixed then slot.count else if st.fixedField == Some(i) then st.fixedCount else 0;
    if c + |vs| <= |slot.items| {
      SplicedTwice(slot.items, c, vs, ws);
      if c + |vs| + |ws| <= |slot.items| {
        var n := c + |vs|;
        var once, twice := Spliced(slot.items, c, vs), Spliced(slot.items, c, vs + ws);
        var k := if d.fields[i].rule.fixed then slot.count else n;
        var l := if d.fields[i].rule.fixed then slot.count else n + |ws|;
        assert st.m.slots[i := Many(k, once)][i := Many(l, twice)] == st.m.slots[i := Many(l, twice)];
      }
    }
  }

  lemma SplicedTwice(items: seq<Val>, c: nat, vs: seq<Val>, ws: seq<Val>)
    requires c + |vs| <= |items|
    ensures |Spliced(items, c, vs)| == |items|
    ensures c + |vs| + |ws| <= |items| ==> Spliced(Spliced(items, c, vs), c + |vs|, ws) == Spliced(items, c, vs + ws)
  {
  }

  // ---------------------------------------------------------------- the two forms

  /** Every item is one that can be encoded. */
  ghost predicate ItemsOk(f: Field, vs: seq<Val>) {
    forall v | v in vs :: ValOk(f.ltype, f.size, v) && RunVal(f.ltype, f.size, v).err == None
  }

  /** The wire type of a number: 0 for varints, 1 for eight bytes, 5 for four. */
  function NumberType(t: LType): nat {
    if t.LFixed64? then 1 else if t.LFixed32? then 5 else 0
  }

  /** The items one after the other, each behind `lead`. */
  function Listed(f: Field, vs: seq<Val>, lead: seq<byte>): seq<byte> {
    if vs == [] then [] else lead + RunVal(f.ltype, f.size, vs[0]).out + Listed(f, vs[1..], lead)
  }

  function PackedForm(f: Field, vs: seq<Val>): seq<byte> {
    Varint(8 * f.tag + 2) + Varint(|Listed(f, vs, [])|) + Listed(f, vs, [])
  }

  function KeyedForm(f: Field, vs: seq<Val>): seq<byte> {
    Listed(f, vs, Varint(8 * f.tag + NumberType(f.ltype)))
  }

  /** Reading packed items stores them in order, or fails if they are too many. */
  lemma {:induction false} PackedAppends(f: Field, items: seq<Val>, c: nat, vs: seq<Val>)
    requires FieldOk(f) && Packable(f.ltype) && ItemsOk(f, vs) && vs != []
    ensures DecPacked(f.ltype, f.size, items, c, Listed(f, vs, [])) ==
              if c + |vs| <= |items| then Some((Spliced(items, c, vs), c + |vs|)) else None
    decreases |vs|
  {
    hide RunVal, DecNum, ValOk;
    var v, rest := vs[0], vs[1..];
    assert v in vs && forall w | w in rest :: w in vs;
    var out := RunVal(f.ltype, f.size, v).out;
    NumRoundTrip(f.ltype, f.size, v, Listed(f, rest, []));
    assert Listed(f, vs, []) == out + Listed(f, rest, []) by {
      assert [] + out == out;
    }
    if c < |items| {
      if rest == [] {
        assert Spliced(items, c, vs) == items[c := v];
      } else {
        PackedAppends(f, items[c := v], c + 1, rest);
        assert c + |vs| <= |items| ==> Spliced(items[c := v], c + 1, rest) == Spliced(items, c, vs);
      }
    }
  }

  /** After the key of a packed field. */
  lemma PackedFieldAppends(d: Desc, i: nat, st: State, vs: seq<Val>, tail: seq<byte>)
    requires ArrayAt(d, i, st) && ItemsOk(d.fields[i], vs) && vs != [] && |Listed(d.fields[i], vs, [])| < U32
    ensures var body := Listed(d.fields[i], vs, []);
            DecField(d, i, WT_STRING, Varint(|body|) + body + tail, st) ==
              match Appended(d, i, st, vs) case None => None case Some(st') => Some((st', tail))
  {
    hide ReadDelimited, Listed, DecPacked, ValOk, DescOk, Spliced, Varint;
    var f, slot := d.fields[i], st.m.slots[i];
    assert FieldOk(f) by { FieldsOk(d, i); }
    var body := Listed(f, vs, []);
    assert Varint(|body|) + body + tail == Delimited(body) + tail;
    ReadDelimitedOf(body, tail);
    if Prepare(d, i, st).Some? {
      PackedAppends(f, slot.items, CountOf(f, slot, Prepare(d, i, st).value), vs);
    }
  }

  lemma FieldsOk(d: Desc, i: nat)
    requires DescOk(d) && i < |d.fields|
    ensures FieldOk(d.fields[i])
  {
  }

  lemma PackedFormAppends(d: Desc, i: nat, st: State, vs: seq<Val>, tail: seq<byte>)
    requires ArrayAt(d, i, st) && ItemsOk(d.fields[i], vs) && vs != [] && |Listed(d.fields[i], vs, [])| < U32
    ensures DecLoop(d, PackedForm(d.fields[i], vs) + tail, st) ==
              match Appended(d, i, st, vs) case None => None case Some(st') => DecLoop(d, tail, st')
  {
    hide DecLoop, DecField, Appended, Listed, Varint, DescOk;
    var f := d.fields[i];
    var body := Listed(f, vs, []);
    PackedFieldAppends(d, i, st, vs, tail);
    KeyStep(d, i, 2, Varint(|body|) + body + tail, st);
    assert PackedForm(f, vs) + tail == Varint(8 * f.tag + 2) + (Varint(|body|) + body + tail);
  }

  /** After the key of one item. */
  lemma OneItemAppends(d: Desc, i: nat, st: State, v: Val, tail: seq<byte>)
    requires ArrayAt(d, i, st) && ItemsOk(d.fields[i], [v])
    ensures var f := d.fields[i];
            DecField(d, i, NumberType(f.ltype), RunVal(f.ltype, f.size, v).out + tail, st) ==
              match Appended(d, i, st, [v]) case None => None case Some(st') => Some((st', tail))
  {
    hide RunVal, DecNum, ValOk, DescOk;
    var f, slot := d.fields[i], st.m.slots[i];
    assert FieldOk(f) by { FieldsOk(d, i); }
    assert v in [v];
    NumRoundTrip(f.ltype, f.size, v, tail);
    var bytes := RunVal(f.ltype, f.size, v).out + tail;
    assert DecVal(f.ltype, f.size, true, v, bytes) == Some((v, tail));
    if Prepare(d, i, st).Some? {
      var st' := Prepare(d, i, st).value;
      var c := CountOf(f, slot, st');
      if c < |slot.items| {
        assert DecVal(f.ltype, f.size, true, slot.items[c], bytes) == Some((v, tail));
        assert Spliced(slot.items, c, [v]) == slot.items[c := v];
        assert DecSlot(f, slot, c, NumberType(f.ltype), bytes) == Some(Got(Many(slot.count, slot.items[c := v]), c + 1, tail));
      } else {
        assert DecSlot(f, slot, c, NumberType(f.ltype), bytes) == None;
      }
    }
  }

  /** The items of an array of numbers, one key each. */
  lemma {:induction false} KeyedFormAppends(d: Desc, i: nat, st: State, vs: seq<Val>, tail: seq<byte>)
    requires ArrayAt(d, i, st) && ItemsOk(d.fields[i], vs) && vs != []
    ensures DecLoop(d, KeyedForm(d.fields[i], vs) + tail, st) ==
              match Appended(d, i, st, vs) case None => None case Some(st') => DecLoop(d, tail, st')
    decreases |vs|
  {
    hide DecLoop, DecField, Appended, Varint, RunVal, ValOk, DescOk;
    var f, v, rest := d.fields[i], vs[0], vs[1..];
    assert v in vs && forall w | w in rest :: w in vs;
    var out, after := RunVal(f.ltype, f.size, v).out, KeyedForm(f, rest) + tail;
    OneItemAppends(d, i, st, v, after);
    KeyStep(d, i, NumberType(f.ltype), out + after, st);
    assert KeyedForm(f, vs) + tail == Varint(8 * f.tag + NumberType(f.ltype)) + (out + after);
    assert vs == [v] + rest;
    AppendedTwice(d, i, st, [v], rest);
    if rest == [] {
      assert after == tail && vs == [v];
    } else if Appended(d, i, st, [v]).Some? {
      KeyedFormAppends(d, i, Appended(d, i, st, [v]).value, rest, tail);
    }
  }

  /** One key an item or packed: the same items, the same count, and the same
      error if there are too many. */
  lemma PackedAndKeyedAgree(d: Desc, i: nat, st: State, vs: seq<Val>, tail: seq<byte>)
    requires ArrayAt(d, i, st) && ItemsOk(d.fields[i], vs) && vs != [] && |Listed(d.fields[i], vs, [])| < U32
    ensures DecLoop(d, KeyedForm(d.fields[i], vs) + tail, st) == DecLoop(d, PackedForm(d.fields[i], vs) + tail, st)
  {
    hide DecLoop, Appended, KeyedForm, PackedForm, Listed;
    KeyedFormAppends(d, i, st, vs, tail);
    PackedFormAppends(d, i, st, vs, tail);
  }

  // ---------------------------------------------------------------- mixtures

  datatype Part = Part(packed: bool, vs: seq<Val>)

  function PartsBytes(f: Field, parts: seq<Part>): seq<byte> {
    if parts == [] then []
    else (if parts[0].packed then PackedForm(f, parts[0].vs) else KeyedForm(f, parts[0].vs)) + PartsBytes(f, parts[1..])
  }

  function PartsItems(parts: seq<Part>): seq<Val> {
    if parts == [] then [] else parts[0].vs + PartsItems(parts[1..])
  }

  ghost predicate PartOk(f: Field, p: Part) {
    p.vs != [] && ItemsOk(f, p.vs) && |Listed(f, p.vs, [])| < U32
  }

  /** However an array is spread over packed and unpacked parts, its items come
      out in order, and it overflows exactly if they are too many in all. */
  lemma {:induction false} PartsAppend(d: Desc, i: nat, st: State, parts: seq<Part>, tail: seq<byte>)
    requires ArrayAt(d, i, st) && parts != [] && forall p | p in parts :: PartOk(d.fields[i], p)
    ensures DecLoop(d, PartsBytes(d.fields[i], parts) + tail, st) ==
              match Appended(d, i, st, PartsItems(parts)) case None => None case Some(st') => DecLoop(d, tail, st')
    decreases |parts|
  {
    hide DecLoop, Appended, KeyedForm, PackedForm, Listed, DescOk;
    var f, p, rest := d.fields[i], parts[0], parts[1..];
    assert p in parts && PartOk(f, p) && forall q | q in rest :: q in parts;
    var after := PartsBytes(f, rest) + tail;
    if p.packed {
      PackedFormAppends(d, i, st, p.vs, after);
      assert PartsBytes(f, parts) + tail == PackedForm(f, p.vs) + after;
    } else {
      KeyedFormAppends(d, i, st, p.vs, after);
      assert PartsBytes(f, parts) + tail == KeyedForm(f, p.vs) + after;
    }
    AppendedTwice(d, i, st, p.vs, PartsItems(rest));
    if rest == [] {
      assert after == tail && p.vs + [] == p.vs;
    } else if Appended(d, i, st, p.vs).Some? {
      PartsAppend(d, i, Appended(d, i, st, p.vs).value, rest, tail);
    }
  }

  /** An array of fixed count is accepted exactly if all of its items come. */
  lemma FixedCountExactly(d: Desc, i: nat, m: Message, parts: seq<Part>)
    requires ArrayAt(d, i, Start(m)) && d.fields[i].rule.fixed && parts != [] && forall p | p in parts :: PartOk(d.fields[i], p)
    requires ReqIndex(d.fields, |d.fields|) == 0
    ensures DecMsg(d, PartsBytes(d.fields[i], parts), m).Some? <==> |PartsItems(parts)| == d.fields[i].rule.max
  {
    hide DecLoop, PartsBytes, PartsItems, DescOk, Spliced;
    var bytes := PartsBytes(d.fields[i], parts);
    PartsAppend(d, i, Start(m), parts, []);
    assert bytes + [] == bytes;
    var r := Appended(d, i, Start(m), PartsItems(parts));
    if r.Some? {
      assert DecLoop(d, [], r.value) == Some((r.value, [])) by { EndOfInput(d, r.value); }
    }
  }

  lemma EndOfInput(d: Desc, st: State)
    ensures DecLoop(d, [], st) == Some((st, []))
  {
  }
}
