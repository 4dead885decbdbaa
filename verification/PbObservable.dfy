/** What of a message can be observed: not the data of absent optional fields,
    array items past the count, bytes past the length or the terminator, nor
    the members of a union that are not chosen. And what the encoder leaves
    out: values that decoding puts back as defaults. */
module PbObservable {
  import opened Wrappers
  import opened PbVarint
  import opened PbDescriptor
  import opened PbEncoderSpec
  import opened PbDecoderSpec

  // ---------------------------------------------------------------- what can be observed

  ghost predicate ObsVal(t: LType, v: Val, w: Val)
    decreases t, 0
  {
    match t
    case LBytes =>
      && v.Blob? && w.Blob? && v.len == w.len && v.len <= |v.bytes| && w.len <= |w.bytes|
      && v.bytes[..v.len] == w.bytes[..w.len]
    case LString => v.Text? && w.Text? && v.buf[..StrLen(v.buf)] == w.buf[..StrLen(w.buf)]
    case LMessage(d) => v.Sub? && w.Sub? && ObsMsg(d, v.m, w.m)
    case _ => v == w
  }

  ghost predicate ObsItems(t: LType, vs: seq<Val>, ws: seq<Val>, n: nat)
    decreases t, 1
  {
    n <= |vs| && n <= |ws| && forall k | 0 <= k < n :: ObsVal(t, vs[k], ws[k])
  }

  ghost predicate ObsSlot(f: Field, which: seq<nat>, a: Slot, b: Slot)
    decreases f
  {
    match f.rule
    case Optional(true) => a.Opt? && b.Opt? && a.has == b.has && (a.has ==> ObsVal(f.ltype, a.v, b.v))
    case Repeated(fixed, max) =>
      a.Many? && b.Many? && (fixed || a.count == b.count) && ObsItems(f.ltype, a.items, b.items, if fixed then max else a.count)
    case Oneof(g) => a.One? && b.One? && (g < |which| && which[g] == f.tag ==> ObsVal(f.ltype, a.v, b.v))
    case _ => a.One? && b.One? && ObsVal(f.ltype, a.v, b.v)
  }

  ghost predicate ObsMsg(d: Desc, a: Message, b: Message)
    decreases d
  {
    && |a.slots| == |d.fields| == |b.slots| && a.which == b.which
    && forall i | 0 <= i < |d.fields| :: ObsSlot(d.fields[i], a.which, a.slots[i], b.slots[i])
  }

  // ---------------------------------------------------------------- which messages come back

  /** What is observable is well formed: strings are terminated, and unions
      name one of their members or none. */
  ghost predicate GoodVal(t: LType, v: Val)
    decreases t
  {
    match t
    case LString => v.Text? && StrLen(v.buf) < |v.buf|
    case LMessage(d) => v.Sub? && GoodMsg(d, v.m)
    case _ => true
  }

  ghost predicate GoodSlot(f: Field, which: seq<nat>, s: Slot)
    decreases f
  {
    match s
    case One(v) => (f.rule.Oneof? ==> f.rule.group < |which| && which[f.rule.group] == f.tag) ==> GoodVal(f.ltype, v)
    case Opt(has, v) => has ==> GoodVal(f.ltype, v)
    case Many(count, items) =>
      forall k | 0 <= k < |items| && (IsFixed(f) || k < count) :: GoodVal(f.ltype, items[k])
  }

  predicate Chosen(f: Field, g: nat, tag: nat) {
    f.rule == Oneof(g) && f.tag == tag
  }

  ghost predicate GoodMsg(d: Desc, m: Message)
    decreases d
  {
    && |m.slots| == |d.fields|
    && (forall i | 0 <= i < |d.fields| :: GoodSlot(d.fields[i], m.which, m.slots[i]))
    && forall g | 0 <= g < |m.which| && m.which[g] != 0 :: exists i :: 0 <= i < |d.fields| && Chosen(d.fields[i], g, m.which[g])
  }

  /** No array of fixed count is looked at by the check for proto3 defaults. */
  ghost predicate NoFixedInside(d: Desc)
    decreases d
  {
    forall i | 0 <= i < |d.fields| ::
      && !IsFixed(d.fields[i])
      && (d.fields[i].rule == Optional(false) && d.fields[i].ltype.LMessage? ==> NoFixedInside(d.fields[i].ltype.desc))
  }

  /** Singular fields have no explicit default, and singular submessages no
      array of fixed count; at any depth. */
  ghost predicate PlainDesc(d: Desc)
    decreases d
  {
    forall i | 0 <= i < |d.fields| :: PlainField(d.fields[i])
  }

  ghost predicate PlainField(f: Field)
    decreases f
  {
    && (f.rule == Optional(false) ==> f.init == None && (f.ltype.LMessage? ==> NoFixedInside(f.ltype.desc)))
    && (f.ltype.LMessage? ==> PlainDesc(f.ltype.desc))
  }

  // ---------------------------------------------------------------- default messages

  ghost predicate FreshVal(f: Field, v: Val)
    decreases f, 0
  {
    match f.ltype
    case LMessage(d) => v.Sub? && Fresh(d, v.m)
    case _ => v == if f.init.Some? then f.init.value else ZeroVal(f.ltype, f.size)
  }

  ghost predicate FreshSlot(f: Field, s: Slot)
    decreases f, 1
  {
    match f.rule
    case Optional(true) => s.Opt? && !s.has && FreshVal(f, s.v)
    case Repeated(_, _) => s.Many? && s.count == 0
    case Oneof(_) => s.One?
    case _ => s.One? && FreshVal(f, s.v)
  }

  ghost predicate Fresh(d: Desc, m: Message)
    decreases d
  {
    && |m.slots| == |d.fields| && (forall g | 0 <= g < |m.which| :: m.which[g] == 0)
    && forall i | 0 <= i < |d.fields| :: FreshSlot(d.fields[i], m.slots[i])
  }

  lemma {:induction false} ZeroOk(d: Desc)
    requires DescOk(d)
    ensures MsgOk(d, ZeroMsg(d))
    decreases d
  {
    forall i | 0 <= i < |d.fields| ensures SlotOk(d.fields[i], ZeroMsg(d).slots[i]) {
      ZeroValOk(d.fields[i]);
    }
  }

  lemma {:induction false} ZeroValOk(f: Field)
    requires FieldOk(f)
    ensures ValOk(f.ltype, f.size, ZeroVal(f.ltype, f.size))
    decreases f
  {
    if f.ltype.LMessage? {
      ZeroOk(f.ltype.desc);
    }
  }

  predicate WholeItems(size: nat, k: nat) {
    size in {1, 2, 4} ==> k % size == 0
  }

  lemma {:induction false} ClearFrontOk(t: LType, size: nat, items: seq<Val>, k: nat)
    requires SizeOk(t, size) && k <= SIZE_BYTES && WholeItems(size, k) && forall v | v in items :: ValOk(t, size, v)
    ensures forall v | v in ClearFront(items, size, k) :: ValOk(t, size, v)
    decreases |items|
  {
    if items != [] && k != 0 {
      assert items[0] in items && ValOk(t, size, ClearVal(items[0], size, k)) by { ClearValOk(t, size, items[0], k); }
      ClearFrontOk(t, size, items[1..], if k > size then k - size else 0);
    }
  }

  lemma ClearValOk(t: LType, size: nat, v: Val, k: nat)
    requires SizeOk(t, size) && 0 < k <= SIZE_BYTES && WholeItems(size, k) && ValOk(t, size, v)
    ensures ValOk(t, size, ClearVal(v, size, k))
  {
    if v.Num? && size == 8 {
      LowWordCleared(v.n);
    }
  }

  lemma LowWordCleared(n: int)
    requires -(U64 / 2) as int <= n < U64
    ensures -(U64 / 2) as int <= n - n % U32 <= n && (n >= 0 ==> n - n % U32 >= 0)
  {
    assert n == n / U32 * U32 + n % U32;
    assert n / U32 >= -(U32 / 2) as int;
  }

  lemma {:induction false} DefaultsAreFresh(d: Desc, m: Message)
    requires DescOk(d) && MsgOk(d, m)
    ensures MsgOk(d, SetDefaults(d, m)) && Fresh(d, SetDefaults(d, m))
    decreases d
  {
    var r := SetDefaults(d, m);
    forall i | 0 <= i < |d.fields| ensures SlotOk(d.fields[i], r.slots[i]) && FreshSlot(d.fields[i], r.slots[i]) {
      var f, s := d.fields[i], m.slots[i];
      match f.rule
      case Repeated(_, _) => ClearFrontOk(f.ltype, f.size, s.items, SIZE_BYTES);
      case Oneof(_) =>
      case _ => DefaultValIsFresh(f, s.v);
    }
  }

  lemma {:induction false} DefaultValIsFresh(f: Field, v: Val)
    requires FieldOk(f) && ValOk(f.ltype, f.size, v)
    ensures ValOk(f.ltype, f.size, DefaultVal(f, v)) && FreshVal(f, DefaultVal(f, v))
    decreases f
  {
    if f.ltype.LMessage? {
      DefaultsAreFresh(f.ltype.desc, v.m);
    } else {
      ZeroValOk(f);
    }
  }

  // ---------------------------------------------------------------- a default left out comes back as a default

  lemma {:induction false} DefaultObs(f: Field, which: seq<nat>, s: Slot, s0: Slot)
    requires FieldOk(f) && SlotOk(f, s) && SlotOk(f, s0) && FreshSlot(f, s0) && PlainField(f) && !IsFixed(f)
    requires f.ltype.LMessage? && f.rule == Optional(false) ==> NoFixedInside(f.ltype.desc)
    requires IsDefault(f, s, which) && GoodSlot(f, which, s)
    requires f.rule.Oneof? ==> f.rule.group < |which| && which[f.rule.group] == 0
    ensures ObsSlot(f, which, s, s0)
    decreases f
  {
    if f.rule == Optional(false) {
      match f.ltype
      case LMessage(d) =>
        var m, m0 := s.v.m, s0.v.m;
        assert MsgOk(d, m) && MsgOk(d, m0) && Fresh(d, m0) && GoodMsg(d, m);
        forall i | 0 <= i < |d.fields| ensures ObsSlot(d.fields[i], m.which, m.slots[i], m0.slots[i]) {
          DefaultObs(d.fields[i], m.which, m.slots[i], m0.slots[i]);
        }
        DefaultWhich(d, m, m0);
      case LString => assert StrLen(Zeros(f.size)) == 0;
      case _ =>
    }
  }

  lemma DefaultWhich(d: Desc, m: Message, m0: Message)
    requires MsgOk(d, m) && MsgOk(d, m0) && Fresh(d, m0) && GoodMsg(d, m)
    requires forall i | 0 <= i < |d.fields| :: IsDefault(d.fields[i], m.slots[i], m.which)
    ensures m.which == m0.which
  {
  }
}
