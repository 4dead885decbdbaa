/** What nanopb makes of encoded bytes (pb_decode.c), as functions on values.
    Failure carries no reason. */
module PbDecoderSpec {
  import opened Wrappers
  import opened PbVarint
  import opened PbDescriptor
  import opened PbEncoderSpec
  import opened PbIterator

  const MAX_REQUIRED := 64

  // ---------------------------------------------------------------- numbers

  function ReadBytes(s: seq<byte>, n: nat): (r: Option<(seq<byte>, seq<byte>)>)
    ensures r.Some? ==> |r.value.0| == n && r.value.0 + r.value.1 == s
  {
    if |s| < n then None else Some((s[..n], s[n..]))
  }

  function ToI32(u: nat): int {
    if u >= U32 / 2 then u - U32 else u
  }

  /** `pb_dec_varint`: fields up to 32 bits go through int32 first. */
  function CastSigned(u: nat, size: nat): Option<int> {
    if size == 8 then Some(ToI64(u))
    else if IntSize(size) && FitsSigned(ToI32(u % U32), size) then Some(ToI32(u % U32))
    else None
  }

  /** The value of an integer field, from the varint read. */
  function CastNum(t: LType, size: nat, u: nat): Option<int>
    requires u < U64
  {
    if t.LVarint? then CastSigned(u, size)
    else if !IntSize(size) then None
    else if t.LUvarint? then (if u < Bits(size) then Some(u) else None)
    else if FitsSigned(UnZigZag(u), size) then Some(UnZigZag(u))
    else None
  }

  function ReadFixed(s: seq<byte>, n: nat): (r: Option<(Val, seq<byte>)>)
    ensures r.Some? && n > 0 ==> |r.value.1| < |s|
  {
    match ReadBytes(s, n)
    case None => None
    case Some((b, rest)) => Some((Num(ReadLe(b)), rest))
  }

  /** One item of a packable type. */
  function DecNum(t: LType, size: nat, s: seq<byte>): (r: Option<(Val, seq<byte>)>)
    ensures r.Some? ==> |r.value.1| < |s|
  {
    if t.LFixed32? then ReadFixed(s, 4)
    else if t.LFixed64? then ReadFixed(s, 8)
    else
      match ReadVarint(s)
      case None => None
      case Some((u, rest)) =>
        match CastNum(t, size, u)
        case None => None
        case Some(n) => Some((Num(n), rest))
  }

  /** A length and that many bytes. */
  function ReadDelimited(s: seq<byte>): (r: Option<(seq<byte>, seq<byte>)>)
    ensures r.Some? ==> |r.value.0| + |r.value.1| < |s|
  {
    match ReadVarint32(s)
    case None => None
    case Some((n, rest)) => ReadBytes(rest, n)
  }

  /** `s` at the front of the old contents of a buffer. */
  function Overlay(s: seq<byte>, was: seq<byte>): (r: seq<byte>)
    ensures |s| <= |was| ==> |r| == |was|
    ensures s <= r
  {
    if |s| <= |was| then s + was[|s|..] else s
  }

  function DecText(t: LType, size: nat, v: Val, s: seq<byte>): (r: Option<(Val, seq<byte>)>)
    ensures r.Some? ==> |r.value.1| < |s|
  {
    match ReadDelimited(s)
    case None =>
      None
    case Some((b, rest)) =>
      match t
      case LBytes =>
        if |b| + SIZE_BYTES > size || !v.Blob? then None else Some((Blob(|b|, Overlay(b, v.bytes)), rest))
      case LString =>
        if |b| + 1 > size || !v.Text? then None else Some((Text(Overlay(b + [0], v.buf)), rest))
      case _ =>
        if |b| == 0 then Some((Text(Zeros(size)), rest))
        else if |b| != size then None
        else Some((Text(b), rest))
  }

  // ---------------------------------------------------------------- the state of the loop

  /** `seen`: ordinals of required fields met; `fixedField`: the array of fixed
      count being filled, `fixedCount` items of it so far. */
  datatype State = State(m: Message, seen: set<nat>, fixedField: Option<nat>, fixedCount: nat)

  function Start(m: Message): State {
    State(m, {}, None, 0)
  }

  /** The array of fixed count in progress is full. */
  predicate FixedFull(d: Desc, st: State) {
    st.fixedField.Some? ==>
      st.fixedField.value < |d.fields| && d.fields[st.fixedField.value].rule.Repeated?
      && st.fixedCount == d.fields[st.fixedField.value].rule.max
  }

  predicate IsFixed(f: Field) {
    f.rule.Repeated? && f.rule.fixed
  }

  /** Bookkeeping before a field is decoded. */
  function Prepare(d: Desc, i: nat, st: State): Option<State>
    requires i < |d.fields|
  {
    var f := d.fields[i];
    if IsFixed(f) && st.fixedField != Some(i) then
      if FixedFull(d, st) then Some(st.(fixedField := Some(i), fixedCount := 0)) else None
    else if f.rule.Required? && ReqIndex(d.fields, i) < MAX_REQUIRED then Some(st.(seen := st.seen + {ReqIndex(d.fields, i)}))
    else Some(st)
  }

  predicate Finished(d: Desc, st: State) {
    && FixedFull(d, st)
    && forall k | 0 <= k < ReqIndex(d.fields, |d.fields|) && k < MAX_REQUIRED :: k in st.seen
  }

  /** `pb_skip_field` */
  function Skip(wireType: nat, s: seq<byte>): (r: Option<seq<byte>>)
    ensures r.Some? ==> |r.value| <= |s|
  {
    if wireType == WT_VARINT then SkipVarint(s)
    else if wireType == WT_64BIT then (match ReadBytes(s, 8) case None => None case Some((_, rest)) => Some(rest))
    else if wireType == WT_STRING then (match ReadDelimited(s) case None => None case Some((_, rest)) => Some(rest))
    else if wireType == WT_32BIT then (match ReadBytes(s, 4) case None => None case Some((_, rest)) => Some(rest))
    else None
  }

  // ---------------------------------------------------------------- decoding

  /** The slot and, for arrays, the number of items, after one field. */
  datatype Got = Got(slot: Slot, count: nat, rest: seq<byte>)

  function DecPacked(t: LType, size: nat, items: seq<Val>, count: nat, s: seq<byte>): Option<(seq<Val>, nat)>
    decreases |s|
  {
    if s == [] then Some((items, count))
    else if count >= |items| then None
    else
      match DecNum(t, size, s)
      case None => None
      case Some((v, rest)) => DecPacked(t, size, items[count := v], count + 1, rest)
  }

  function DecVal(t: LType, size: nat, renew: bool, v: Val, s: seq<byte>): (r: Option<(Val, seq<byte>)>)
    ensures r.Some? ==> |r.value.1| < |s|
    decreases |s|, 0
  {
    match t
    case LMessage(d) =>
      (match ReadDelimited(s)
       case None => None
       case Some((sub, rest)) =>
         if !v.Sub? then None
         else
           match DecMsg(d, sub, if renew then SetDefaults(d, v.m) else v.m)
           case None => None
           case Some((m, _)) => Some((Sub(m), rest)))
    case _ => if Packable(t) then DecNum(t, size, s) else DecText(t, size, v, s)
  }

  /** What a single field is decoded into: a submessage in a union is cleared
      and set to its defaults first. */
  function Target(f: Field, v: Val): Val {
    if f.rule.Oneof? && f.ltype.LMessage? then Sub(SetDefaults(f.ltype.desc, ZeroMsg(f.ltype.desc))) else v
  }

  /** `decode_static_field`; `count` is the number of items there already. */
  function DecSlot(f: Field, slot: Slot, count: nat, wireType: nat, s: seq<byte>): (r: Option<Got>)
    ensures r.Some? ==> |r.value.rest| < |s|
    decreases |s|, 1
  {
    match f.rule
    case Repeated(_, _) =>
      if !slot.Many? then None
      else if wireType == WT_STRING && Packable(f.ltype) then
        match ReadDelimited(s)
        case None => None
        case Some((sub, rest)) =>
          match DecPacked(f.ltype, f.size, slot.items, count, sub)
          case None => None
          case Some((items, n)) => Some(Got(Many(slot.count, items), n, rest))
      else if count >= |slot.items| then None
      else (
        match DecVal(f.ltype, f.size, true, slot.items[count], s)
        case None => None
        case Some((v, rest)) => Some(Got(Many(slot.count, slot.items[count := v]), count + 1, rest)))
    case Optional(true) =>
      if !slot.Opt? then None
      else (
        match DecVal(f.ltype, f.size, false, slot.v, s)
        case None => None
        case Some((v, rest)) => Some(Got(Opt(true, v), 0, rest)))
    case _ =>
      if !slot.One? then None
      else
        match DecVal(f.ltype, f.size, false, Target(f, slot.v), s)
        case None => None
        case Some((v, rest)) => Some(Got(One(v), 0, rest))
  }

  /** The state with field i decoded to `got`. */
  function Store(d: Desc, i: nat, st: State, got: Got): State
    requires i < |d.fields| && i < |st.m.slots|
  {
    match d.fields[i].rule
    case Repeated(fixed, _) =>
      if fixed then st.(m := st.m.(slots := st.m.slots[i := got.slot]), fixedCount := got.count)
      else if got.slot.Many? then st.(m := st.m.(slots := st.m.slots[i := got.slot.(count := got.count)]))
      else st
    case Oneof(g) =>
      st.(m := Message(st.m.slots[i := got.slot], if g < |st.m.which| then st.m.which[g := d.fields[i].tag] else st.m.which))
    case _ => st.(m := st.m.(slots := st.m.slots[i := got.slot]))
  }

  function CountOf(f: Field, slot: Slot, st: State): nat {
    if IsFixed(f) then st.fixedCount else if slot.Many? then slot.count else 0
  }

  /** One known field, after its key. */
  function DecField(d: Desc, i: nat, wireType: nat, s: seq<byte>, st: State): (r: Option<(State, seq<byte>)>)
    requires i < |d.fields|
    ensures r.Some? ==> |r.value.1| < |s|
    decreases |s|, 2
  {
    if i >= |st.m.slots| then None
    else
      match Prepare(d, i, st)
      case None => None
      case Some(st') =>
        var slot := st.m.slots[i];
        match DecSlot(d.fields[i], slot, CountOf(d.fields[i], slot, st'), wireType, s)
        case None => None
        case Some(got) => Some((Store(d, i, st', got), got.rest))
  }

  /** One field, known or not, after its key. */
  function DecStep(d: Desc, key: nat, s: seq<byte>, st: State): (r: Option<(State, seq<byte>)>)
    ensures r.Some? ==> |r.value.1| <= |s|
    decreases |s|, 3
  {
    match FindTag(d.fields, key / 8)
    case Some(i) => DecField(d, i, key % 8, s, st)
    case None =>
      // In an empty descriptor tag 0 finds the terminator, whose size is invalid.
      if d.fields == [] && key / 8 == 0 then None
      else match Skip(key % 8, s) case None => None case Some(rest) => Some((st, rest))
  }

  /** The loop of `pb_decode_noinit`. A zero key ends the message early. */
  function DecLoop(d: Desc, s: seq<byte>, st: State): (r: Option<(State, seq<byte>)>)
    decreases |s|, 4
  {
    if s == [] then Some((st, []))
    else
      match ReadVarint32(s)
      case None => None
      case Some((key, rest)) =>
        if key == 0 then Some((st, rest))
        else
          match DecStep(d, key, rest, st)
          case None => None
          case Some((st', rest')) => DecLoop(d, rest', st')
  }

  /** `pb_decode_noinit`: the message and what was not read. */
  function DecMsg(d: Desc, s: seq<byte>, m: Message): Option<(Message, seq<byte>)>
    decreases |s|, 5
  {
    match DecLoop(d, s, Start(m))
    case None => None
    case Some((st, rest)) => if Finished(d, st) then Some((st.m, rest)) else None
  }

  /** `pb_decode` */
  function Decode(d: Desc, s: seq<byte>, m: Message): Option<(Message, seq<byte>)> {
    DecMsg(d, s, SetDefaults(d, m))
  }
}
