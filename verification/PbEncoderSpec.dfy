/** What nanopb writes for a message (pb_encode.c), as functions on values. The
    methods of PbEncoder.dfy are proved to emit these bytes, or to count them. */
module PbEncoderSpec {
  import opened Wrappers
  import opened PbVarint
  import opened PbDescriptor

  /** `NoMessage`: the call fails without leaving a message. */
  datatype EncodeError = NoMessage | ArrayMaxSizeExceeded | BytesSizeExceeded | InvalidDataSize | StreamFull | SubmessageSizeChanged

  /** The errors a message can run into: its size never changes while it is written. */
  type RunError = e: EncodeError | e != SubmessageSizeChanged witness NoMessage

  /** The bytes written until the end or the first error. */
  datatype Run = Run(out: seq<byte>, err: Option<RunError>)

  const NOTHING := Run([], None)

  function Then(a: Run, b: Run): Run {
    if a.err.Some? then a else Run(a.out + b.out, b.err)
  }

  function Put(s: seq<byte>): Run {
    Run(s, None)
  }

  function Fail(e: RunError): Run {
    Run([], Some(e))
  }

  // ---------------------------------------------------------------- single values

  const WT_VARINT := 0
  const WT_64BIT := 1
  const WT_STRING := 2
  const WT_32BIT := 5

  function WireType(t: LType): (w: nat)
    ensures w < 8
  {
    if t.LFixed32? then WT_32BIT
    else if t.LFixed64? then WT_64BIT
    else if Packable(t) then WT_VARINT
    else WT_STRING
  }

  /** `pb_encode_tag`: the field number shifted left by three, or'ed with the wire type. */
  function Tag(wireType: nat, tag: nat): seq<byte> {
    Varint(8 * tag + wireType)
  }

  /** `pb_encode_string`; the length is cast to uint64. */
  function Delimited(s: seq<byte>): seq<byte> {
    Varint(|s| % U64) + s
  }

  /** Characters before the first NUL. */
  function StrLen(s: seq<byte>): (n: nat)
    ensures n <= |s| && (forall i | 0 <= i < n :: s[i] != 0) && (n < |s| ==> s[n] == 0)
  {
    if s == [] || s[0] == 0 then 0 else 1 + StrLen(s[1..])
  }

  function RunVal(t: LType, size: nat, v: Val): Run
    decreases t, 0
  {
    match v
    case Num(n) =>
      if t.LFixed32? then Put(Le(ToU64(n), 4))
      else if t.LFixed64? then Put(Le(ToU64(n), 8))
      else if !IntSize(size) then Fail(InvalidDataSize)
      else if t.LSvarint? then Put(if FitsSigned(n, 8) then Varint(ZigZag(n)) else [])
      else Put(Varint(ToU64(n)))
    case Blob(len, bytes) =>
      if len + SIZE_BYTES > size || len > |bytes| then Fail(BytesSizeExceeded) else Put(Delimited(bytes[..len]))
    case Text(buf) => Put(Delimited(if t.LString? then buf[..StrLen(buf)] else buf))
    case Sub(m) =>
      match t
      case LMessage(d) =>
        var r := RunMsg(d, m);
        if r.err.Some? then Run([], r.err) else Put(Delimited(r.out))
      case _ => NOTHING
  }

  /** Items one after the other, each behind `lead`. */
  function RunItems(t: LType, size: nat, items: seq<Val>, lead: seq<byte>): Run
    decreases t, 1 + |items|
  {
    if items == [] then NOTHING
    else Then(Then(Put(lead), RunVal(t, size, items[0])), RunItems(t, size, items[1..], lead))
  }

  /** `encode_array`: packed whenever the type allows it. */
  function RunArray(f: Field, items: seq<Val>, count: nat): Run
    decreases f, 0
  {
    if count == 0 then NOTHING
    else if count > |items| then Fail(ArrayMaxSizeExceeded)
    else if Packable(f.ltype) then
      var body := RunItems(f.ltype, f.size, items[..count], []);
      Then(Put(Tag(WT_STRING, f.tag)), if body.err.Some? then Fail(NoMessage) else Put(Delimited(body.out)))
    else RunItems(f.ltype, f.size, items[..count], Tag(WireType(f.ltype), f.tag))
  }

  // ---------------------------------------------------------------- presence

  /** The bytes at the front of an item in memory, as far as they are known. */
  function FrontBytes(f: Field, v: Val): seq<byte> {
    match v
    case Num(n) => Le(ToU64(n), f.size)
    case Blob(len, bytes) => Le(len, SIZE_BYTES) + bytes
    case Text(buf) => buf
    case Sub(_) => []
  }

  function Front(f: Field, items: seq<Val>): seq<byte> {
    if items == [] then [] else FrontBytes(f, items[0]) + Front(f, items[1..])
  }

  /** An array of fixed count has no count field; what is read in its place is
      the front of the data. */
  predicate FirstWordZero(f: Field, items: seq<Val>) {
    var s := Front(f, items);
    forall i | 0 <= i < |s| && i < SIZE_BYTES :: s[i] == 0
  }

  /** `pb_check_proto3_default_value` */
  predicate IsDefault(f: Field, s: Slot, which: seq<nat>)
    decreases f
  {
    match f.rule
    case Required => false
    case Repeated(fixed, _) => s.Many? && (if fixed then FirstWordZero(f, s.items) else s.count == 0)
    case Oneof(g) => g < |which| && which[g] == 0
    case Optional(true) => s.Opt? && !s.has
    case Optional(false) =>
      s.One? &&
      match s.v
      case Num(n) => f.size == 0 || n == 0
      case Blob(len, _) => len == 0
      case Text(buf) => if f.ltype.LString? then StrLen(buf) == 0 else f.size == 0
      case Sub(m) =>
        match f.ltype
        case LMessage(d) =>
          |m.slots| == |d.fields| && forall i | 0 <= i < |d.fields| :: IsDefault(d.fields[i], m.slots[i], m.which)
        case _ => true
  }

  function Tagged(f: Field, v: Val): Run
    decreases f, 0
  {
    Then(Put(Tag(WireType(f.ltype), f.tag)), RunVal(f.ltype, f.size, v))
  }

  /** `encode_basic_field` */
  function RunSlot(f: Field, s: Slot, which: seq<nat>): Run
    decreases f, 1
  {
    match f.rule
    case Required => if s.One? then Tagged(f, s.v) else NOTHING
    case Optional(true) => if s.Opt? && s.has then Tagged(f, s.v) else NOTHING
    case Optional(false) => if s.One? && !IsDefault(f, s, which) then Tagged(f, s.v) else NOTHING
    case Repeated(fixed, max) => if s.Many? then RunArray(f, s.items, if fixed then max else s.count) else NOTHING
    case Oneof(g) => if s.One? && g < |which| && which[g] == f.tag then Tagged(f, s.v) else NOTHING
  }

  function RunFields(d: Desc, m: Message, i: nat): Run
    requires i <= |d.fields| && |m.slots| == |d.fields|
    decreases d, |d.fields| - i
  {
    if i == |d.fields| then NOTHING
    else Then(RunSlot(d.fields[i], m.slots[i], m.which), RunFields(d, m, i + 1))
  }

  /** `pb_encode` */
  function RunMsg(d: Desc, m: Message): Run
    decreases d, 1 + |d.fields|
  {
    if |m.slots| == |d.fields| then RunFields(d, m, 0) else NOTHING
  }
}
