/** Message descriptors (pb.h, `pb_field_t`) and the C structures they describe,
    as values: a message is a list of slots, one for each field. */
module PbDescriptor {
  import opened Wrappers
  import opened PbVarint

  /** sizeof(pb_size_t), which is also where the data of a bytes array begins:
      the pods are built with PB_FIELD_32BIT. */
  const SIZE_BYTES := 4

  datatype LType =
    | LVarint
    | LUvarint
    | LSvarint
    | LFixed32
    | LFixed64
    | LBytes
    | LString
    | LMessage(desc: Desc)
    | LFixedBytes

  /** `Optional(false)` is a proto3 singular field; `Repeated(true, n)` an array
      of fixed count; a oneof field belongs to the union number `group`. */
  datatype Rule =
    | Required
    | Optional(hasFlag: bool)
    | Repeated(fixed: bool, max: nat)
    | Oneof(group: nat)

  /** Where the field lies: how far behind the end of the field before it, and
      where its flag or count is, relative to its data. */
  datatype Place = Place(offset: nat, sizeOffset: int)

  /** `size` is the size of one item; `init` an explicit default value. */
  datatype Field = Field(tag: nat, ltype: LType, rule: Rule, size: nat, init: Option<Val>, place: Place)

  datatype Desc = Desc(fields: seq<Field>, groups: nat)

  /** `Blob` is a pb_bytes_array_t: length and buffer. `Text` is a character
      array or an inline array of bytes. */
  datatype Val =
    | Num(n: int)
    | Blob(len: nat, bytes: seq<byte>)
    | Text(buf: seq<byte>)
    | Sub(m: Message)

  datatype Slot =
    | One(v: Val)
    | Opt(has: bool, v: Val)
    | Many(count: nat, items: seq<Val>)

  /** `which[g]` is the tag chosen in union g, or 0. */
  datatype Message = Message(slots: seq<Slot>, which: seq<nat>)

  predicate Packable(t: LType) {
    t.LVarint? || t.LUvarint? || t.LSvarint? || t.LFixed32? || t.LFixed64?
  }

  /** Sizes for which an integer type exists. */
  predicate IntSize(size: nat) {
    size == 1 || size == 2 || size == 4 || size == 8
  }

  function Bits(size: nat): nat
    requires IntSize(size)
  {
    if size == 1 then 0x100 else if size == 2 then 0x1_0000 else if size == 4 then U32 else U64
  }

  predicate FitsSigned(n: int, size: nat)
    requires IntSize(size)
  {
    -(Bits(size) / 2) as int <= n < Bits(size) / 2
  }

  // ---------------------------------------------------------------- well-formed descriptors

  /** The sizes agree with the types. Integer fields may have any size: the
      source checks those itself. */
  predicate SizeOk(t: LType, size: nat) {
    && size < U32
    && match t
       case LFixed32 => size == 4
       case LFixed64 => size == 8
       case LBytes => size >= SIZE_BYTES
       case LString => size >= 1
       case LFixedBytes => true
       case LMessage(_) => true
       case _ => size >= 1
  }

  ghost predicate DescOk(d: Desc)
    decreases d
  {
    && (forall i | 0 <= i < |d.fields| :: FieldOk(d.fields[i]) && (d.fields[i].rule.Oneof? ==> d.fields[i].rule.group < d.groups))
    && (forall i, j | 0 <= i < j < |d.fields| :: d.fields[i].tag != d.fields[j].tag)
  }

  ghost predicate FieldOk(f: Field)
    decreases f
  {
    && 1 <= f.tag < 0x2000_0000
    && SizeOk(f.ltype, f.size)
    && (f.ltype.LMessage? ==> DescOk(f.ltype.desc))
    && (f.init.Some? ==> !f.ltype.LMessage? && ValOk(f.ltype, f.size, f.init.value))
    && (f.rule.Repeated? ==> f.rule.max < U32)
  }

  // ---------------------------------------------------------------- well-typed messages

  ghost predicate ValOk(t: LType, size: nat, v: Val)
    decreases t
  {
    match t
    case LVarint => v.Num? && (IntSize(size) ==> FitsSigned(v.n, size))
    case LSvarint => v.Num? && (IntSize(size) ==> FitsSigned(v.n, size))
    case LUvarint => v.Num? && v.n >= 0 && (IntSize(size) ==> v.n < Bits(size))
    case LFixed32 => v.Num? && 0 <= v.n < U32
    case LFixed64 => v.Num? && 0 <= v.n < U64
    case LBytes => v.Blob? && size >= SIZE_BYTES && |v.bytes| == size - SIZE_BYTES && v.len < U32
    case LString => v.Text? && |v.buf| == size
    case LFixedBytes => v.Text? && |v.buf| == size
    case LMessage(d) => v.Sub? && MsgOk(d, v.m)
  }

  ghost predicate SlotOk(f: Field, s: Slot)
    decreases f
  {
    match f.rule
    case Required => s.One? && ValOk(f.ltype, f.size, s.v)
    case Optional(hasFlag) => (if hasFlag then s.Opt? else s.One?) && ValOk(f.ltype, f.size, s.v)
    case Repeated(_, max) => s.Many? && |s.items| == max && s.count < U32 && forall v | v in s.items :: ValOk(f.ltype, f.size, v)
    case Oneof(_) => s.One? && ValOk(f.ltype, f.size, s.v)
  }

  ghost predicate MsgOk(d: Desc, m: Message)
    decreases d
  {
    && |m.slots| == |d.fields| && |m.which| == d.groups
    && forall i | 0 <= i < |d.fields| :: SlotOk(d.fields[i], m.slots[i])
  }

  // ---------------------------------------------------------------- defaults

  function Zeros(n: nat): (s: seq<byte>)
    ensures |s| == n
  {
    seq(n, _ => 0)
  }

  /** Memory cleared by memset. */
  function ZeroVal(t: LType, size: nat): Val
    decreases t
  {
    match t
    case LBytes => Blob(0, Zeros(if size >= SIZE_BYTES then size - SIZE_BYTES else 0))
    case LString => Text(Zeros(size))
    case LFixedBytes => Text(Zeros(size))
    case LMessage(d) => Sub(ZeroMsg(d))
    case _ => Num(0)
  }

  function ZeroSlot(f: Field): Slot
    decreases f
  {
    match f.rule
    case Optional(true) => Opt(false, ZeroVal(f.ltype, f.size))
    case Repeated(_, max) => Many(0, seq(max, _ => ZeroVal(f.ltype, f.size)))
    case _ => One(ZeroVal(f.ltype, f.size))
  }

  function ZeroMsg(d: Desc): Message
    decreases d
  {
    Message(seq(|d.fields|, i requires 0 <= i < |d.fields| => ZeroSlot(d.fields[i])), seq(d.groups, _ => 0))
  }

  /** An item in memory with its first k bytes cleared. */
  function ClearVal(v: Val, size: nat, k: nat): Val {
    match v
    case Num(n) => Num(if k >= size then 0 else n - n % U32)
    case Blob(_, bytes) => Blob(0, bytes)
    case Text(buf) => if k >= |buf| then Text(Zeros(|buf|)) else Text(Zeros(k) + buf[k..])
    case Sub(_) => v
  }

  /** An array with its first k bytes cleared. */
  function ClearFront(items: seq<Val>, size: nat, k: nat): (r: seq<Val>)
    ensures |r| == |items|
  {
    if items == [] || k == 0 then items
    else [ClearVal(items[0], size, k)] + ClearFront(items[1..], size, if k > size then k - size else 0)
  }

  /** `pb_message_set_to_defaults`. The data of arrays and unions is left alone,
      except that an array of fixed count has no count field: what is set to
      zero in its place is the front of its data. */
  function SetDefaults(d: Desc, m: Message): (r: Message)
    decreases d
  {
    if |m.slots| != |d.fields| then m
    else
      Message(seq(|d.fields|, i requires 0 <= i < |d.fields| => DefaultSlot(d.fields[i], m.slots[i])), seq(|m.which|, _ => 0))
  }

  /** `pb_field_set_to_default` */
  function DefaultSlot(f: Field, s: Slot): Slot
    decreases f
  {
    match f.rule
    case Required => if s.One? then One(DefaultVal(f, s.v)) else s
    case Optional(hasFlag) =>
      if hasFlag && s.Opt? then Opt(false, DefaultVal(f, s.v)) else if s.One? then One(DefaultVal(f, s.v)) else s
    case Repeated(fixed, _) =>
      if s.Many? then Many(0, if fixed then ClearFront(s.items, f.size, SIZE_BYTES) else s.items) else s
    case Oneof(_) => s
  }

  function DefaultVal(f: Field, v: Val): Val
    decreases f, 0
  {
    match f.ltype
    case LMessage(d) => if v.Sub? then Sub(SetDefaults(d, v.m)) else v
    case _ => if f.init.Some? then f.init.value else ZeroVal(f.ltype, f.size)
  }
}
