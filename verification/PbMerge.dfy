/** How decoding composes: bytes after a complete message are not looked at,
    decoding a concatenation merges, and unknown fields leave no trace. */
module PbMerge {
  import opened Wrappers
  import opened PbVarint
  import opened PbDescriptor
  import opened PbEncoderSpec
  import opened PbDecoderSpec
  import opened PbIterator

  // ---------------------------------------------------------------- bytes behind a field do not matter

  lemma ReadBytesMore(s: seq<byte>, n: nat, t: seq<byte>)
    requires ReadBytes(s, n).Some?
    ensures ReadBytes(s + t, n) == Some((ReadBytes(s, n).value.0, ReadBytes(s, n).value.1 + t))
  {
    assert (s + t)[..n] == s[..n] && (s + t)[n..] == s[n..] + t;
  }

  lemma ReadDelimitedMore(s: seq<byte>, t: seq<byte>)
    requires ReadDelimited(s).Some?
    ensures ReadDelimited(s + t) == Some((ReadDelimited(s).value.0, ReadDelimited(s).value.1 + t))
  {
    hide ReadVarint32, ReadBytes;
    ReadVarint32More(s, t);
    var (n, rest) := ReadVarint32(s).value;
    ReadBytesMore(rest, n, t);
  }

  lemma DecNumMore(ty: LType, size: nat, s: seq<byte>, t: seq<byte>)
    requires DecNum(ty, size, s).Some?
    ensures DecNum(ty, size, s + t) == Some((DecNum(ty, size, s).value.0, DecNum(ty, size, s).value.1 + t))
  {
    hide ReadVarint, ReadBytes;
    if ty.LFixed32? {
      ReadBytesMore(s, 4, t);
    } else if ty.LFixed64? {
      ReadBytesMore(s, 8, t);
    } else {
      ReadVarintMore(s, t);
    }
  }

  lemma DecValMore(ty: LType, size: nat, renew: bool, v: Val, s: seq<byte>, t: seq<byte>)
    requires DecVal(ty, size, renew, v, s).Some?
    ensures var r := DecVal(ty, size, renew, v, s).value; DecVal(ty, size, renew, v, s + t) == Some((r.0, r.1 + t))
  {
    hide ReadDelimited, DecNum, DecMsg;
    if Packable(ty) {
      DecNumMore(ty, size, s, t);
    } else {
      ReadDelimitedMore(s, t);
    }
  }

  lemma DecSlotMore(f: Field, slot: Slot, count: nat, wireType: nat, s: seq<byte>, t: seq<byte>)
    requires DecSlot(f, slot, count, wireType, s).Some?
    ensures var r := DecSlot(f, slot, count, wireType, s).value;
            DecSlot(f, slot, count, wireType, s + t) == Some(r.(rest := r.rest + t))
  {
    hide ReadDelimited, DecVal, DecPacked;
    match f.rule
    case Repeated(_, _) =>
      if wireType == WT_STRING && Packable(f.ltype) {
        ReadDelimitedMore(s, t);
      } else {
        DecValMore(f.ltype, f.size, true, slot.items[count], s, t);
      }
    case Optional(true) => DecValMore(f.ltype, f.size, false, slot.v, s, t);
    case _ => DecValMore(f.ltype, f.size, false, Target(f, slot.v), s, t);
  }

  lemma SkipMore(wireType: nat, s: seq<byte>, t: seq<byte>)
    requires Skip(wireType, s).Some?
    ensures Skip(wireType, s + t) == Some(Skip(wireType, s).value + t)
  {
    hide ReadDelimited, ReadBytes, SkipVarint;
    if wireType == WT_VARINT {
      SkipVarintMore(s, t);
    } else if wireType == WT_STRING {
      ReadDelimitedMore(s, t);
    } else {
      ReadBytesMore(s, if wireType == WT_64BIT then 8 else 4, t);
    }
  }

  lemma DecStepMore(d: Desc, key: nat, s: seq<byte>, st: State, t: seq<byte>)
    requires DecStep(d, key, s, st).Some?
    ensures var r := DecStep(d, key, s, st).value; DecStep(d, key, s + t, st) == Some((r.0, r.1 + t))
  {
    hide DecField, Skip, FindTag;
    match FindTag(d.fields, key / 8)
    case None => SkipMore(key % 8, s, t);
    case Some(i) => DecFieldMore(d, i, key % 8, s, st, t);
  }

  lemma DecFieldMore(d: Desc, i: nat, wireType: nat, s: seq<byte>, st: State, t: seq<byte>)
    requires i < |d.fields| && DecField(d, i, wireType, s, st).Some?
    ensures var r := DecField(d, i, wireType, s, st).value; DecField(d, i, wireType, s + t, st) == Some((r.0, r.1 + t))
  {
    hide Prepare, CountOf;
    var slot, st' := st.m.slots[i], Prepare(d, i, st).value;
    DecSlotMore(d.fields[i], slot, CountOf(d.fields[i], slot, st'), wireType, s, t);
  }

  // ---------------------------------------------------------------- concatenation

  /** The loop ends on a zero key rather than at the end of its input. */
  predicate StopsAtZero(d: Desc, s: seq<byte>, st: State)
    decreases |s|
  {
    s != [] && ReadVarint32(s).Some? &&
    var (key, rest) := ReadVarint32(s).value;
    key == 0 ||
    (DecStep(d, key, rest, st).Some? && StopsAtZero(d, DecStep(d, key, rest, st).value.1, DecStep(d, key, rest, st).value.0))
  }

  /** The loop over a concatenation: the second part goes on where the first
      ended, unless that ended on a zero key, and then it is not read at all. */
  lemma {:induction false} LoopAppend(d: Desc, a: seq<byte>, b: seq<byte>, st: State)
    requires DecLoop(d, a, st).Some?
    ensures var (st', rest) := DecLoop(d, a, st).value;
            DecLoop(d, a + b, st) == if StopsAtZero(d, a, st) then Some((st', rest + b)) else DecLoop(d, b, st')
    ensures !StopsAtZero(d, a, st) ==> DecLoop(d, a, st).value.1 == []
    decreases |a|
  {
    hide ReadVarint32, DecStep;
    if a == [] {
      assert a + b == b;
    } else {
      var (key, rest) := ReadVarint32(a).value;
      ReadVarint32More(a, b);
      if key != 0 {
        DecStepMore(d, key, rest, st, b);
        var (st', rest') := DecStep(d, key, rest, st).value;
        LoopAppend(d, rest', b, st');
      }
    }
  }

  predicate NoFixedArrays(d: Desc) {
    forall f | f in d.fields :: !IsFixed(f)
  }

  function Noted(st: State, extra: set<nat>): State {
    st.(seen := st.seen + extra)
  }

  /** Without arrays of fixed count, what was seen before does not influence how
      the message is decoded. */
  lemma StepForgets(d: Desc, key: nat, s: seq<byte>, st: State, extra: set<nat>)
    requires NoFixedArrays(d)
    ensures var r := DecStep(d, key, s, st);
            DecStep(d, key, s, Noted(st, extra)) == if r.None? then None else Some((Noted(r.value.0, extra), r.value.1))
  {
    hide DecSlot, Skip, FindTag;
    match FindTag(d.fields, key / 8)
    case None =>
    case Some(i) =>
      assert d.fields[i] in d.fields;
      var n := ReqIndex(d.fields, i);
      assert st.seen + extra + {n} == st.seen + {n} + extra;
  }

  lemma {:induction false} LoopForgets(d: Desc, s: seq<byte>, st: State, extra: set<nat>)
    requires NoFixedArrays(d)
    ensures var r := DecLoop(d, s, st);
            DecLoop(d, s, Noted(st, extra)) == if r.None? then None else Some((Noted(r.value.0, extra), r.value.1))
    decreases |s|
  {
    hide ReadVarint32, DecStep;
    if s != [] && ReadVarint32(s).Some? && ReadVarint32(s).value.0 != 0 {
      var (key, rest) := ReadVarint32(s).value;
      StepForgets(d, key, rest, st, extra);
      if DecStep(d, key, rest, st).Some? {
        LoopForgets(d, DecStep(d, key, rest, st).value.1, DecStep(d, key, rest, st).value.0, extra);
      }
    }
  }

  lemma {:induction false} NeverFixed(d: Desc, s: seq<byte>, st: State)
    requires NoFixedArrays(d) && st.fixedField == None && DecLoop(d, s, st).Some?
    ensures var st' := DecLoop(d, s, st).value.0; st'.fixedField == None && st'.fixedCount == st.fixedCount
    decreases |s|
  {
    hide ReadVarint32, DecStep;
    if s != [] && ReadVarint32(s).value.0 != 0 {
      var (key, rest) := ReadVarint32(s).value;
      var (st', rest') := DecStep(d, key, rest, st).value;
      StepNeverFixed(d, key, rest, st);
      NeverFixed(d, rest', st');
    }
  }

  lemma StepNeverFixed(d: Desc, key: nat, s: seq<byte>, st: State)
    requires NoFixedArrays(d) && DecStep(d, key, s, st).Some?
    ensures var st' := DecStep(d, key, s, st).value.0; st'.fixedField == st.fixedField && st'.fixedCount == st.fixedCount
  {
    hide DecSlot, Skip, FindTag;
    match FindTag(d.fields, key / 8)
    case None =>
    case Some(i) => assert d.fields[i] in d.fields;
  }

  /** Concatenation merges: decoding `a` and then, into the result, `b` is
      decoding `a + b` at once, if `a` does not end on a zero key. Without arrays of fixed count. */
  lemma ConcatenationMerges(d: Desc, a: seq<byte>, b: seq<byte>, m: Message)
    requires NoFixedArrays(d) && !StopsAtZero(d, a, Start(m))
    requires DecMsg(d, a, m).Some? && DecMsg(d, b, DecMsg(d, a, m).value.0).Some?
    ensures DecMsg(d, a + b, m) == DecMsg(d, b, DecMsg(d, a, m).value.0)
  {
    hide DecLoop, StopsAtZero;
    var st := DecLoop(d, a, Start(m)).value.0;
    LoopAppend(d, a, b, Start(m));
    NeverFixed(d, a, Start(m));
    LoopForgets(d, b, Start(st.m), st.seen);
    assert st == Noted(Start(st.m), st.seen);
  }

  /** If `a` ends on a zero key, whatever follows it is ignored. */
  lemma ZeroKeyHides(d: Desc, a: seq<byte>, b: seq<byte>, m: Message)
    requires StopsAtZero(d, a, Start(m)) && DecMsg(d, a, m).Some?
    ensures var (m', rest) := DecMsg(d, a, m).value; DecMsg(d, a + b, m) == Some((m', rest + b))
  {
    hide DecLoop, StopsAtZero;
    LoopAppend(d, a, b, Start(m));
  }

  /** Reading anything takes at least one byte. */
  lemma {:induction false} LoopReads(d: Desc, s: seq<byte>, st: State)
    requires s != [] && DecLoop(d, s, st).Some?
    ensures |DecLoop(d, s, st).value.1| < |s|
    decreases |s|
  {
    hide ReadVarint32, DecStep;
    var (key, rest) := ReadVarint32(s).value;
    if key == 0 {
    } else {
      var (st', rest') := DecStep(d, key, rest, st).value;
      if rest' != [] {
        LoopReads(d, rest', st');
      }
    }
  }

  /** Exactly when decoding a concatenation gives the message of decoding its
      parts one after the other: if `a` does not end on a zero key, or `b` would
      have changed nothing. What is left unread agrees as well unless `a` ends
      on a zero key with something behind it, in `a` itself or in `b`. */
  lemma MergesExactly(d: Desc, a: seq<byte>, b: seq<byte>, m: Message)
    requires NoFixedArrays(d)
    requires DecMsg(d, a, m).Some? && DecMsg(d, b, DecMsg(d, a, m).value.0).Some?
    ensures var m1 := DecMsg(d, a, m).value.0;
            var m2 := DecMsg(d, b, m1).value.0;
            DecMsg(d, a + b, m).Some? && (DecMsg(d, a + b, m).value.0 == m2 <==> !StopsAtZero(d, a, Start(m)) || m2 == m1)
    ensures DecMsg(d, a + b, m) == DecMsg(d, b, DecMsg(d, a, m).value.0) <==>
            !StopsAtZero(d, a, Start(m)) || DecMsg(d, a, m).value.1 + b == []
  {
    hide DecLoop, StopsAtZero;
    var (m', rest) := DecMsg(d, a, m).value;
    if StopsAtZero(d, a, Start(m)) {
      ZeroKeyHides(d, a, b, m);
      if b == [] {
        NothingRead(d, m');
      } else {
        LoopReads(d, b, Start(m'));
      }
    } else {
      ConcatenationMerges(d, a, b, m);
    }
  }

  lemma NothingRead(d: Desc, m: Message)
    ensures DecLoop(d, [], Start(m)) == Some((Start(m), []))
  {
  }

  const ONE_NUMBER := Desc([Field(1, LUvarint, Required, 4, None, Place(0, 0))], 0)

  function Number(n: nat): Message {
    Message([One(Num(n))], [])
  }

  /** A message lost to a zero key: the number 7, a zero byte, the number 5. On
      its own the second part changes 7 to 5; behind the first it is not read. */
  lemma ZeroKeyLoses(n: nat)
    ensures DecMsg(ONE_NUMBER, [8, 7, 0], Number(n)) == Some((Number(7), []))
    ensures DecMsg(ONE_NUMBER, [8, 5], Number(7)) == Some((Number(5), []))
    ensures DecMsg(ONE_NUMBER, [8, 7, 0] + [8, 5], Number(n)) == Some((Number(7), [8, 5]))
  {
    hide DecMsg, Finished;
    SetNumber(n, 7, [0]);
    SetNumber(n, 7, [0, 8, 5]);
    SetNumber(7, 5, []);
    assert [8, 7] + [0] == [8, 7, 0] && [8, 7] + [0, 8, 5] == [8, 7, 0] + [8, 5] && [8, 5] + [] == [8, 5];
    var st := State(Number(7), {0}, None, 0);
    assert DecLoop(ONE_NUMBER, [0], st) == Some((st, []));
    assert DecLoop(ONE_NUMBER, [0, 8, 5], st) == Some((st, [8, 5])) by {
      assert [0, 8, 5][1..] == [8, 5];
    }
    NumberDone(n, [8, 7, 0], 7, []);
    NumberDone(n, [8, 7, 0] + [8, 5], 7, [8, 5]);
    NumberDone(7, [8, 5], 5, []);
  }

  /** One field of ONE_NUMBER at the front of the input. */
  lemma SetNumber(n: nat, k: byte, rest: seq<byte>)
    requires k < 128
    ensures DecLoop(ONE_NUMBER, [8, k] + rest, Start(Number(n))) == DecLoop(ONE_NUMBER, rest, State(Number(k), {0}, None, 0))
  {
    hide DecLoop;
    var s := [8, k] + rest;
    assert s[1..] == [k] + rest && ([k] + rest)[1..] == rest;
    assert ReadVarint32(s) == Some((8, [k] + rest));
    VarintEndOf([k], rest);
    assert ([k] + rest)[..1] == [k] && [k][1..] == [];
    assert Base128([k]) == k by { assert Base128([]) == 0; }
    assert ReadVarint([k] + rest) == Some((k as nat, rest));
    assert FindTag(ONE_NUMBER.fields, 1) == Some(0);
    assert ReqIndex(ONE_NUMBER.fields, 0) == 0;
    var st := Start(Number(n));
    var f, slot, got := ONE_NUMBER.fields[0], One(Num(n)), Got(One(Num(k as nat)), 0, rest);
    assert Prepare(ONE_NUMBER, 0, st) == Some(State(Number(n), {0}, None, 0)) by {
      assert f.rule == Required && !IsFixed(f) && {} + {0} == {0};
    }
    assert DecSlot(f, slot, 0, 0, [k] + rest) == Some(got) by {
      hide ReadVarint;
      assert DecVal(f.ltype, f.size, false, slot.v, [k] + rest) == Some((Num(k as nat), rest));
    }
    assert Store(ONE_NUMBER, 0, State(Number(n), {0}, None, 0), got) == State(Number(k), {0}, None, 0) by {
      assert Number(n).slots[0 := got.slot] == Number(k).slots;
    }
    assert DecStep(ONE_NUMBER, 8, [k] + rest, st) == Some((State(Number(k), {0}, None, 0), rest));
    LoopStep(ONE_NUMBER, s, st);
  }

  lemma LoopStep(d: Desc, s: seq<byte>, st: State)
    requires s != [] && ReadVarint32(s).Some? && ReadVarint32(s).value.0 != 0
    ensures var (key, rest) := ReadVarint32(s).value;
            DecLoop(d, s, st) == match DecStep(d, key, rest, st) case None => None case Some((st', rest')) => DecLoop(d, rest', st')
  {
    hide ReadVarint32, DecStep;
  }

  lemma NumberDone(n: nat, s: seq<byte>, k: nat, rest: seq<byte>)
    requires DecLoop(ONE_NUMBER, s, Start(Number(n))) == Some((State(Number(k), {0}, None, 0), rest))
    ensures DecMsg(ONE_NUMBER, s, Number(n)) == Some((Number(k), rest))
  {
    hide DecLoop;
    assert ReqIndex(ONE_NUMBER.fields, 1) == 1 by { assert ReqIndex(ONE_NUMBER.fields, 0) == 0; }
  }

  // ---------------------------------------------------------------- unknown fields

  /** The bytes `s` are all of a varint that reads as the 32-bit number `n`. */
  ghost predicate Reads32(s: seq<byte>, n: nat) {
    ReadVarint32(s) == Some((n, []))
  }

  /** All of the payload of one field, as the wire format defines it. */
  ghost predicate Payload(wireType: nat, p: seq<byte>) {
    || (wireType == WT_VARINT && IsVarint(p))
    || (wireType == WT_64BIT && |p| == 8)
    || (wireType == WT_32BIT && |p| == 4)
    || (wireType == WT_STRING && exists len: seq<byte>, body: seq<byte> :: Reads32(len, |body|) && p == len + body)
  }

  lemma ReadDelimitedOf(body: seq<byte>, t: seq<byte>)
    requires |body| < U32
    ensures ReadDelimited(Delimited(body) + t) == Some((body, t))
  {
    hide Varint;
    ReadVarint32OfVarint(|body|, body + t);
    assert Delimited(body) + t == Varint(|body|) + (body + t);
    assert (body + t)[..|body|] == body && (body + t)[|body|..] == t;
  }

  lemma Reads32Then(s: seq<byte>, n: nat, t: seq<byte>)
    requires Reads32(s, n)
    ensures ReadVarint32(s + t) == Some((n, t))
  {
    ReadVarint32More(s, t);
    assert [] + t == t;
  }

  /** The shortest form is one of them. */
  lemma VarintReads32(n: nat)
    requires n < U32
    ensures Reads32(Varint(n), n)
  {
    ReadVarint32OfVarint(n, []);
    assert Varint(n) + [] == Varint(n);
  }

  /** pb_skip_field takes exactly the payload. */
  lemma SkipTakesPayload(wireType: nat, p: seq<byte>, t: seq<byte>)
    requires Payload(wireType, p)
    ensures Skip(wireType, p + t) == Some(t)
  {
    hide ReadVarint32;
    if wireType == WT_VARINT {
      VarintEndOf(p, t);
      assert (p + t)[|p|..] == t;
    } else if wireType == WT_STRING {
      var len: seq<byte>, body: seq<byte> :| Reads32(len, |body|) && p == len + body;
      Reads32Then(len, |body|, body + t);
      assert p + t == len + (body + t);
      assert (body + t)[..|body|] == body && (body + t)[|body|..] == t;
    } else {
      assert (p + t)[|p|..] == t;
    }
  }

  /** A complete field with a number the descriptor does not have, its key in any
      form that reads as one. */
  ghost predicate UnknownField(d: Desc, u: seq<byte>) {
    exists k: seq<byte>, key: nat, p: seq<byte> ::
      && Reads32(k, key) && 1 <= key / 8 && FindTag(d.fields, key / 8) == None
      && Payload(key % 8, p) && u == k + p
  }

  lemma UnknownFieldSkipped(d: Desc, u: seq<byte>, b: seq<byte>, st: State)
    requires UnknownField(d, u)
    ensures DecLoop(d, u + b, st) == DecLoop(d, b, st)
  {
    hide Skip, Payload, ReadVarint32;
    var k: seq<byte>, key: nat, p: seq<byte> :|
      Reads32(k, key) && 1 <= key / 8 && FindTag(d.fields, key / 8) == None && Payload(key % 8, p) && u == k + p;
    Reads32Then(k, key, p + b);
    assert u + b == k + (p + b) && u + b != [] by { NonEmpty(k, key); }
    SkipTakesPayload(key % 8, p, b);
  }

  lemma NonEmpty(k: seq<byte>, key: nat)
    requires Reads32(k, key)
    ensures k != []
  {
  }

  /** Unknown fields are transparent: inserting one at a field boundary changes
      nothing of what decoding gives. */
  lemma UnknownFieldsAreTransparent(d: Desc, a: seq<byte>, u: seq<byte>, b: seq<byte>, m: Message)
    requires UnknownField(d, u)
    requires DecLoop(d, a, Start(m)).Some? && !StopsAtZero(d, a, Start(m))
    ensures DecMsg(d, a + u + b, m) == DecMsg(d, a + b, m)
  {
    hide DecLoop, StopsAtZero, UnknownField;
    LoopAppend(d, a, u + b, Start(m));
    LoopAppend(d, a, b, Start(m));
    UnknownFieldSkipped(d, u, b, DecLoop(d, a, Start(m)).value.0);
    assert a + u + b == a + (u + b);
  }
}
