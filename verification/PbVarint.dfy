/** Base 128 varints, ZigZag and little-endian numbers of the Protocol Buffers
    wire format, as nanopb writes and reads them (pb_encode.c, pb_decode.c). */
module PbVarint {
  import opened Wrappers
  import opened Arith

  const U32 := 0x1_0000_0000
  const U64 := 0x1_0000_0000_0000_0000

  // ---------------------------------------------------------------- writing

  function Varint(v: nat): (s: seq<byte>)
    ensures s != []
  {
    if v < 128 then [v] else [128 + v % 128] + Varint(v / 128)
  }

  /** A varint: continuation bytes and one that is none. */
  predicate IsVarint(s: seq<byte>) {
    s != [] && s[|s| - 1] < 128 && forall i | 0 <= i < |s| - 1 :: s[i] >= 128
  }

  /** What the 7-bit groups of a varint stand for. */
  function Base128(s: seq<byte>): nat {
    if s == [] then 0 else s[0] % 128 + 128 * Base128(s[1..])
  }

  lemma {:induction false} VarintMeans(v: nat)
    ensures IsVarint(Varint(v)) && Base128(Varint(v)) == v
  {
    if v >= 128 {
      VarintMeans(v / 128);
      assert Varint(v)[1..] == Varint(v / 128);
    } else {
      assert Base128([v]) == v % 128 + 128 * Base128([]);
    }
  }

  /** A varint is as short as its value allows: 7 bits a byte. */
  lemma {:induction false} VarintLength(v: nat, n: nat)
    ensures |Varint(v)| <= n + 1 <==> v < Pow2(7 * (n + 1))
  {
    SevenBits(n);
    if v >= 128 {
      if n > 0 {
        VarintLength(v / 128, n - 1);
      } else {
        assert |Varint(v / 128)| >= 1 && Pow2(7) == 128 by { SevenBits(0); }
      }
    } else {
      assert Pow2(7 * n) >= 1;
    }
  }

  lemma SevenBits(n: nat)
    ensures Pow2(7 * (n + 1)) == 128 * Pow2(7 * n)
  {
    PowSum(7, 7 * n);
    assert Pow2(7) == 2 * Pow2(6) && Pow2(6) == 2 * Pow2(5) && Pow2(5) == 2 * Pow2(4) && Pow2(4) == 2 * Pow2(3)
        && Pow2(3) == 2 * Pow2(2) && Pow2(2) == 2 * Pow2(1) && Pow2(1) == 2 * Pow2(0);
  }

  // ---------------------------------------------------------------- reading

  /** Where the varint at the front of `s` ends. */
  function VarintEnd(s: seq<byte>): (n: Option<nat>)
    ensures n.Some? ==> 0 < n.value <= |s| && IsVarint(s[..n.value])
    ensures n.None? ==> forall i | 0 <= i < |s| :: s[i] >= 128
  {
    if s == [] then None
    else if s[0] < 128 then Some(1)
    else
      match VarintEnd(s[1..])
      case None => None
      case Some(n) =>
        assert s[..n + 1] == [s[0]] + s[1..][..n];
        Some(n + 1)
  }

  /** `pb_decode_varint`: at most ten bytes; bits past 64 are lost. */
  function ReadVarint(s: seq<byte>): (r: Option<(nat, seq<byte>)>)
    ensures r.Some? ==> r.value.0 < U64 && |r.value.1| < |s|
  {
    match VarintEnd(s)
    case None => None
    case Some(n) => if n > 10 then None else Some((Base128(s[..n]) % U64, s[n..]))
  }

  /** `pb_skip_varint`: any length. */
  function SkipVarint(s: seq<byte>): (r: Option<seq<byte>>)
    ensures r.Some? ==> |r.value| < |s|
  {
    match VarintEnd(s)
    case None => None
    case Some(n) => Some(s[n..])
  }

  lemma {:induction false} VarintEndOf(s: seq<byte>, t: seq<byte>)
    requires IsVarint(s)
    ensures VarintEnd(s + t) == Some(|s|)
  {
    if s[0] < 128 {
    } else {
      assert (s + t)[1..] == s[1..] + t;
      VarintEndOf(s[1..], t);
    }
  }

  lemma VarintEndMore(s: seq<byte>, t: seq<byte>)
    requires VarintEnd(s).Some?
    ensures VarintEnd(s + t) == VarintEnd(s)
  {
    var n := VarintEnd(s).value;
    VarintEndOf(s[..n], s[n..] + t);
    assert s[..n] + (s[n..] + t) == s + t;
  }

  lemma ReadVarintMore(s: seq<byte>, t: seq<byte>)
    requires ReadVarint(s).Some?
    ensures ReadVarint(s + t) == Some((ReadVarint(s).value.0, ReadVarint(s).value.1 + t))
  {
    VarintEndMore(s, t);
    var n := VarintEnd(s).value;
    assert (s + t)[..n] == s[..n] && (s + t)[n..] == s[n..] + t;
  }

  lemma SkipVarintMore(s: seq<byte>, t: seq<byte>)
    requires SkipVarint(s).Some?
    ensures SkipVarint(s + t) == Some(SkipVarint(s).value + t)
  {
    VarintEndMore(s, t);
    var n := VarintEnd(s).value;
    assert (s + t)[n..] == s[n..] + t;
  }

  lemma Pow64()
    ensures Pow2(63) == U64 / 2 && Pow2(64) == U64 && Pow2(31) == U32 / 2 && Pow2(32) == U32
    ensures Pow2(7) == 128 && Pow2(14) == 0x4000 && Pow2(21) == 0x20_0000 && Pow2(28) == 0x1000_0000 && Pow2(35) == 0x8_0000_0000
  {
    SevenBits(0); SevenBits(1); SevenBits(2); SevenBits(3); SevenBits(4);
    SevenBits(5); SevenBits(6); SevenBits(7); SevenBits(8);
    PowSum(4, 28);
    assert Pow2(4) == 2 * Pow2(3) && Pow2(3) == 2 * Pow2(2) && Pow2(2) == 2 * Pow2(1) && Pow2(1) == 2 * Pow2(0);
  }

  lemma TenBytes(v: nat)
    requires v < U64
    ensures |Varint(v)| <= 10
  {
    hide Pow2;
    Pow64();
    SevenBits(9);
    SevenBits(8);
    VarintLength(v, 9);
  }

  /** Every uint64 takes at most ten bytes and comes back. */
  lemma ReadVarintOfVarint(v: nat, t: seq<byte>)
    requires v < U64
    ensures |Varint(v)| <= 10 && ReadVarint(Varint(v) + t) == Some((v, t))
  {
    hide Varint, Base128;
    TenBytes(v);
    VarintMeans(v);
    VarintEndOf(Varint(v), t);
    var s := Varint(v) + t;
    assert s[..|Varint(v)|] == Varint(v) && s[|Varint(v)|..] == t;
  }

  // ---------------------------------------------------------------- 32-bit reading

  /** The continuation loop of `pb_decode_varint32_eof`: result, shift count (a
      byte), last byte, and what is left. */
  function Tail32(s: seq<byte>, bitpos: nat, result: nat): (r: Option<(nat, nat, byte, seq<byte>)>)
    ensures r.Some? ==> |r.value.3| < |s|
  {
    if s == [] then None
    else
      var b := s[0];
      var signExtension := if bitpos < 63 then 0xFF else 0x01;
      if bitpos >= 32 && b % 128 != 0 && (result / Pow2(31) == 0 || b != signExtension) then None
      else
        var result' := if bitpos >= 32 then result else Or(result, b % 128 * Pow2(bitpos) % Pow2(32));
        var bitpos' := (bitpos + 7) % 256;
        if b < 128 then Some((result', bitpos', b, s[1..])) else Tail32(s[1..], bitpos', result')
  }

  /** `pb_decode_varint32` */
  function ReadVarint32(s: seq<byte>): (r: Option<(nat, seq<byte>)>)
    ensures r.Some? ==> |r.value.1| < |s|
  {
    if s == [] then None
    else if s[0] < 128 then Some((s[0], s[1..]))
    else
      match Tail32(s[1..], 7, s[0] % 128)
      case None => None
      case Some((result, bitpos, last, rest)) =>
        // The last byte was at bitpos 28, so only its bottom 4 bits fit.
        if bitpos == 35 && last / 16 % 8 != 0 then None else Some((result, rest))
  }

  lemma {:induction false} Tail32More(s: seq<byte>, bitpos: nat, result: nat, t: seq<byte>)
    requires Tail32(s, bitpos, result).Some?
    ensures var r := Tail32(s, bitpos, result).value;
            Tail32(s + t, bitpos, result) == Some((r.0, r.1, r.2, r.3 + t))
  {
    var b := s[0];
    var result' := if bitpos >= 32 then result else Or(result, b % 128 * Pow2(bitpos) % Pow2(32));
    assert (s + t)[0] == b && (s + t)[1..] == s[1..] + t;
    if b < 128 {
    } else {
      Tail32More(s[1..], (bitpos + 7) % 256, result', t);
    }
  }

  lemma ReadVarint32More(s: seq<byte>, t: seq<byte>)
    requires ReadVarint32(s).Some?
    ensures ReadVarint32(s + t) == Some((ReadVarint32(s).value.0, ReadVarint32(s).value.1 + t))
  {
    assert (s + t)[1..] == s[1..] + t;
    if s[0] >= 128 {
      Tail32More(s[1..], 7, s[0] % 128, t);
    }
  }

  /** Which groups past bit 35 pass for a sign extension: all zeros or, while
      bit 31 is set, all ones, and at bit 63 a single one. `j` counts groups. */
  predicate ExtensionOk(w: nat, j: nat, negative: bool)
    requires j <= 4
    decreases 4 - j
  {
    if j == 4 then w == 1 && negative
    else w >= 128 && (w % 128 == 0 || (negative && w % 128 == 127)) && ExtensionOk(w / 128, j + 1, negative)
  }

  lemma {:induction false} Tail32Extension(w: nat, j: nat, result: nat, t: seq<byte>)
    requires 0 < w < U64 && j <= 4 && w < Pow2(7 * (4 - j) + 1)
    ensures var r := Tail32(Varint(w) + t, 35 + 7 * j, result);
            if ExtensionOk(w, j, result / Pow2(31) != 0) then
              r.Some? && r.value.0 == result && r.value.1 > 35 && r.value.3 == t
            else r == None
    decreases 4 - j
  {
    hide Pow2, Or;
    var s := Varint(w) + t;
    if w >= 128 {
      assert s[1..] == Varint(w / 128) + t;
      if j == 4 {
        PowOne();
        assert false;
      } else {
        SevenMore(w, j);
        Tail32Extension(w / 128, j + 1, result, t);
      }
    } else {
      assert s[1..] == t;
      if j == 4 {
        PowOne();
      }
    }
  }

  lemma SevenMore(w: nat, j: nat)
    requires j < 4 && w < Pow2(7 * (4 - j) + 1)
    ensures w / 128 < Pow2(7 * (3 - j) + 1)
  {
    PowSum(7, 7 * (3 - j) + 1);
    Pow64();
  }

  /** What pb_decode_varint32 makes of a varint past 32 bits that some encoder
      wrote: accepted only if all of bits 35 to 62 come in groups of zeros or
      ones, bit 31 and bit 63 are set; bits 32 to 34 are not looked at. */
  predicate Accepted32(v: nat) {
    v >= 0x8_0000_0000 && ExtensionOk(v / 0x8_0000_0000, 0, v / 0x8000_0000 % 2 == 1)
  }

  lemma ConsParts(h: byte, s: seq<byte>, t: seq<byte>)
    ensures ([h] + s + t)[0] == h && ([h] + s + t)[1..] == s + t
  {
  }

  lemma VarintUnfold(w: nat)
    ensures Varint(w) == if w < 128 then [w] else [128 + w % 128] + Varint(w / 128)
  {
  }

  lemma VarintParts(w: nat, t: seq<byte>)
    ensures var s := Varint(w) + t;
            if w < 128 then s[0] == w && s[1..] == t
            else s[0] == 128 + w % 128 && s[1..] == Varint(w / 128) + t
  {
    hide Varint;
    VarintUnfold(w);
    if w < 128 {
      ConsParts(w, [], t);
      assert [w] + [] == [w] && [] + t == t;
    } else {
      ConsParts(128 + w % 128, Varint(w / 128), t);
    }
  }

  /** One group below bit 32, `shift` being 2^bitpos. */
  lemma Tail32Group(w: nat, g: nat, more: nat, bitpos: nat, shift: nat, result: nat, r: nat, t: seq<byte>)
    requires w == g + 128 * more && g < 128
    requires bitpos < 32 && shift == Pow2(bitpos) && r == Or(result, g * shift % U32)
    ensures Tail32(Varint(w) + t, bitpos, result) ==
              if more == 0 then Some((r, bitpos + 7, g, t)) else Tail32(Varint(more) + t, bitpos + 7, r)
  {
    hide Or, Pow2, Varint;
    VarintParts(w, t);
    ModOf(more, 128, g);
    assert Pow2(32) == U32 by { Pow64(); }
    assert (Varint(w) + t)[0] % 128 == g;
  }

  /** A group that fits below bit 28. */
  lemma LowGroup(g: nat, bitpos: nat, shift: nat, result: nat)
    requires (bitpos == 7 && shift == 0x80) || (bitpos == 14 && shift == 0x4000) || (bitpos == 21 && shift == 0x20_0000)
    requires g < 128 && result < shift
    ensures shift == Pow2(bitpos) && Or(result, g * shift % U32) == result + g * shift
  {
    hide Or, Pow2;
    Pow64();
    assert g * shift <= 127 * shift;
    OrAdds(result, g, bitpos);
  }

  /** The group at bit 28: only its lowest four bits fit. */
  lemma HighGroup(e: nat, h: nat, result: nat)
    requires e < 16 && result < 0x1000_0000
    ensures 0x1000_0000 == Pow2(28) && Or(result, (e + 16 * h) * 0x1000_0000 % U32) == result + e * 0x1000_0000
  {
    hide Or, Pow2;
    Pow64();
    ModOf(h, U32, e * 0x1000_0000);
    assert (e + 16 * h) * 0x1000_0000 == U32 * h + e * 0x1000_0000;
    OrAdds(result, e, 28);
  }

  /** A number as its four lowest groups, the four bits that complete 32, the
      three bits above, and the rest. */
  datatype Groups = Groups(g0: nat, g1: nat, g2: nat, g3: nat, e: nat, h: nat, rest: nat)
  {
    predicate Ok() {
      g0 < 128 && g1 < 128 && g2 < 128 && g3 < 128 && e < 16 && h < 8
    }

    function Low(): nat {
      g0 + 0x80 * g1 + 0x4000 * g2 + 0x20_0000 * g3 + 0x1000_0000 * e
    }

    function W4(): nat {
      e + 16 * h + 128 * rest
    }

    function W3(): nat {
      g3 + 128 * W4()
    }

    function W2(): nat {
      g2 + 128 * W3()
    }

    function W1(): nat {
      g1 + 128 * W2()
    }

    function Value(): nat {
      g0 + 128 * W1()
    }
  }

  lemma GroupsValue(p: Groups)
    requires p.Ok()
    ensures var v := p.Value();
            && v == p.Low() + U32 * p.h + 0x8_0000_0000 * p.rest && p.Low() < U32
            && v % U32 == p.Low() && v / 0x8_0000_0000 == p.rest && v / 0x8000_0000 % 2 == p.Low() / 0x8000_0000
  {
    var v, low := p.Value(), p.Low();
    ModOf(p.h + 8 * p.rest, U32, low);
    ModOf(p.rest, 0x8_0000_0000, low + U32 * p.h);
    var top := low / 0x8000_0000;
    assert low == 0x8000_0000 * top + low % 0x8000_0000 && top < 2;
    ModOf(2 * (p.h + 8 * p.rest) + top, 0x8000_0000, low % 0x8000_0000);
    ModOf(p.h + 8 * p.rest, 2, top);
  }

  lemma GroupsOf(v: nat) returns (p: Groups)
    ensures p.Ok() && p.Value() == v
  {
    var w1, g0 := v / 128, v % 128;
    var w2, g1 := w1 / 128, w1 % 128;
    var w3, g2 := w2 / 128, w2 % 128;
    var w4, g3 := w3 / 128, w3 % 128;
    var w5, g4 := w4 / 128, w4 % 128;
    var h, e := g4 / 16, g4 % 16;
    p := Groups(g0, g1, g2, g3, e, h, w5);
    assert g4 == e + 16 * h && p.W4() == w4 && p.W3() == w3 && p.W2() == w2 && p.W1() == w1;
  }

  /** pb_decode_varint32 on what pb_encode_varint writes, for every uint64:
      values below 2^32 come back; above, either bit groups that look like a
      sign extension, which give the low 32 bits, or an error. */
  lemma ReadVarint32OfVarint(v: nat, t: seq<byte>)
    requires v < U64
    ensures ReadVarint32(Varint(v) + t) ==
              if v < U32 then Some((v, t)) else if Accepted32(v) then Some((v % U32, t)) else None
  {
    hide Tail32, Or, Pow2, ExtensionOk, Varint, Accepted32;
    VarintParts(v, t);
    if v >= 128 {
      assert (128 + v % 128) % 128 == v % 128;
      LongVarint32(v, t);
    } else {
      Below32(v);
    }
  }

  lemma LongVarint32(v: nat, t: seq<byte>)
    requires 128 <= v < U64
    ensures var r := Tail32(Varint(v / 128) + t, 7, v % 128);
            if v < U32 then r.Some? && r.value.0 == v && r.value.3 == t && (r.value.1 == 35 ==> r.value.2 / 16 % 8 == 0)
            else if Accepted32(v) then r.Some? && r.value.0 == v % U32 && r.value.3 == t && r.value.1 > 35
            else r.Some? ==> r.value.1 == 35 && r.value.2 / 16 % 8 != 0
  {
    hide Tail32, Or, Pow2, ExtensionOk, Varint, Accepted32;
    var p := GroupsOf(v);
    ModOf(p.W1(), 128, p.g0);
    GroupsValue(p);
    FiveGroups(p, t);
  }

  lemma Below32(v: nat)
    requires v < 0x8_0000_0000
    ensures !Accepted32(v)
  {
  }

  lemma FiveGroups(p: Groups, t: seq<byte>)
    requires p.Ok() && p.W1() > 0 && p.Value() < U64
    ensures var r := Tail32(Varint(p.W1()) + t, 7, p.g0);
            if p.Value() < U32 then r.Some? && r.value.0 == p.Low() && r.value.3 == t && (r.value.1 == 35 ==> r.value.2 / 16 % 8 == 0)
            else if Accepted32(p.Value()) then r.Some? && r.value.0 == p.Low() && r.value.3 == t && r.value.1 > 35
            else r.Some? ==> r.value.1 == 35 && r.value.2 / 16 % 8 != 0
  {
    hide Tail32, Or, Pow2, ExtensionOk, Varint, Accepted32, IsVarint;
    var r1 := p.g0;
    var r2 := r1 + p.g1 * 0x80;
    var r3 := r2 + p.g2 * 0x4000;
    var r4 := r3 + p.g3 * 0x20_0000;
    LowGroup(p.g1, 7, 0x80, r1);
    LowGroup(p.g2, 14, 0x4000, r2);
    LowGroup(p.g3, 21, 0x20_0000, r3);
    HighGroup(p.e, p.h, r4);
    Tail32Group(p.W1(), p.g1, p.W2(), 7, 0x80, r1, r2, t);
    Tail32Group(p.W2(), p.g2, p.W3(), 14, 0x4000, r2, r3, t);
    Tail32Group(p.W3(), p.g3, p.W4(), 21, 0x20_0000, r3, r4, t);
    Tail32Group(p.W4(), p.e + 16 * p.h, p.rest, 28, 0x1000_0000, r4, p.Low(), t);
    FewGroups(p);
    if p.rest > 0 {
      LastGroups(p, t);
    }
  }

  /** How many groups there are says how large the number is. */
  lemma FewGroups(p: Groups)
    requires p.Ok()
    ensures p.Value() < U32 <==> p.h == 0 && p.rest == 0
    ensures p.W2() == 0 ==> p.Value() < U32 && p.Low() == p.g0 + 0x80 * p.g1
    ensures p.W3() == 0 ==> p.Value() < U32 && p.Low() == p.g0 + 0x80 * p.g1 + 0x4000 * p.g2
    ensures p.W4() == 0 ==> p.Value() < U32 && p.Low() == p.g0 + 0x80 * p.g1 + 0x4000 * p.g2 + 0x20_0000 * p.g3
    ensures p.rest == 0 ==> !Accepted32(p.Value())
    ensures (p.e + 16 * p.h) / 16 % 8 == p.h
  {
    hide ExtensionOk;
    GroupsValue(p);
    ModOf(p.h, 16, p.e);
  }

  lemma LastGroups(p: Groups, t: seq<byte>)
    requires p.Ok() && p.rest > 0 && p.Value() < U64
    ensures var r := Tail32(Varint(p.rest) + t, 35, p.Low());
            if Accepted32(p.Value()) then r.Some? && r.value.0 == p.Low() && r.value.1 > 35 && r.value.3 == t else r == None
  {
    hide Tail32, Or, Pow2, ExtensionOk, Varint;
    GroupsValue(p);
    Pow64();
    assert Pow2(29) == 0x2000_0000 by { PowSum(1, 28); PowOne(); }
    Tail32Extension(p.rest, 0, p.Low(), t);
  }

  lemma PowOne()
    ensures Pow2(1) == 2
  {
    assert Pow2(0) == 1;
  }

  /** The varints of negative int32 values, sign-extended to 64 bits, pass. */
  lemma NegativeInt32Accepted(v: nat)
    requires U64 - 0x8000_0000 <= v < U64
    ensures Accepted32(v) && v % U32 == v - (U64 - U32)
  {
    var w := v / 0x8_0000_0000;
    assert w == 0x1FFF_FFFF && w / 128 == 0x3F_FFFF && w / 128 / 128 == 0x7FFF && w / 128 / 128 / 128 == 0xFF;
    assert ExtensionOk(1, 4, true) && ExtensionOk(0xFF, 3, true) && ExtensionOk(0x7FFF, 2, true);
    assert ExtensionOk(0x3F_FFFF, 1, true);
  }

  lemma {:induction false} ShortExtensionFails(w: nat, j: nat, negative: bool)
    requires j <= 4 && w < Pow2(7 * (4 - j))
    ensures !ExtensionOk(w, j, negative)
    decreases 4 - j
  {
    if j < 4 {
      SevenBits(3 - j);
      ShortExtensionFails(w / 128, j + 1, negative);
    } else {
      assert Pow2(0) == 1;
    }
  }

  /** Nothing between 2^32 and 2^63 passes. */
  lemma MiddleRejected(v: nat)
    requires U32 <= v < U64 / 2
    ensures !Accepted32(v)
  {
    hide Pow2;
    Pow64();
    ShortExtensionFails(v / 0x8_0000_0000, 0, v / 0x8000_0000 % 2 == 1);
  }

  /** Not every accepted varint is a sign extension. */
  lemma AcceptedButNotExtended()
    ensures Accepted32(U64 / 2 + 0x8000_0000) && U64 / 2 + 0x8000_0000 < U64 - 0x8000_0000
  {
    var w := 0x1000_0000;
    assert (U64 / 2 + 0x8000_0000) / 0x8_0000_0000 == w;
    assert ExtensionOk(1, 4, true) && ExtensionOk(0x80, 3, true) && ExtensionOk(0x4000, 2, true) && ExtensionOk(0x20_0000, 1, true);
  }

  // ---------------------------------------------------------------- signed numbers

  /** A C cast between int64_t and uint64_t. */
  function ToU64(n: int): nat {
    n % U64
  }

  function ToI64(u: nat): int {
    if u >= U64 / 2 then u - U64 else u
  }

  /** `~x` on 64 bits. */
  function Not64(u: nat): int {
    U64 - 1 - u
  }

  /** `pb_encode_svarint`: shifted left, and inverted if negative. */
  function ZigZag(n: int): nat
    requires -U64 / 2 <= n < U64 / 2
  {
    if n < 0 then Not64(2 * ToU64(n) % U64) else 2 * ToU64(n) % U64
  }

  /** `pb_decode_svarint`, after the varint. */
  function UnZigZag(u: nat): int
    requires u < U64
  {
    if u % 2 == 1 then ToI64(Not64(u / 2)) else ToI64(u / 2)
  }

  /** ZigZag maps small magnitudes to small numbers, and comes back. */
  lemma ZigZagMeans(n: int)
    requires -U64 / 2 <= n < U64 / 2
    ensures ZigZag(n) == (if n < 0 then -2 * n - 1 else 2 * n)
    ensures ZigZag(n) < U64 && UnZigZag(ZigZag(n)) == n
  {
    if n < 0 {
      assert ToU64(n) == n + U64;
      assert 2 * (n + U64) == U64 + (2 * n + U64);
    }
  }

  // ---------------------------------------------------------------- fixed-size numbers

  function Le(v: nat, n: nat): (s: seq<byte>)
    ensures |s| == n
  {
    if n == 0 then [] else [v % 256] + Le(v / 256, n - 1)
  }

  function ReadLe(s: seq<byte>): nat {
    if s == [] then 0 else s[0] + 256 * ReadLe(s[1..])
  }

  lemma {:induction false} ReadLeOfLe(v: nat, n: nat)
    requires v < Pow2(8 * n)
    ensures ReadLe(Le(v, n)) == v
  {
    if n == 0 {
    } else {
      PowSum(8, 8 * (n - 1));
      EightBits();
      ReadLeOfLe(v / 256, n - 1);
      assert Le(v, n)[1..] == Le(v / 256, n - 1);
    }
  }

  lemma EightBits()
    ensures Pow2(8) == 256
  {
    SevenBits(0);
  }

  lemma {:induction false} ReadLeBound(s: seq<byte>)
    ensures ReadLe(s) < Pow2(8 * |s|)
  {
    if s == [] {
    } else {
      PowSum(8, 8 * (|s| - 1));
      EightBits();
      ReadLeBound(s[1..]);
    }
  }
}
