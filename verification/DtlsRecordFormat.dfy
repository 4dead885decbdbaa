/** DTLS records (RFC 6347, section 4.1) and the contract of the AEAD that
    protects them. The cipher itself is not part of the model: an `Aead` value
    is any pair of functions, and `Lawful` says what is asked of it. */
module DtlsRecordFormat {
  import opened Wrappers
  import opened DtlsWire

  const RT_HEADER_LENGTH := 13
  const MAX_PLAIN_LENGTH := 16384
  const MAX_ENCRYPTED_LENGTH := 16384 + 256 + 64

  const RT_CHANGE_CIPHER_SPEC: byte := 20
  const RT_ALERT: byte := 21
  const RT_HANDSHAKE: byte := 22
  const RT_APPLICATION_DATA: byte := 23
  const MT_CCS: byte := 1
  const DTLS1_VERSION_MAJOR := 0xfe

  /** What a record authenticates beside its body. `sequence` is the epoch and
      the 48-bit sequence number, as the eight bytes on the wire. */
  datatype Params = Params(typ: byte, version: nat, sequence: seq<byte>)

  datatype Aead = Aead(
    isNull: bool,
    version: nat,
    explicitNonceLen: nat,
    maxOverhead: nat,
    seal: (nat, Params, seq<byte>) -> Option<seq<byte>>,
    open: (Params, seq<byte>) -> Option<seq<byte>>)

  /** `seal` may draw a random nonce (its first argument). Opening what was
      sealed under the same parameters gives the plaintext back, and the
      ciphertext is at most `maxOverhead` longer. The null cipher copies. */
  ghost predicate Lawful(a: Aead) {
    && a.version < 0x1_0000
    && a.explicitNonceLen <= a.maxOverhead
    && (forall r, p, pt, ct :: a.seal(r, p, pt) == Some(ct) ==> SealedOk(a, p, pt, ct))
    && (a.isNull ==> a.maxOverhead == 0 && forall p, ct :: a.open(p, ct) == Some(ct))
  }

  predicate SealedOk(a: Aead, p: Params, pt: seq<byte>, ct: seq<byte>) {
    a.open(p, ct) == Some(pt) && |ct| <= |pt| + a.maxOverhead
  }

  datatype Record = Record(params: Params, body: seq<byte>)

  predicate WellFormedRecord(r: Record) {
    r.params.version < 0x1_0000 && |r.params.sequence| == 8 && |r.body| < 0x1_0000
  }

  function SerializeRecord(r: Record): (s: seq<byte>)
    requires WellFormedRecord(r)
    ensures |s| == RT_HEADER_LENGTH + |r.body|
  {
    [r.params.typ] + U16(r.params.version) + r.params.sequence + U16(|r.body|) + r.body
  }

  /** Reads one record from the front of `s`, leaving the rest. */
  function ParseRecord(s: seq<byte>): (r: Option<(Record, seq<byte>)>)
    ensures r.Some? ==>
              && WellFormedRecord(r.value.0) && |r.value.0.body| <= MAX_ENCRYPTED_LENGTH
              && |r.value.1| < |s|
  {
    if |s| < RT_HEADER_LENGTH then None
    else
      var len := ReadU16(s[11..13]);
      if |s| - RT_HEADER_LENGTH < len || len > MAX_ENCRYPTED_LENGTH then None
      else
        Some((Record(Params(s[0], ReadU16(s[1..3]), s[3..11]), s[13..13 + len]), s[13 + len..]))
  }

  lemma ReadU16OfU16(v: nat)
    requires v < 0x1_0000
    ensures ReadU16(U16(v)) == v
  {
  }

  lemma ParseSerializedRecord(r: Record, rest: seq<byte>)
    requires WellFormedRecord(r) && |r.body| <= MAX_ENCRYPTED_LENGTH
    ensures ParseRecord(SerializeRecord(r) + rest) == Some((r, rest))
  {
    var s := SerializeRecord(r) + rest;
    ReadU16OfU16(r.params.version);
    ReadU16OfU16(|r.body|);
    assert s[1..3] == U16(r.params.version);
    assert s[3..11] == r.params.sequence;
    assert s[11..13] == U16(|r.body|);
    assert s[13..13 + |r.body|] == r.body;
    assert s[13 + |r.body|..] == rest;
  }

  lemma SerializeParsedRecord(s: seq<byte>)
    requires ParseRecord(s).Some?
    ensures var (r, rest) := ParseRecord(s).value; SerializeRecord(r) + rest == s
  {
    var (r, rest) := ParseRecord(s).value;
    assert U16(ReadU16(s[1..3])) == s[1..3] && U16(ReadU16(s[11..13])) == s[11..13];
    assert s == [s[0]] + s[1..3] + s[3..11] + s[11..13] + s[13..13 + |r.body|] + rest;
  }

  // ---------------------------------------------------------------- sequence numbers

  function ToU64(s: seq<byte>): nat
    decreases |s|
  {
    if s == [] then 0 else ToU64(s[..|s| - 1]) * 0x100 + s[|s| - 1] as int
  }

  /** `to_u64_be`; the shift-and-or of the source on eight bytes. */
  method ToU64Be(s: seq<byte>) returns (v: nat)
    requires |s| == 8
    ensures v == ToU64(s)
  {
    v := 0;
    for i := 0 to 8
      invariant v == ToU64(s[..i])
    {
      assert s[..i + 1][..i] == s[..i];
      v := v * 0x100 + s[i] as int;
    }
    assert s[..8] == s;
  }

  const SEQ_LIMIT := 0x1_0000_0000_0000

  /** The six wire bytes of a 48-bit sequence number. */
  function U48(v: nat): (s: seq<byte>)
    requires v < SEQ_LIMIT
    ensures |s| == 6
  {
    U24(v / 0x100_0000) + U24(v % 0x100_0000)
  }

  /** The eight sequence bytes of a record. */
  function Sequence(epoch: nat, number: nat): (s: seq<byte>)
    requires epoch < 0x1_0000 && number < SEQ_LIMIT
    ensures |s| == 8
  {
    U16(epoch) + U48(number)
  }

  function EpochOf(sequence: seq<byte>): nat
    requires |sequence| == 8
  {
    ReadU16(sequence[..2])
  }

  lemma ToU64Three(s: seq<byte>, t: seq<byte>)
    requires |t| == 3
    ensures ToU64(s + t) == ToU64(s) * 0x100_0000 + ReadU24(t)
  {
    var u := s + t;
    assert u[..|u| - 1] == s + t[..2] && (s + t[..2])[..|s| + 1] == s + t[..1] && (s + t[..1])[..|s|] == s;
    assert ToU64(s + t[..1]) == ToU64(s) * 0x100 + t[0] as int;
    assert ToU64(s + t[..2]) == ToU64(s + t[..1]) * 0x100 + t[1] as int;
  }

  /** The 64-bit number holds the epoch in its top 16 bits. */
  lemma ToU64Parts(s: seq<byte>)
    requires |s| == 8
    ensures ToU64(s) == EpochOf(s) * SEQ_LIMIT + ReadU24(s[2..5]) * 0x100_0000 + ReadU24(s[5..8])
    ensures ToU64(s) / SEQ_LIMIT == EpochOf(s)
  {
    var e := s[..2];
    assert e[..1][..0] == [] && e[..1] == [s[0]] && e == [s[0], s[1]];
    assert ToU64([s[0]]) == s[0] as int;
    assert ToU64(e) == s[0] as int * 0x100 + s[1] as int;
    assert s[..5] == e + s[2..5] && s == s[..5] + s[5..8];
    ToU64Three(e, s[2..5]);
    ToU64Three(s[..5], s[5..8]);
  }

  /** Distinct (epoch, sequence number) pairs have distinct wire bytes. */
  lemma SequenceInjective(e: nat, n: nat, e': nat, n': nat)
    requires e < 0x1_0000 && e' < 0x1_0000 && n < SEQ_LIMIT && n' < SEQ_LIMIT
    requires Sequence(e, n) == Sequence(e', n')
    ensures e == e' && n == n'
  {
    assert U16(e) == Sequence(e, n)[..2] && U16(e') == Sequence(e', n')[..2];
    assert U24(n / 0x100_0000) == Sequence(e, n)[2..5] && U24(n' / 0x100_0000) == Sequence(e', n')[2..5];
    assert U24(n % 0x100_0000) == Sequence(e, n)[5..8] && U24(n' % 0x100_0000) == Sequence(e', n')[5..8];
    ReadU16OfU16(e); ReadU16OfU16(e');
    ReadU24OfU24(n / 0x100_0000); ReadU24OfU24(n' / 0x100_0000);
    ReadU24OfU24(n % 0x100_0000); ReadU24OfU24(n' % 0x100_0000);
  }

  /** Epoch and sequence number in numbers, highest byte first. */
  lemma SequenceInNumbers(e: nat, n: nat)
    requires e < 0x1_0000 && n < 0x1_0000_0000_0000
    ensures var s := Sequence(e, n);
            && s[0] as int * 0x100 + s[1] as int == e
            && s[2] as int * 0x100_0000_0000 + s[3] as int * 0x1_0000_0000 + s[4] as int * 0x100_0000
               + s[5] as int * 0x1_0000 + s[6] as int * 0x100 + s[7] as int == n
  {
    var high, low := n / 0x100_0000, n % 0x100_0000;
    ReadU24OfU24(high);
    ReadU24OfU24(low);
    var s := Sequence(e, n);
    assert s[0..2] == U16(e) && s[2..5] == U24(high) && s[5..8] == U24(low);
    assert s[2] == U24(high)[0] && s[3] == U24(high)[1] && s[4] == U24(high)[2];
    assert s[5] == U24(low)[0] && s[6] == U24(low)[1] && s[7] == U24(low)[2];
  }

  lemma {:induction false} ToU64Injective(s: seq<byte>, t: seq<byte>)
    requires |s| == |t| && ToU64(s) == ToU64(t)
    ensures s == t
  {
    if s == [] {
    } else {
      var n := |s| - 1;
      assert ToU64(s) % 0x100 == s[n] as int && ToU64(t) % 0x100 == t[n] as int;
      ToU64Injective(s[..n], t[..n]);
      assert s == s[..n] + [s[n]] && t == t[..n] + [t[n]];
    }
  }
}
