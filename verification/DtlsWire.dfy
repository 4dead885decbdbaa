/** The DTLS handshake message header (RFC 6347, section 4.2.2) as it is laid
    out on the wire, with its parser and its serialiser. */
module DtlsWire {
  import opened Wrappers

  const HM_HEADER_LENGTH := 12

  /** SSL_MAX_HANDSHAKE_FLIGHT, on either side. */
  const MAX_HANDSHAKE_FLIGHT := 7

  function U16(v: nat): (s: seq<byte>)
    requires v < 0x1_0000
    ensures |s| == 2
  {
    [v / 0x100, v % 0x100]
  }

  function U24(v: nat): (s: seq<byte>)
    requires v < 0x100_0000
    ensures |s| == 3
  {
    [v / 0x1_0000, v / 0x100 % 0x100, v % 0x100]
  }

  function ReadU16(s: seq<byte>): (v: nat)
    requires |s| == 2
    ensures v < 0x1_0000
  {
    s[0] as int * 0x100 + s[1] as int
  }

  function ReadU24(s: seq<byte>): (v: nat)
    requires |s| == 3
    ensures v < 0x100_0000
  {
    s[0] as int * 0x1_0000 + s[1] as int * 0x100 + s[2] as int
  }

  datatype HmHeader = HmHeader(typ: byte, msgLen: nat, seqNo: nat, fragOff: nat, fragLen: nat)
  {
    /** Every field fits its place on the wire. */
    predicate Fits() {
      msgLen < 0x100_0000 && seqNo < 0x1_0000 && fragOff < 0x100_0000 && fragLen < 0x100_0000
    }
  }

  function SerializeHeader(h: HmHeader): (s: seq<byte>)
    requires h.Fits()
    ensures |s| == HM_HEADER_LENGTH
  {
    [h.typ] + U24(h.msgLen) + U16(h.seqNo) + U24(h.fragOff) + U24(h.fragLen)
  }

  datatype Fragment = Fragment(hdr: HmHeader, body: seq<byte>)

  predicate WellFormedFragment(f: Fragment) {
    f.hdr.Fits() && |f.body| == f.hdr.fragLen
  }

  function SerializeFragment(f: Fragment): seq<byte>
    requires WellFormedFragment(f)
  {
    SerializeHeader(f.hdr) + f.body
  }

  /** Reads one handshake fragment from the front of `s`; the second component
      is what is left unread. */
  function ParseFragment(s: seq<byte>): (r: Option<(Fragment, seq<byte>)>)
    ensures r.Some? ==> |r.value.1| < |s|
  {
    if |s| < HM_HEADER_LENGTH then None
    else
      var h := HmHeader(s[0], ReadU24(s[1..4]), ReadU16(s[4..6]), ReadU24(s[6..9]), ReadU24(s[9..12]));
      if |s| - HM_HEADER_LENGTH < h.fragLen then None
      else
        Some((Fragment(h, s[12..12 + h.fragLen]), s[12 + h.fragLen..]))
  }

  lemma ReadU24OfU24(v: nat)
    requires v < 0x100_0000
    ensures ReadU24(U24(v)) == v
  {
    var hi, mid, lo := v / 0x1_0000, v / 0x100 % 0x100, v % 0x100;
    assert v / 0x100 == hi * 0x100 + mid;
    assert v == v / 0x100 * 0x100 + lo;
  }

  lemma U24OfReadU24(s: seq<byte>)
    requires |s| == 3
    ensures U24(ReadU24(s)) == s
  {
    var v := ReadU24(s);
    assert v / 0x100 == s[0] as int * 0x100 + s[1] as int;
    assert v % 0x100 == s[2];
  }

  lemma HeaderFields(h: HmHeader, t: seq<byte>)
    requires h.Fits()
    ensures var s := SerializeHeader(h) + t;
            s[0] == h.typ && s[1..4] == U24(h.msgLen) && s[4..6] == U16(h.seqNo)
            && s[6..9] == U24(h.fragOff) && s[9..12] == U24(h.fragLen) && s[12..] == t
  {
  }

  /** The header in numbers: one byte of type, three of length, two of the message
      number, three each of the fragment's offset and length, highest first. */
  lemma HeaderInNumbers(h: HmHeader)
    requires h.Fits()
    ensures var s := SerializeHeader(h);
            && |s| == 12 && s[0] == h.typ
            && s[1] as int * 0x1_0000 + s[2] as int * 0x100 + s[3] as int == h.msgLen
            && s[4] as int * 0x100 + s[5] as int == h.seqNo
            && s[6] as int * 0x1_0000 + s[7] as int * 0x100 + s[8] as int == h.fragOff
            && s[9] as int * 0x1_0000 + s[10] as int * 0x100 + s[11] as int == h.fragLen
  {
    HeaderFields(h, []);
    assert SerializeHeader(h) + [] == SerializeHeader(h);
    ReadU24OfU24(h.msgLen);
    ReadU24OfU24(h.fragOff);
    ReadU24OfU24(h.fragLen);
  }

  /** Parsing undoes serialising, whatever follows the fragment. */
  lemma ParseSerialized(f: Fragment, rest: seq<byte>)
    requires WellFormedFragment(f)
    ensures ParseFragment(SerializeFragment(f) + rest) == Some((f, rest))
  {
    var s := SerializeFragment(f) + rest;
    assert s == SerializeHeader(f.hdr) + (f.body + rest);
    HeaderFields(f.hdr, f.body + rest);
    ReadU24OfU24(f.hdr.msgLen);
    ReadU24OfU24(f.hdr.fragOff);
    ReadU24OfU24(f.hdr.fragLen);
    assert s[12..] == f.body + rest;
    assert s[12..12 + f.hdr.fragLen] == f.body;
    assert s[12 + f.hdr.fragLen..] == rest;
  }

  /** Serialising undoes parsing: nothing of the input is lost or reinterpreted. */
  lemma SerializeParsed(s: seq<byte>)
    requires ParseFragment(s).Some?
    ensures var (f, rest) := ParseFragment(s).value;
            WellFormedFragment(f) && SerializeFragment(f) + rest == s
  {
    var (f, rest) := ParseFragment(s).value;
    U24OfReadU24(s[1..4]);
    U24OfReadU24(s[6..9]);
    U24OfReadU24(s[9..12]);
    assert U16(ReadU16(s[4..6])) == s[4..6];
    assert SerializeHeader(f.hdr) == s[..12];
    assert s == s[..12] + s[12..12 + f.hdr.fragLen] + s[12 + f.hdr.fragLen..];
  }
}
