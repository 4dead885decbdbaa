/** Reassembly of one handshake message: a bit mask with one bit per body byte
    (d1_both.cc, `hm_fragment` and `dtls1_hm_fragment_mark`), and what it
    stands for: the partial map from body indices to the bytes received. */
module DtlsReassembly {
  import opened Wrappers
  import opened DtlsWire

  // ---------------------------------------------------------------- bits

  /** Bit `k` of a mask byte. */
  predicate Bit(b: bv8, k: nat)
    requires k < 8
  {
    match k
    case 0 => b & 1 != 0
    case 1 => b & 2 != 0
    case 2 => b & 4 != 0
    case 3 => b & 8 != 0
    case 4 => b & 16 != 0
    case 5 => b & 32 != 0
    case 6 => b & 64 != 0
    case 7 => b & 128 != 0
  }

  function BitRange(start: nat, end: nat): bv8
    requires start <= 8 && end <= 8
  {
    ((!(((1 as bv32) << start) - 1) & (((1 as bv32) << end) - 1)) & 0xff) as bv8
  }

  /** `BitRange` sets exactly the bits from `start` up to `end`. */
  lemma BitRangeBits(start: nat, end: nat, k: nat)
    requires start <= 8 && end <= 8 && k < 8
    ensures Bit(BitRange(start, end), k) <==> start <= k < end
  {
  }

  lemma OrBits(a: bv8, b: bv8, k: nat)
    requires k < 8
    ensures Bit(a | b, k) <==> Bit(a, k) || Bit(b, k)
  {
  }

  lemma SameBits(a: bv8, b: bv8)
    requires forall k: nat | k < 8 :: Bit(a, k) == Bit(b, k)
    ensures a == b
  {
    assert Bit(a, 0) == Bit(b, 0) && Bit(a, 1) == Bit(b, 1) && Bit(a, 2) == Bit(b, 2) && Bit(a, 3) == Bit(b, 3);
    assert Bit(a, 4) == Bit(b, 4) && Bit(a, 5) == Bit(b, 5) && Bit(a, 6) == Bit(b, 6) && Bit(a, 7) == Bit(b, 7);
  }

  // ---------------------------------------------------------------- masks

  ghost predicate MaskBit(mask: seq<bv8>, i: nat)
    requires i < 8 * |mask|
  {
    Bit(mask[i / 8], i % 8)
  }

  /** A range inside one byte: what `|=` on that byte does to every bit. */
  lemma MarkedInOneByte(was: seq<bv8>, now: seq<bv8>, start: nat, end: nat, i: nat)
    requires |was| == |now| && start < end && start / 8 == end / 8 < |was| && i < 8 * |was|
    requires now == was[start / 8 := was[start / 8] | BitRange(start % 8, end % 8)]
    ensures MaskBit(now, i) <==> MaskBit(was, i) || start <= i < end
  {
    OrBits(was[i / 8], BitRange(start % 8, end % 8), i % 8);
    BitRangeBits(start % 8, end % 8, i % 8);
  }

  /** A range over several bytes: the first from its start bit, those between
      in full, the last up to its end bit. */
  lemma MarkedAcrossBytes(was: seq<bv8>, now: seq<bv8>, start: nat, end: nat, i: nat)
    requires |was| == |now| && start / 8 < end / 8 && end <= 8 * |was| && i < 8 * |was|
    requires now[start / 8] == was[start / 8] | BitRange(start % 8, 8)
    requires forall k | start / 8 < k < end / 8 :: now[k] == 0xff
    requires end % 8 != 0 ==> now[end / 8] == was[end / 8] | BitRange(0, end % 8)
    requires forall k | 0 <= k < |was| && !(start / 8 <= k < end / 8 || (k == end / 8 && end % 8 != 0)) :: now[k] == was[k]
    ensures MaskBit(now, i) <==> MaskBit(was, i) || start <= i < end
  {
    if i / 8 == start / 8 {
      OrBits(was[i / 8], BitRange(start % 8, 8), i % 8);
      BitRangeBits(start % 8, 8, i % 8);
    } else if i / 8 == end / 8 && end % 8 != 0 {
      OrBits(was[i / 8], BitRange(0, end % 8), i % 8);
      BitRangeBits(0, end % 8, i % 8);
    } else if start / 8 < i / 8 < end / 8 {
      AllOnes(i % 8);
    }
  }

  lemma AllOnes(k: nat)
    requires k < 8
    ensures Bit(0xff, k)
  {
  }

  /** The case of a range that ends in a later byte than it starts in. */
  method MarkAcross(mask: array<bv8>, start: nat, end: nat)
    requires start / 8 < end / 8 && end <= 8 * mask.Length
    modifies mask
    ensures mask[start / 8] == old(mask[start / 8]) | BitRange(start % 8, 8)
    ensures forall k | start / 8 < k < end / 8 :: mask[k] == 0xff
    ensures end % 8 != 0 ==> mask[end / 8] == old(mask[end / 8]) | BitRange(0, end % 8)
    ensures forall k | 0 <= k < mask.Length && !(start / 8 <= k < end / 8 || (k == end / 8 && end % 8 != 0)) ::
              mask[k] == old(mask[k])
  {
    var first, last := start / 8, end / 8;
    mask[first] := mask[first] | BitRange(start % 8, 8);
    for j := first + 1 to last
      invariant mask[first] == old(mask[first]) | BitRange(start % 8, 8)
      invariant forall k | first < k < j :: mask[k] == 0xff
      invariant forall k | 0 <= k < first || j <= k < mask.Length :: mask[k] == old(mask[k])
    {
      mask[j] := 0xff;
    }
    if end % 8 != 0 {
      mask[last] := mask[last] | BitRange(0, end % 8);
    }
  }

  /** Sets the bits from `start` up to `end` and changes no other bit. */
  method MarkMask(mask: array<bv8>, start: nat, end: nat)
    requires start < end <= 8 * mask.Length
    modifies mask
    ensures forall i: nat | i < 8 * mask.Length ::
              MaskBit(mask[..], i) <==> MaskBit(old(mask[..]), i) || start <= i < end
  {
    ghost var was := mask[..];
    if start / 8 == end / 8 {
      mask[start / 8] := mask[start / 8] | BitRange(start % 8, end % 8);
      forall i: nat | i < 8 * mask.Length
        ensures MaskBit(mask[..], i) <==> MaskBit(was, i) || start <= i < end
      {
        MarkedInOneByte(was, mask[..], start, end, i);
      }
    } else {
      MarkAcross(mask, start, end);
      forall i: nat | i < 8 * mask.Length
        ensures MaskBit(mask[..], i) <==> MaskBit(was, i) || start <= i < end
      {
        MarkedAcrossBytes(was, mask[..], start, end, i);
      }
    }
  }

  /** Whether the first `msgLen` bits are all set, in a mask none of whose
      later bits is. */
  method MaskFull(mask: array<bv8>, msgLen: nat) returns (full: bool)
    requires mask.Length == (msgLen + 7) / 8
    requires forall i: nat | msgLen <= i < 8 * mask.Length :: !MaskBit(mask[..], i)
    ensures full <==> forall i: nat | i < msgLen :: MaskBit(mask[..], i)
  {
    for j := 0 to msgLen / 8
      invariant forall k | 0 <= k < j :: mask[k] == 0xff
    {
      if mask[j] != 0xff {
        if forall k: nat | k < 8 :: Bit(mask[j], k) {
          SameBits(mask[j], 0xff);
        }
        ghost var k: nat :| k < 8 && !Bit(mask[j], k);
        assert !MaskBit(mask[..], 8 * j + k);
        return false;
      }
    }
    if msgLen % 8 != 0 && mask[msgLen / 8] != BitRange(0, msgLen % 8) {
      var j := msgLen / 8;
      if forall k: nat | k < msgLen % 8 :: Bit(mask[j], k) {
        forall k: nat | k < 8 ensures Bit(mask[j], k) == Bit(BitRange(0, msgLen % 8), k) {
          BitRangeBits(0, msgLen % 8, k);
          assert k >= msgLen % 8 ==> !MaskBit(mask[..], 8 * j + k);
        }
        SameBits(mask[j], BitRange(0, msgLen % 8));
      }
      ghost var k: nat :| k < msgLen % 8 && !Bit(mask[j], k);
      assert !MaskBit(mask[..], 8 * j + k);
      return false;
    }
    forall i: nat | i < msgLen ensures MaskBit(mask[..], i) {
      if i / 8 == msgLen / 8 {
        BitRangeBits(0, msgLen % 8, i % 8);
      }
    }
    return true;
  }

  // ---------------------------------------------------------------- partial messages

  /** A handshake message of which some body bytes have arrived. */
  datatype Partial = Partial(typ: byte, seqNo: nat, msgLen: nat, got: map<nat, byte>)
  {
    ghost predicate Complete() {
      forall i: nat | i < msgLen :: i in got
    }

    ghost predicate InRange() {
      forall i | i in got :: i < msgLen
    }

    ghost function Body(): (b: seq<byte>)
      requires Complete()
      ensures |b| == msgLen
    {
      seq(msgLen, i requires 0 <= i < msgLen => got[i])
    }
  }

  /** The header both ends hash in front of a message: one fragment that spans
      the whole body. */
  function WholeHeader(typ: byte, seqNo: nat, msgLen: nat): HmHeader {
    HmHeader(typ, msgLen, seqNo, 0, msgLen)
  }

  function ByteAt(off: nat, bytes: seq<byte>, i: nat): byte
    requires off <= i < off + |bytes|
  {
    bytes[i - off]
  }

  ghost function Placed(off: nat, bytes: seq<byte>): map<nat, byte> {
    map i: nat | off <= i < off + |bytes| :: ByteAt(off, bytes, i)
  }

  /** What arrival of `bytes` at offset `off` does: later bytes replace earlier
      ones, and a complete message ignores them. */
  ghost function AddBytes(p: Partial, off: nat, bytes: seq<byte>): (p': Partial)
    requires off + |bytes| <= p.msgLen
    ensures p.InRange() ==> p'.InRange()
  {
    if p.Complete() then p
    else p.(got := p.got + Placed(off, bytes))
  }

  /** `AddBytes` seen one index at a time. */
  lemma AddBytesPointwise(p: Partial, q: Partial, off: nat, bytes: seq<byte>)
    requires off + |bytes| <= p.msgLen && p.InRange() && q.InRange() && !p.Complete()
    requires q.typ == p.typ && q.seqNo == p.seqNo && q.msgLen == p.msgLen
    requires forall i: nat | i < p.msgLen :: i in q.got <==> i in p.got || off <= i < off + |bytes|
    requires forall i: nat | i in q.got ::
               q.got[i] == if off <= i < off + |bytes| then ByteAt(off, bytes, i) else p.got[i]
    ensures q == AddBytes(p, off, bytes)
  {
    assert q.got == p.got + Placed(off, bytes);
  }

  datatype Piece = Piece(off: nat, bytes: seq<byte>)

  ghost predicate PieceFits(p: Partial, x: Piece) {
    x.off + |x.bytes| <= p.msgLen
  }

  predicate Covers(x: Piece, i: nat) {
    x.off <= i < x.off + |x.bytes|
  }

  ghost function AddPieces(p: Partial, xs: seq<Piece>): (p': Partial)
    requires forall x | x in xs :: PieceFits(p, x)
    ensures p'.typ == p.typ && p'.seqNo == p.seqNo && p'.msgLen == p.msgLen
    decreases |xs|
  {
    if xs == [] then p
    else
      var q := AddPieces(p, xs[..|xs| - 1]);
      assert PieceFits(p, xs[|xs| - 1]);
      AddBytes(q, xs[|xs| - 1].off, xs[|xs| - 1].bytes)
  }

  /** After any run of arrivals, a byte index is present exactly when it was
      there before or some arrival covered it. */
  lemma {:induction false} PresentIffCovered(p: Partial, xs: seq<Piece>, i: nat)
    requires p.InRange() && forall x | x in xs :: PieceFits(p, x)
    requires i < p.msgLen
    ensures i in AddPieces(p, xs).got <==> i in p.got || exists x | x in xs :: Covers(x, i)
  {
    if xs == [] {
    } else {
      var ys, z := xs[..|xs| - 1], xs[|xs| - 1];
      PresentIffCovered(p, ys, i);
      var q := AddPieces(p, ys);
      assert i in AddPieces(p, xs).got <==> i in q.got || Covers(z, i) by {
        assert PieceFits(p, z);
        assert q.Complete() ==> i in q.got;
      }
      assert (exists x | x in xs :: Covers(x, i)) <==> (exists x | x in ys :: Covers(x, i)) || Covers(z, i);
    }
  }

  /** A completed message never changes again. */
  lemma {:induction false} CompleteIsFinal(p: Partial, xs: seq<Piece>)
    requires p.Complete() && forall x | x in xs :: PieceFits(p, x)
    ensures AddPieces(p, xs) == p
  {
    if xs == [] {
    } else {
      CompleteIsFinal(p, xs[..|xs| - 1]);
    }
  }

  // ---------------------------------------------------------------- hm_fragment

  /** An incoming message, possibly not yet assembled. `reassembly` is null
      once the whole body is there. */
  class HmFragment {
    const typ: byte
    const seqNo: nat
    const msgLen: nat
    const data: array<byte>
    var reassembly: array?<bv8>

    ghost predicate Received(i: nat)
      requires reassembly != null ==> i < 8 * reassembly.Length
      reads this, reassembly
    {
      reassembly == null || MaskBit(reassembly[..], i)
    }

    ghost function BodyByte(i: nat): byte
      requires data.Length == HM_HEADER_LENGTH + msgLen && i < msgLen
      reads data
    {
      data[HM_HEADER_LENGTH + i]
    }

    ghost predicate MaskShape()
      reads this, reassembly
    {
      reassembly != null ==>
        && reassembly.Length == (msgLen + 7) / 8
        && (forall i: nat | msgLen <= i < 8 * reassembly.Length :: !MaskBit(reassembly[..], i))
    }

    ghost predicate Valid()
      reads this, data, reassembly
    {
      && msgLen < 0x100_0000 && seqNo < 0x1_0000
      && data.Length == HM_HEADER_LENGTH + msgLen
      && data[..HM_HEADER_LENGTH] == SerializeHeader(WholeHeader(typ, seqNo, msgLen))
      && MaskShape()
      && (reassembly != null ==> exists i: nat :: i < msgLen && !Received(i))
    }

    ghost function Abs(): (p: Partial)
      requires Valid()
      reads this, data, reassembly
      ensures p.InRange()
    {
      Partial(typ, seqNo, msgLen, map i: nat | i < msgLen && Received(i) :: BodyByte(i))
    }

    /** `dtls1_hm_fragment_new`: the header is written out, no body byte is there. */
    constructor (h: HmHeader)
      requires h.Fits()
      ensures Valid() && fresh(data) && (reassembly != null ==> fresh(reassembly))
      ensures Abs() == Partial(h.typ, h.seqNo, h.msgLen, map[])
    {
      typ, seqNo, msgLen := h.typ, h.seqNo, h.msgLen;
      var header := SerializeHeader(WholeHeader(h.typ, h.seqNo, h.msgLen));
      var bytes := new byte[HM_HEADER_LENGTH + h.msgLen];
      forall i | 0 <= i < HM_HEADER_LENGTH {
        bytes[i] := header[i];
      }
      data := bytes;
      if h.msgLen > 0 {
        reassembly := new bv8[(h.msgLen + 7) / 8](_ => 0);
      } else {
        reassembly := null;
      }
      new;
      assert data[..HM_HEADER_LENGTH] == header;
      if h.msgLen > 0 {
        forall i: nat | i < 8 * reassembly.Length ensures !MaskBit(reassembly[..], i) {
          NoOnes(i % 8);
        }
        assert !Received(0);
      }
    }

    /** Marks a range as received; drops the mask once nothing is missing. */
    method Mark(start: nat, end: nat)
      requires Valid() && reassembly != null && start <= end <= msgLen
      modifies this`reassembly, reassembly
      ensures Valid()
      ensures forall i: nat | i < msgLen :: Received(i) <==> old(Received(i)) || start <= i < end
      ensures reassembly == null || reassembly == old(reassembly)
      ensures reassembly == null <==> forall i: nat | i < msgLen :: Received(i)
    {
      if start == end {
        ghost var gap: nat :| gap < msgLen && !Received(gap);
        return;
      }
      MarkMask(reassembly, start, end);
      ghost var now := reassembly[..];
      assert forall i: nat | i < msgLen :: MaskBit(now, i) <==> old(Received(i)) || start <= i < end;
      var full := MaskFull(reassembly, msgLen);
      if full {
        reassembly := null;
      } else {
        ghost var i: nat :| i < msgLen && !MaskBit(reassembly[..], i);
        assert !Received(i);
      }
    }

    method CopyIn(off: nat, body: seq<byte>)
      requires data.Length == HM_HEADER_LENGTH + msgLen && off + |body| <= msgLen
      modifies data
      ensures data[..HM_HEADER_LENGTH] == old(data[..HM_HEADER_LENGTH])
      ensures forall i: nat | i < msgLen ::
                BodyByte(i) == if off <= i < off + |body| then ByteAt(off, body, i) else old(BodyByte(i))
    {
      forall i | 0 <= i < |body| {
        data[HM_HEADER_LENGTH + off + i] := body[i];
      }
    }

    /** Copies part of the body into place and marks it. */
    method Fill(off: nat, body: seq<byte>)
      requires Valid() && reassembly != null && off + |body| <= msgLen
      modifies this`reassembly, reassembly, data
      ensures Valid()
      ensures Abs() == AddBytes(old(Abs()), off, body)
      ensures reassembly == null || reassembly == old(reassembly)
    {
      ghost var was := Abs();
      ghost var gap: nat :| gap < msgLen && !Received(gap);
      assert gap !in was.got;
      CopyIn(off, body);
      assert !Received(gap);
      Mark(off, off + |body|);
      AddBytesPointwise(was, Abs(), off, body);
    }
  }

  lemma NoOnes(k: nat)
    requires k < 8
    ensures !Bit(0, k)
  {
  }

  /** The mask is gone exactly when the message is complete, and then the
      stored bytes are the message's header and body. */
  lemma NullMaskMeansComplete(f: HmFragment)
    requires f.Valid()
    ensures f.reassembly == null <==> f.Abs().Complete()
    ensures f.reassembly == null ==>
              f.data[..] == SerializeHeader(WholeHeader(f.typ, f.seqNo, f.msgLen)) + f.Abs().Body()
  {
    if f.reassembly != null {
      var i: nat :| i < f.msgLen && !f.Received(i);
      assert i !in f.Abs().got;
    } else {
      assert f.data[..] == f.data[..HM_HEADER_LENGTH] + f.data[HM_HEADER_LENGTH..];
      assert f.data[HM_HEADER_LENGTH..] == f.Abs().Body();
    }
  }
}
