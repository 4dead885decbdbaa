/** The 64-wide replay window of a DTLS read epoch (RFC 6347, section 4.1.2.6;
    dtls_record.cc, `dtls1_bitmap_should_discard` and `dtls1_bitmap_record`). */
module DtlsReplay {
  import opened Arith

  const WINDOW_SIZE := 64

  /** What the window stands for: the largest number recorded and all numbers
      recorded since the epoch began. */
  datatype Window = Window(max: nat, seen: set<nat>)
  {
    predicate Discards(s: nat) {
      s + WINDOW_SIZE <= max || s in seen
    }

    function Record(s: nat): Window {
      Window(if s > max then s else max, seen + {s})
    }
  }

  const EMPTY_WINDOW := Window(0, {})

  /** Window after recording every number of `xs`, each only if it was not to
      be discarded at that point, as dtls_open_record does. */
  function Accept(w: Window, xs: seq<nat>): (Window, seq<nat>)
    decreases |xs|
  {
    if xs == [] then (w, [])
    else
      var (v, accepted) := Accept(w, xs[..|xs| - 1]);
      var x := xs[|xs| - 1];
      if v.Discards(x) then (v, accepted) else (v.Record(x), accepted + [x])
  }

  /** No number is accepted twice, however the arrivals are ordered, and the
      window has seen exactly the accepted ones. */
  lemma {:induction false} AcceptedOnce(xs: seq<nat>)
    ensures var (v, accepted) := Accept(EMPTY_WINDOW, xs);
            && v.seen == (set x | x in accepted)
            && (forall i, j :: 0 <= i < j < |accepted| ==> accepted[i] != accepted[j])
            && (forall x | x in accepted :: x <= v.max)
  {
    if xs == [] {
    } else {
      AcceptedOnce(xs[..|xs| - 1]);
    }
  }

  class ReplayWindow {
    // map is a 64-bit word; bit i stands for maxSeq - i.
    var map_: nat
    var maxSeq: nat
    ghost var seen: set<nat>

    ghost predicate Valid()
      reads this
    {
      && map_ < Pow2(64)
      && (forall s | s in seen :: s <= maxSeq)
      && (forall i: nat | i < WINDOW_SIZE :: BitAt(map_, i) <==> i <= maxSeq && maxSeq - i in seen)
    }

    ghost function Abs(): Window
      reads this
    {
      Window(maxSeq, seen)
    }

    constructor ()
      ensures Valid() && Abs() == EMPTY_WINDOW
    {
      map_, maxSeq, seen := 0, 0, {};
      new;
      forall i: nat | i < WINDOW_SIZE ensures !BitAt(map_, i) {
        ZeroBit(i);
      }
    }

    /** The memset of dtls1_set_read_state. */
    method Reset()
      modifies this
      ensures Valid() && Abs() == EMPTY_WINDOW
    {
      map_, maxSeq, seen := 0, 0, {};
      forall i: nat | i < WINDOW_SIZE ensures !BitAt(map_, i) {
        ZeroBit(i);
      }
    }

    method ShouldDiscard(s: nat) returns (discard: bool)
      requires Valid()
      ensures discard <==> Abs().Discards(s)
    {
      if s > maxSeq {
        return false;
      }
      var idx := maxSeq - s;
      return idx >= WINDOW_SIZE || BitAt(map_, idx);
    }

    /** The window after its front has moved to `s`. */
    method SlideTo(s: nat)
      requires Valid() && s > maxSeq
      modifies this
      ensures Valid() && maxSeq == s && seen == old(seen)
    {
      ghost var was := map_;
      var shift := s - maxSeq;
      if shift >= WINDOW_SIZE {
        map_ := 0;
      } else {
        map_ := map_ * Pow2(shift) % Pow2(64);
      }
      maxSeq := s;
      forall i: nat | i < WINDOW_SIZE ensures BitAt(map_, i) <==> shift <= i && BitAt(was, i - shift) {
        ZeroBit(i);
        if shift < WINDOW_SIZE {
          ShiftedWordBit(was, shift, 64, i);
        }
      }
    }

    method Record(s: nat)
      requires Valid()
      modifies this
      ensures Valid() && Abs() == old(Abs()).Record(s)
    {
      if s > maxSeq {
        SlideTo(s);
      }
      seen := seen + {s};
      var idx := maxSeq - s;
      if idx < WINDOW_SIZE {
        forall i: nat | i < WINDOW_SIZE
          ensures BitAt(WithBit(map_, idx), i) <==> i == idx || BitAt(map_, i)
        {
          WithBitBits(map_, idx, i);
        }
        WithBitFits(map_, idx, 64);
        map_ := WithBit(map_, idx);
      }
    }
  }
}
