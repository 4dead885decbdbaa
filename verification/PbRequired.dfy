/** When decoding fails for a missing required field (pb_decode.c). */
module PbRequired {
  import opened Wrappers
  import opened PbVarint
  import opened PbDescriptor
  import opened PbIterator
  import opened PbDecoderSpec

  /** The fields of the descriptor that the input holds, in any order, as far as
      it is read. */
  ghost function Occurring(d: Desc, s: seq<byte>, st: State): set<nat>
    decreases |s|
  {
    if s == [] || ReadVarint32(s).None? || ReadVarint32(s).value.0 == 0 then {}
    else
      var (key, rest) := ReadVarint32(s).value;
      match DecStep(d, key, rest, st)
      case None => {}
      case Some((st', rest')) => Met(d, key) + Occurring(d, rest', st')
  }

  function Met(d: Desc, key: nat): set<nat> {
    match FindTag(d.fields, key / 8) case None => {} case Some(i) => {i}
  }

  /** Field i is one of the first 64 required fields: the others are not checked. */
  predicate Tracked(d: Desc, i: nat) {
    i < |d.fields| && d.fields[i].rule.Required? && ReqIndex(d.fields, i) < MAX_REQUIRED
  }

  /** The ordinals of the tracked fields among `met`. */
  ghost function Ordinals(d: Desc, met: set<nat>): set<nat> {
    set i | i in met && Tracked(d, i) :: ReqIndex(d.fields, i)
  }

  lemma OrdinalsUnion(d: Desc, a: set<nat>, b: set<nat>)
    ensures Ordinals(d, a + b) == Ordinals(d, a) + Ordinals(d, b)
  {
  }

  lemma StepSees(d: Desc, key: nat, s: seq<byte>, st: State)
    requires DecStep(d, key, s, st).Some?
    ensures DecStep(d, key, s, st).value.0.seen == st.seen + Ordinals(d, Met(d, key))
  {
    hide DecSlot, Skip;
    match FindTag(d.fields, key / 8)
    case None => assert Ordinals(d, {}) == {};
    case Some(i) => assert Ordinals(d, {i}) == if Tracked(d, i) then {ReqIndex(d.fields, i)} else {};
  }

  /** The bit set holds exactly the tracked fields that occurred. */
  lemma {:induction false} LoopSees(d: Desc, s: seq<byte>, st: State)
    requires DecLoop(d, s, st).Some?
    ensures DecLoop(d, s, st).value.0.seen == st.seen + Ordinals(d, Occurring(d, s, st))
    decreases |s|
  {
    hide ReadVarint32, DecStep, Ordinals;
    if s == [] || ReadVarint32(s).value.0 == 0 {
      assert Ordinals(d, {}) == {} by { NoOrdinals(d); }
    } else {
      var (key, rest) := ReadVarint32(s).value;
      var (st', rest') := DecStep(d, key, rest, st).value;
      StepSees(d, key, rest, st);
      LoopSees(d, rest', st');
      OrdinalsUnion(d, Met(d, key), Occurring(d, rest', st'));
    }
  }

  lemma NoOrdinals(d: Desc)
    ensures Ordinals(d, {}) == {}
  {
  }

  /** Every ordinal below the number of required fields belongs to one field. */
  lemma {:induction false} FieldOfOrdinal(fields: seq<Field>, n: nat, k: nat) returns (i: nat)
    requires n <= |fields| && k < ReqIndex(fields, n)
    ensures i < n && fields[i].rule.Required? && ReqIndex(fields, i) == k
  {
    if ReqIndex(fields, n - 1) == k {
      i := n - 1;
    } else {
      i := FieldOfOrdinal(fields, n - 1, k);
    }
  }

  lemma {:induction false} OrdinalsDiffer(fields: seq<Field>, i: nat, j: nat)
    requires i < j <= |fields| && fields[i].rule.Required?
    ensures ReqIndex(fields, i) < ReqIndex(fields, j)
  {
    if i + 1 == j {
    } else {
      OrdinalsDiffer(fields, i, j - 1);
    }
  }

  /** Decoding succeeds exactly if the loop does, the last array of fixed count
      is full, and every one of the first 64 required fields occurred. */
  lemma SucceedsIffRequiredOccur(d: Desc, s: seq<byte>, m: Message)
    requires DecLoop(d, s, Start(m)).Some?
    ensures DecMsg(d, s, m).Some? <==>
              && FixedFull(d, DecLoop(d, s, Start(m)).value.0)
              && forall i: nat | Tracked(d, i) :: i in Occurring(d, s, Start(m))
  {
    hide DecLoop, Occurring;
    LoopSees(d, s, Start(m));
    var seen, met := DecLoop(d, s, Start(m)).value.0.seen, Occurring(d, s, Start(m));
    forall i: nat | Tracked(d, i) ensures i in met <==> ReqIndex(d.fields, i) in seen {
      if ReqIndex(d.fields, i) in seen {
        var j :| j in met && Tracked(d, j) && ReqIndex(d.fields, j) == ReqIndex(d.fields, i);
        if i < j {
          OrdinalsDiffer(d.fields, i, j);
        } else if j < i {
          OrdinalsDiffer(d.fields, j, i);
        }
      }
    }
    if forall i: nat | Tracked(d, i) :: i in met {
      forall k | 0 <= k < ReqIndex(d.fields, |d.fields|) && k < MAX_REQUIRED ensures k in seen {
        var i := FieldOfOrdinal(d.fields, |d.fields|, k);
        assert Tracked(d, i);
      }
    }
    forall i: nat | Tracked(d, i) ensures ReqIndex(d.fields, i) < ReqIndex(d.fields, |d.fields|) {
      OrdinalsDiffer(d.fields, i, |d.fields|);
    }
  }

  /** With at most 64 required fields none of them escapes the check. */
  lemma AllTracked(d: Desc, i: nat)
    requires i < |d.fields| && d.fields[i].rule.Required? && ReqIndex(d.fields, |d.fields|) <= MAX_REQUIRED
    ensures Tracked(d, i)
  {
    OrdinalsDiffer(d.fields, i, |d.fields|);
  }
}
