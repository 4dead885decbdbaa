/** The cyclic iterator over the fields of a descriptor (pb_common.c). */
module PbIterator {
  import opened Wrappers
  import opened PbVarint
  import opened PbDescriptor

  const PB_SIZE_MAX := U32 - 1

  /** How many required fields come before field i. */
  function ReqIndex(fields: seq<Field>, i: nat): nat
    requires i <= |fields|
  {
    if i == 0 then 0 else ReqIndex(fields, i - 1) + if fields[i - 1].rule.Required? then 1 else 0
  }

  /** The bytes that a field takes in its structure. */
  function Span(f: Field): nat {
    if f.rule.Repeated? then f.size * f.rule.max else f.size
  }

  /** A further member of the union that the field before it is in. */
  predicate SharesUnion(prev: Field, f: Field) {
    prev.rule.Oneof? && f.rule.Oneof? && f.place.offset == PB_SIZE_MAX
  }

  /** Where the data of field i is, from the start of the structure: the spans
      and gaps before it, added up. */
  function DataAt(fields: seq<Field>, i: nat): nat
    requires i < |fields|
  {
    if i == 0 then fields[0].place.offset
    else if SharesUnion(fields[i - 1], fields[i]) then DataAt(fields, i - 1)
    else DataAt(fields, i - 1) + Span(fields[i - 1]) + fields[i].place.offset
  }

  /** Where the flag or count of field i is. */
  function SizeAt(fields: seq<Field>, i: nat): int
    requires i < |fields|
  {
    if i > 0 && SharesUnion(fields[i - 1], fields[i]) then SizeAt(fields, i - 1)
    else DataAt(fields, i) + fields[i].place.sizeOffset
  }

  function FindTag(fields: seq<Field>, tag: nat): (r: Option<nat>)
    ensures r.Some? ==> r.value < |fields| && fields[r.value].tag == tag
    ensures r.None? ==> forall i | 0 <= i < |fields| :: fields[i].tag != tag
  {
    if fields == [] then None
    else if fields[0].tag == tag then Some(0)
    else match FindTag(fields[1..], tag) case None => None case Some(i) => Some(i + 1)
  }

  lemma {:induction false} DataGrows(fields: seq<Field>, i: nat, j: nat)
    requires i <= j < |fields|
    ensures DataAt(fields, i) <= DataAt(fields, j)
  {
    if i == j {
    } else {
      DataGrows(fields, i, j - 1);
    }
  }

  /** Two fields lie apart, each behind all of the one before it, unless they are
      members of one union. */
  lemma FieldsApart(fields: seq<Field>, i: nat, j: nat)
    requires i < j < |fields| && !SharesUnion(fields[i], fields[i + 1])
    ensures DataAt(fields, i) + fields[i].size * (if fields[i].rule.Repeated? then fields[i].rule.max else 1) <= DataAt(fields, j)
  {
    DataGrows(fields, i + 1, j);
  }

  /** Members of one union lie in the same place, with one tag for all. */
  lemma UnionShared(fields: seq<Field>, i: nat)
    requires i + 1 < |fields| && SharesUnion(fields[i], fields[i + 1])
    ensures DataAt(fields, i) == DataAt(fields, i + 1) && SizeAt(fields, i) == SizeAt(fields, i + 1)
  {
  }

  class FieldIter {
    const fields: seq<Field>
    var pos: nat
    var required: nat
    var data: nat
    var size: int

    ghost predicate Valid()
      reads this
    {
      if fields == [] then pos == 0 && required == 0
      else
        && pos < |fields| && required == ReqIndex(fields, pos)
        && data == DataAt(fields, pos) && size == SizeAt(fields, pos)
    }

    constructor (fields: seq<Field>)
      ensures this.fields == fields && Valid() && pos == 0
    {
      this.fields := fields;
      pos, required := 0, 0;
      data := if fields == [] then 0 else fields[0].place.offset;
      size := if fields == [] then 0 else fields[0].place.offset + fields[0].place.sizeOffset;
    }

    /** `pb_field_iter_begin` on an iterator that has wrapped around. */
    method Rewind()
      requires fields != []
      modifies this
      ensures Valid() && pos == 0
    {
      pos, required := 0, 0;
      data := fields[0].place.offset;
      size := data + fields[0].place.sizeOffset;
    }

    /** `pb_field_iter_next` */
    method Next() returns (more: bool)
      requires Valid()
      modifies this
      ensures Valid() && (more <==> old(pos) + 1 < |fields|)
      ensures pos == if more then old(pos) + 1 else 0
    {
      if fields == [] {
        return false;
      }
      var prev := fields[pos];
      if pos + 1 == |fields| {
        Rewind();
        return false;
      }
      pos := pos + 1;
      var f := fields[pos];
      if prev.rule.Oneof? && f.rule.Oneof? && f.place.offset == PB_SIZE_MAX {
        return true;
      }
      var span := if prev.rule.Repeated? then prev.size * prev.rule.max else prev.size;
      if prev.rule.Required? {
        required := required + 1;
      }
      data := data + span + f.place.offset;
      size := data + f.place.sizeOffset;
      return true;
    }

    /** `pb_field_iter_find`: from any position it ends, on a field with the tag
        if there is one, and otherwise where it began. An empty list stands on
        its terminator, whose tag is 0. */
    method Find(tag: nat) returns (found: bool)
      requires Valid()
      modifies this
      ensures Valid() && (!found ==> pos == old(pos))
      ensures fields == [] ==> (found <==> tag == 0)
      ensures fields != [] ==> (found <==> exists i :: 0 <= i < |fields| && fields[i].tag == tag)
      ensures found && fields != [] ==> fields[pos].tag == tag
      ensures found && fields != [] ==>
                forall i | 0 <= i < |fields| && fields[i].tag == tag :: Distance(old(pos), pos, |fields|) <= Distance(old(pos), i, |fields|)
    {
      var start := pos;
      if fields == [] {
        if tag == 0 {
          return true;
        }
        var _ := Next();
        return false;
      }
      ghost var steps := 0;
      while true
        invariant Valid() && steps < |fields| && Distance(start, pos, |fields|) == steps
        invariant forall i | 0 <= i < |fields| && Distance(start, i, |fields|) < steps :: fields[i].tag != tag
        decreases |fields| - steps
      {
        if fields[pos].tag == tag {
          return true;
        }
        var _ := Next();
        if pos == start {
          return false;
        }
        steps := steps + 1;
      }
    }

    /** How many required fields there are: the iterator runs to the end, and the
        last field is counted in. */
    method CountRequired() returns (n: nat)
      requires Valid()
      modifies this
      ensures Valid() && n == ReqIndex(fields, |fields|)
    {
      var last := pos;
      n := required;
      var more := Next();
      while more
        invariant Valid()
        invariant more ==> last + 1 == pos
        invariant fields == [] ==> n == 0 && !more
        invariant fields != [] ==> last < |fields| && n == ReqIndex(fields, last) && (!more ==> last + 1 == |fields|)
        decreases |fields| - last, more
      {
        n := required;
        last := pos;
        more := Next();
      }
      if fields != [] && fields[last].rule.Required? {
        n := n + 1;
      }
    }
  }

  /** Steps from a to b around a cycle of n. */
  function Distance(a: nat, b: nat, n: nat): nat
    requires a < n && b < n
  {
    if b >= a then b - a else b + n - a
  }
}
