/** Paths of a labelled relation: a sequence of labels that leads from one
    state to another, one step a label. */
module Paths {
  ghost predicate Path<P(!new), X>(step: (P, X, P) -> bool, p: P, xs: seq<X>, q: P)
    decreases |xs|
  {
    if xs == [] then p == q
    else exists mid :: step(p, xs[0], mid) && Path(step, mid, xs[1..], q)
  }

  lemma PathOne<P(!new), X>(step: (P, X, P) -> bool, p: P, x: X, q: P)
    requires step(p, x, q)
    ensures Path(step, p, [x], q)
  {
    assert [x][1..] == [] && Path(step, q, [], q);
  }

  lemma {:induction false} PathAppend<P(!new), X>(step: (P, X, P) -> bool, p: P, xs: seq<X>, m: P, ys: seq<X>, q: P)
    requires Path(step, p, xs, m) && Path(step, m, ys, q)
    ensures Path(step, p, xs + ys, q)
    decreases |xs|
  {
    if xs == [] {
      assert xs + ys == ys;
    } else {
      var mid :| step(p, xs[0], mid) && Path(step, mid, xs[1..], m);
      PathAppend(step, mid, xs[1..], m, ys, q);
      assert (xs + ys)[0] == xs[0] && (xs + ys)[1..] == xs[1..] + ys;
    }
  }
}
