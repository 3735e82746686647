/** Runs of atomic steps of any system, and what holds at every point of them. */
module Interleavings {

  ghost function Run<S, E>(next: (S, E) -> S, s: S, es: seq<E>): S
    decreases |es|
  {
    if es == [] then s else Run(next, next(s, es[0]), es[1..])
  }

  /** The predicate holds before, between and after the steps of a run. */
  ghost predicate Throughout<S, E>(next: (S, E) -> S, s: S, es: seq<E>, p: S -> bool)
    decreases |es|
  {
    p(s) && (es != [] ==> Throughout(next, next(s, es[0]), es[1..], p))
  }

  /** No step of the run is taken in a state in which it is bad. */
  ghost predicate Never<S, E>(next: (S, E) -> S, s: S, es: seq<E>, bad: (S, E) -> bool)
    decreases |es|
  {
    es != [] ==> !bad(s, es[0]) && Never(next, next(s, es[0]), es[1..], bad)
  }

  lemma RunOfThree<S, E>(next: (S, E) -> S, s: S, a: E, b: E, c: E)
    ensures Run(next, s, [a, b, c]) == next(next(next(s, a), b), c)
  {
    assert [a, b, c][1..] == [b, c] && [b, c][1..] == [c] && [c][1..] == [];
    var y := next(next(s, a), b);
    assert Run(next, y, [c]) == next(y, c);
    assert Run(next, next(s, a), [b, c]) == Run(next, y, [c]);
  }

  /**
   If steady states are good, steps that are not bad keep them steady, and bad ones make them
   no longer good, then a run is good throughout exactly if it takes no bad step.
   */
  lemma {:induction false} GoodExactly<S(!new), E(!new)>(
    next: (S, E) -> S, s: S, es: seq<E>, steady: S -> bool, good: S -> bool, bad: (S, E) -> bool)
    requires steady(s)
    requires forall t :: steady(t) ==> good(t)
    requires forall t, e :: steady(t) ==> if bad(t, e) then !good(next(t, e)) else steady(next(t, e))
    ensures Never(next, s, es, bad) <==> Throughout(next, s, es, good)
    decreases |es|
  {
    if es != [] {
      var t := next(s, es[0]);
      if bad(s, es[0]) {
        assert !good(t) && !Throughout(next, t, es[1..], good);
      } else {
        GoodExactly(next, t, es[1..], steady, good, bad);
      }
    }
  }
}
