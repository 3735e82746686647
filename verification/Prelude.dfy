/** Small shared vocabulary: optional values, results, ends of sequences, distinctness and counting. */
module Prelude {

  datatype Option<+T> = None | Some(value: T)

  datatype Result<+T, +E> = Ok(value: T) | Err(error: E)

  type User = string

  type Id = string

  /** Where a puzzle attempt stands; Completed and, for a challenge, Failed are final. */
  datatype Status = InProgress | Completed | Failed

  /** Everything but the last element of a non-empty sequence. */
  function Init<T>(s: seq<T>): seq<T>
    requires s != []
  {
    s[..|s| - 1]
  }

  function Last<T>(s: seq<T>): T
    requires s != []
  {
    s[|s| - 1]
  }

  /** No value occurs at two positions. */
  ghost predicate Distinct<T>(s: seq<T>) {
    forall i, j :: 0 <= i < j < |s| ==> s[i] != s[j]
  }

  ghost function Elements<T>(s: seq<T>): set<T> {
    set x | x in s
  }

  /** Some element of a non-empty set. */
  ghost function Pick<T>(s: set<T>): (x: T)
    requires s != {}
    ensures x in s
  {
    var x :| x in s; x
  }

  /** A distinct sequence has as many elements as positions. */
  lemma {:induction false} DistinctCardinality<T>(s: seq<T>)
    requires Distinct(s)
    ensures |Elements(s)| == |s|
  {
    if s == [] {
      assert Elements(s) == {};
    } else {
      DistinctCardinality(Init(s));
      assert Elements(s) == Elements(Init(s)) + {Last(s)};
    }
  }

  /** A subset of a finite set is no larger, and is the whole set when it is as large. */
  lemma {:induction false} SubsetCardinality<T>(a: set<T>, b: set<T>)
    requires a <= b
    ensures |a| <= |b|
    ensures |a| == |b| ==> a == b
    decreases |b|
  {
    if b != a {
      var x :| x in b && x !in a;
      SubsetCardinality(a, b - {x});
    }
  }

  /** Pigeonhole: distinct values drawn from a set fill it exactly when there are enough of them. */
  lemma Pigeonhole<T>(s: seq<T>, universe: set<T>)
    requires Distinct(s)
    requires forall x :: x in s ==> x in universe
    ensures |s| <= |universe|
    ensures |s| == |universe| <==> forall x :: x in universe ==> x in s
  {
    DistinctCardinality(s);
    SubsetCardinality(Elements(s), universe);
    if forall x :: x in universe ==> x in s {
      assert Elements(s) == universe;
    }
  }

  predicate Within(lo: int, x: int, hi: int) {
    lo <= x < hi
  }

  /** The integers lo, lo+1, ..., hi-1. */
  ghost function Range(lo: int, hi: int): set<int> {
    set x: int | lo <= x < hi && Within(lo, x, hi)
  }

  lemma {:induction false} RangeCardinality(lo: int, hi: int)
    requires lo <= hi
    ensures |Range(lo, hi)| == hi - lo
    decreases hi - lo
  {
    if lo == hi {
      assert Range(lo, hi) == {};
    } else {
      RangeCardinality(lo, hi - 1);
      assert Range(lo, hi) == Range(lo, hi - 1) + {hi - 1};
    }
  }
}
