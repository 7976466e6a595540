/** Filtering a list, as the repository's `filter` chains do. */
module Sequences {

  function Filter<T>(xs: seq<T>, p: T -> bool): seq<T> {
    if xs == [] then [] else (if p(xs[0]) then [xs[0]] else []) + Filter(xs[1..], p)
  }

  lemma {:induction false} FilterHolds<T>(xs: seq<T>, p: T -> bool, x: T)
    ensures x in Filter(xs, p) <==> x in xs && p(x)
  {
    if xs != [] {
      FilterHolds(xs[1..], p, x);
    }
  }

  lemma Associates<T>(x: seq<T>, y: seq<T>, z: seq<T>)
    ensures x + (y + z) == x + y + z
  {
  }

  lemma FilterStep<T>(x: T, rest: seq<T>, p: T -> bool)
    ensures Filter([x] + rest, p) == (if p(x) then [x] else []) + Filter(rest, p)
  {
    assert ([x] + rest)[1..] == rest;
  }

  lemma {:induction false} FilterOfTwo<T>(a: seq<T>, b: seq<T>, p: T -> bool)
    ensures Filter(a + b, p) == Filter(a, p) + Filter(b, p)
  {
    if a == [] {
      assert a + b == b;
    } else {
      var x, rest := a[0], a[1..];
      FilterOfTwo(rest, b, p);
      Associates([x], rest, b);
      assert a == [x] + rest;
      FilterStep(x, rest, p);
      FilterStep(x, rest + b, p);
      Associates(if p(x) then [x] else [], Filter(rest, p), Filter(b, p));
    }
  }

  /** An element that fails the test can come or go anywhere. */
  lemma {:induction false} FilterSkips<T>(a: seq<T>, x: T, b: seq<T>, p: T -> bool)
    requires !p(x)
    ensures Filter(a + [x] + b, p) == Filter(a + b, p)
  {
    FilterOfTwo(a + [x], b, p);
    FilterOfTwo(a, [x], p);
    FilterOfTwo(a, b, p);
  }

  /** The list with element i moved to the front. */
  function MovedFirst<T>(xs: seq<T>, i: nat): (r: seq<T>)
    requires i < |xs|
    ensures multiset(r) == multiset(xs) && r != [] && r[0] == xs[i]
  {
    assert xs == xs[..i] + [xs[i]] + xs[i + 1..];
    [xs[i]] + (xs[..i] + xs[i + 1..])
  }
}
