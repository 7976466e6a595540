/** The sides that the verifiers' loops walk, as a matter of arithmetic alone.
    PathSides goes down the tree by splitting at powers of two; Route goes up by
    shifting the two integers fn and sn. They are the same list. */
module Routes {
  import opened Int32
  import opened Merkle
  import opened AuditPath

  /** The sides from entry m up to the root of a tree of n entries. */
  function PathSides(m: nat, n: nat): seq<Side>
    requires m < n
    decreases n
  {
    if n == 1 then []
    else
      SplitPointIsUnique(n, SplitPoint(n));
      var k := SplitPoint(n);
      if m < k then PathSides(m, k) + [FromRight] else PathSides(m - k, n - k) + [FromLeft]
  }

  /** The sides up from the largest subtree that ends with entry m - 1, in a tree of n entries. */
  function ConsistencySides(m: nat, n: nat): seq<Side>
    requires 0 < m <= n
    decreases n
  {
    if m == n then []
    else
      SplitPointIsUnique(n, SplitPoint(n));
      var k := SplitPoint(n);
      if m <= k then ConsistencySides(m, k) + [FromRight] else ConsistencySides(m - k, n - k) + [FromLeft]
  }

  /** Both lists split where the tree splits. */
  lemma SidesBelow(m: nat, n: nat, k: nat)
    requires IsPow2(k) && k < n <= 2 * k
    ensures m < k ==> PathSides(m, n) == PathSides(m, k) + [FromRight]
    ensures 0 < m <= k ==> ConsistencySides(m, n) == ConsistencySides(m, k) + [FromRight]
  {
    SplitPointIsUnique(n, k);
  }

  lemma SidesAbove(m: nat, n: nat, k: nat)
    requires IsPow2(k) && k < n <= 2 * k
    ensures k <= m < n ==> PathSides(m, n) == PathSides(m - k, n - k) + [FromLeft]
    ensures k < m < n ==> ConsistencySides(m, n) == ConsistencySides(m - k, n - k) + [FromLeft]
  {
    SplitPointIsUnique(n, k);
  }

  /** x with its factors of two removed: where the inner loop stops. */
  function OddPart(x: nat): (r: nat)
    requires x > 0
    ensures 0 < r <= x && r % 2 == 1
  {
    if x % 2 == 1 then x else OddPart(x / 2)
  }

  /** The verifiers' main loop over unbounded integers: the sides until sn reaches 0. */
  function Route(fn: nat, sn: nat): seq<Side>
    requires fn <= sn
    decreases sn
  {
    if sn == 0 then []
    else if fn % 2 == 1 then [FromLeft] + Route(fn / 2, sn / 2)
    else if fn == sn then [FromLeft] + Route(OddPart(fn) / 2, OddPart(fn) / 2)
    else [FromRight] + Route(fn / 2, sn / 2)
  }

  /** The consistency verifier first drops the trailing ones of fn. */
  function StrippedRoute(fn: nat, sn: nat): seq<Side>
    requires fn <= sn
    decreases sn
  {
    if fn % 2 == 1 then StrippedRoute(fn / 2, sn / 2) else Route(fn, sn)
  }

  // --------------------------------------------------- the two directions meet

  lemma DoublingIsSkipped(x: nat)
    requires x > 0
    ensures Route(2 * x, 2 * x) == Route(x, x)
  {
    assert OddPart(2 * x) == OddPart(x);
  }

  /** Below the split: the last sibling is on the right, and the rest is the walk in a full tree. */
  lemma {:induction false} RouteBelowSplit(fn: nat, sn: nat, k: nat)
    requires IsPow2(k) && fn < k <= sn < 2 * k
    ensures Route(fn, sn) == Route(fn, k - 1) + [FromRight]
    decreases k
  {
    if k == 1 {
      assert Route(0, 0) == [];
    } else {
      assert (k - 1) / 2 == k / 2 - 1;
      RouteBelowSplit(fn / 2, sn / 2, k / 2);
    }
  }

  /** Above the split: the last sibling is on the left, and the rest is the walk in the right subtree. */
  lemma {:induction false} RouteAboveSplit(fn: nat, sn: nat, k: nat)
    requires IsPow2(k) && k <= fn <= sn < 2 * k
    ensures Route(fn, sn) == Route(fn - k, sn - k) + [FromLeft]
    decreases k
  {
    if k == 1 {
      assert Route(0, 0) == [];
    } else {
      var h := k / 2;
      assert (fn - k) / 2 == fn / 2 - h && (sn - k) / 2 == sn / 2 - h;
      RouteAboveSplit(fn / 2, sn / 2, h);
      if fn == sn && fn % 2 == 0 {
        DoublingIsSkipped(fn / 2);
        if fn > k {
          DoublingIsSkipped(fn / 2 - h);
        }
      }
    }
  }

  /** The bottom-up loop walks exactly the path that the top-down prover took. */
  lemma {:induction false} RouteIsPath(m: nat, n: nat)
    requires m < n
    ensures Route(m, n - 1) == PathSides(m, n)
    decreases n
  {
    if n > 1 {
      SplitPointIsUnique(n, SplitPoint(n));
      var k := SplitPoint(n);
      if m < k {
        RouteBelowSplit(m, n - 1, k);
        RouteIsPath(m, k);
      } else {
        RouteAboveSplit(m, n - 1, k);
        RouteIsPath(m - k, n - k);
      }
    }
  }

  lemma {:induction false} StrippedBelowSplit(fn: nat, sn: nat, k: nat)
    requires IsPow2(k) && fn < k <= sn < 2 * k
    ensures StrippedRoute(fn, sn) == if fn == k - 1 then [FromRight] else StrippedRoute(fn, k - 1) + [FromRight]
    decreases k
  {
    if k == 1 {
      assert Route(0, 0) == [];
    } else {
      assert (k - 1) / 2 == k / 2 - 1;
      if fn % 2 == 1 {
        StrippedBelowSplit(fn / 2, sn / 2, k / 2);
      } else {
        RouteBelowSplit(fn, sn, k);
      }
    }
  }

  lemma {:induction false} StrippedAboveSplit(fn: nat, sn: nat, k: nat)
    requires IsPow2(k) && k <= fn < sn < 2 * k
    ensures StrippedRoute(fn, sn) == StrippedRoute(fn - k, sn - k) + [FromLeft]
    decreases k
  {
    if fn % 2 == 1 {
      assert (fn - k) / 2 == fn / 2 - k / 2 && (sn - k) / 2 == sn / 2 - k / 2;
      StrippedAboveSplit(fn / 2, sn / 2, k / 2);
    } else {
      RouteAboveSplit(fn, sn, k);
    }
  }

  /** The consistency verifier's walk is the one its prover took. */
  lemma {:induction false} StrippedRouteIsConsistencyPath(m: nat, n: nat)
    requires 0 < m < n
    ensures StrippedRoute(m - 1, n - 1) == ConsistencySides(m, n)
    decreases n
  {
    SplitPointIsUnique(n, SplitPoint(n));
    var k := SplitPoint(n);
    if m <= k {
      StrippedBelowSplit(m - 1, n - 1, k);
      if m < k {
        StrippedRouteIsConsistencyPath(m, k);
      }
    } else {
      StrippedAboveSplit(m - 1, n - 1, k);
      StrippedRouteIsConsistencyPath(m - k, n - k);
    }
  }

  // --------------------------------------------------------------- lengths

  /** The least h with n <= 2^h. */
  function CeilLog2(n: nat): nat
    requires n > 0
  {
    if n == 1 then 0 else 1 + CeilLog2((n + 1) / 2)
  }

  function Pow2(h: nat): (p: nat)
    ensures p > 0
  {
    if h == 0 then 1 else 2 * Pow2(h - 1)
  }

  /** CeilLog2 is the ceiling of the logarithm to base 2. */
  lemma {:induction false} CeilLog2IsLeast(n: nat, h: nat)
    requires n > 0
    ensures CeilLog2(n) <= h <==> n <= Pow2(h)
    decreases n
  {
    if n > 1 && h > 0 {
      CeilLog2IsLeast((n + 1) / 2, h - 1);
    }
  }

  lemma CeilLog2Monotone(a: nat, b: nat)
    requires 0 < a <= b
    ensures CeilLog2(a) <= CeilLog2(b)
  {
    if a > 1 {
      CeilLog2Monotone((a + 1) / 2, (b + 1) / 2);
    }
  }

  lemma CeilLog2AtSplit(n: nat, k: nat)
    requires IsPow2(k) && k < n <= 2 * k
    ensures CeilLog2(n) == 1 + CeilLog2(k)
  {
    if k > 1 {
      CeilLog2AtSplit((n + 1) / 2, k / 2);
      assert (k + 1) / 2 == k / 2;
    }
  }

  lemma {:induction false} PathSidesLength(m: nat, n: nat)
    requires m < n
    ensures |PathSides(m, n)| <= CeilLog2(n)
    ensures m == 0 ==> |PathSides(m, n)| == CeilLog2(n)
    decreases n
  {
    if n > 1 {
      SplitPointIsUnique(n, SplitPoint(n));
      var k := SplitPoint(n);
      CeilLog2AtSplit(n, k);
      if m < k {
        PathSidesLength(m, k);
      } else {
        PathSidesLength(m - k, n - k);
        CeilLog2Monotone(n - k, k);
      }
    }
  }

  lemma {:induction false} ConsistencySidesLength(m: nat, n: nat)
    requires 0 < m <= n
    ensures |ConsistencySides(m, n)| <= CeilLog2(n)
    decreases n
  {
    if m < n {
      SplitPointIsUnique(n, SplitPoint(n));
      var k := SplitPoint(n);
      CeilLog2AtSplit(n, k);
      if m <= k {
        ConsistencySidesLength(m, k);
      } else {
        ConsistencySidesLength(m - k, n - k);
        CeilLog2Monotone(n - k, k);
      }
    }
  }
}
