/** Consistency proofs: that one tree head extends another (lib/vrp-tlog.mjs). */
module Consistency {
  import opened Wrappers
  import opened Int32
  import opened Merkle
  import opened AuditPath
  import opened Routes
  import opened Inclusion

  // --------------------------------------------------- dropping trailing ones

  /** `while ((fn & 1) === 1) { fn >>= 1; sn >>= 1; }`. The integers whose 32 bits are all
      ones shift to themselves, and the loop never leaves them: see StripLoopEnds. */
  function Strip(fn: int, sn: int): (int, int)
    requires ToInt32(fn) != -1
    decreases if fn < 0 then -fn else fn
  {
    if LowBit(fn) == 1 then
      StripShrinks(fn);
      Strip(Shr1(fn), Shr1(sn))
    else (fn, sn)
  }

  lemma StripShrinks(fn: int)
    requires ToInt32(fn) != -1 && LowBit(fn) == 1
    ensures ToInt32(Shr1(fn)) != -1
    ensures (if Shr1(fn) < 0 then -Shr1(fn) else Shr1(fn)) < (if fn < 0 then -fn else fn)
  {
    ParityKept(fn);
  }

  /** The value of fn after i turns of the loop, guard or no guard. */
  function StripLoop(fn: int, i: nat): int {
    if i == 0 then fn else Shr1(StripLoop(fn, i - 1))
  }

  lemma {:induction false} StripReaches(fn: int, i: nat) returns (j: nat)
    requires ToInt32(StripLoop(fn, i)) != -1
    ensures LowBit(StripLoop(fn, j)) != 1
    decreases var x := StripLoop(fn, i); if x < 0 then -x else x
  {
    j := i;
    if LowBit(StripLoop(fn, i)) == 1 {
      StripShrinks(StripLoop(fn, i));
      j := StripReaches(fn, i + 1);
    }
  }

  /** The loop meets a false guard exactly when the old size, fn + 1, is not a multiple of 2^32. */
  lemma {:induction false} StripLoopEnds(fn: int)
    ensures (exists i: nat :: LowBit(StripLoop(fn, i)) != 1) <==> (fn + 1) % TWO32 != 0
  {
    MultipleOf32Bits(fn + 1);
    if ToInt32(fn) != -1 {
      var i := StripReaches(fn, 0);
    } else {
      forall i: nat ensures LowBit(StripLoop(fn, i)) == 1 {
        StripLoopStays(fn, i);
        AllOnesIsOdd(StripLoop(fn, i));
      }
    }
  }

  lemma AllOnesIsOdd(x: int)
    requires ToInt32(x) == -1
    ensures LowBit(x) == 1
  {
    assert x == 2 * (MAX32 * (x / TWO32) + MAX32 - 1) + 1;
  }

  lemma MultipleOf32Bits(m: int)
    ensures ToInt32(m - 1) == -1 <==> m % TWO32 == 0
  {
  }

  lemma {:induction false} StripLoopStays(fn: int, i: nat)
    requires ToInt32(fn) == -1
    ensures ToInt32(StripLoop(fn, i)) == -1
  {
    if i > 0 {
      StripLoopStays(fn, i - 1);
    }
  }

  // ------------------------------------------------------------- the verifier

  /** The proof with the old root put in front when the old tree is a full subtree. */
  function FullPath(m: int, firstRoot: Bytes, proof: seq<Bytes>): seq<Bytes> {
    if And32(m, m - 1) == 0 then [firstRoot] + proof else proof
  }

  predicate Foldable(m: Option<int>, n: Option<int>) {
    m.Some? && n.Some? && 0 < m.value < n.value && m.value % TWO32 != 0
  }

  /** An accepted consistency proof. */
  predicate ConsistencyAccepted(H: HashFn, m: Option<int>, n: Option<int>, firstRoot: Bytes, secondRoot: Bytes,
                                proof: seq<Bytes>)
  {
    Foldable(m, n) &&
    var path := FullPath(m.value, firstRoot, proof);
    path != [] && Roots(H, StrippedWalk(m.value, n.value, |path| - 1), path) == Some((firstRoot, secondRoot))
  }

  function StrippedWalk(m: int, n: int, steps: nat): (w: Option<seq<Side>>)
    requires m % TWO32 != 0
    ensures w.Some? ==> |w.value| == steps
  {
    MultipleOf32Bits(m);
    var (fn, sn) := Strip(m - 1, n - 1);
    Walk(fn, sn, steps)
  }

  /** The older and the newer root that a path folds to. */
  function Roots(H: HashFn, w: Option<seq<Side>>, path: seq<Bytes>): Option<(Bytes, Bytes)>
    requires path != [] && (w.Some? ==> |w.value| == |path| - 1)
  {
    if w.None? then None
    else Some((FoldLeft(H, w.value, path[1..], path[0]), FoldUp(H, w.value, path[1..], path[0])))
  }

  /** The sizes for which the first loop ends, or is not reached. */
  predicate Ends(m: Option<int>, n: Option<int>) {
    m.Some? && n.Some? && 0 < m.value < n.value ==> m.value % TWO32 != 0
  }

  method VerifyConsistency(H: HashFn, m: Option<int>, n: Option<int>, firstRoot: Bytes, secondRoot: Bytes,
                           proof: seq<Bytes>) returns (ok: bool)
    requires Ends(m, n)  // for the other sizes the source's first loop never ends: see StripLoopEnds
    ensures ok == ConsistencyAccepted(H, m, n, firstRoot, secondRoot, proof)
  {
    if m.None? || n.None? || m.value <= 0 || m.value >= n.value {
      return false;
    }
    var path := proof;
    if And32(m.value, m.value - 1) == 0 {
      path := [firstRoot] + path;
    }
    if |path| == 0 {
      return false;
    }
    MultipleOf32Bits(m.value);
    var fn, sn := DropTrailingOnes(m.value - 1, n.value - 1);
    var roots := FoldBoth(H, fn, sn, path);
    return roots == Some((firstRoot, secondRoot));
  }

  /** The first loop of the verifier. */
  method DropTrailingOnes(fn0: int, sn0: int) returns (fn: int, sn: int)
    requires ToInt32(fn0) != -1
    ensures (fn, sn) == Strip(fn0, sn0)
  {
    fn, sn := fn0, sn0;
    while LowBit(fn) == 1
      invariant ToInt32(fn) != -1 && Strip(fn, sn) == Strip(fn0, sn0)
      decreases if fn < 0 then -fn else fn
    {
      StripShrinks(fn);
      fn := Shr1(fn);
      sn := Shr1(sn);
    }
  }

  /** After i elements along `sides`, the loop holds the two folds. */
  predicate BothFolded(H: HashFn, sides: seq<Side>, path: seq<Bytes>, i: nat, fr: Bytes, sr: Bytes)
    requires 0 < i <= |path| && |sides| == i - 1
  {
    fr == FoldLeft(H, sides, path[1..i], path[0]) && sr == FoldUp(H, sides, path[1..i], path[0])
  }

  lemma FoldBothStep(H: HashFn, sides: seq<Side>, side: Side, path: seq<Bytes>, i: nat, fr: Bytes, sr: Bytes)
    requires 0 < i < |path| && |sides| == i - 1 && BothFolded(H, sides, path, i, fr, sr)
    ensures BothFolded(H, sides + [side], path, i + 1,
                       if side == FromLeft then HashChildren(H, path[i], fr) else fr, Join(H, side, path[i], sr))
  {
    var c, before := path[i], path[1..i];
    SliceGrows(path, i, c, before);
    FoldUpSnoc(H, sides, side, before, c, path[0]);
    FoldLeftSnoc(H, sides, side, before, c, path[0]);
  }

  lemma SliceGrows(path: seq<Bytes>, i: nat, c: Bytes, before: seq<Bytes>)
    requires 0 < i < |path| && c == path[i] && before == path[1..i]
    ensures path[1..i + 1] == before + [c]
  {
  }

  /** The second loop: both roots recomputed, or None where the source gives up on sn. */
  method FoldBoth(H: HashFn, fn0: int, sn0: int, path: seq<Bytes>) returns (roots: Option<(Bytes, Bytes)>)
    requires path != []
    ensures roots == Roots(H, Walk(fn0, sn0, |path| - 1), path)
  {
    var fn, sn := fn0, sn0;
    var fr := path[0];
    var sr := path[0];
    ghost var whole := Walk(fn, sn, |path| - 1);
    ghost var sides: seq<Side> := [];
    WalkStarts(fn, sn, |path| - 1);
    for i := 1 to |path|
      invariant |sides| == i - 1
      invariant OnWalk(whole, sides, fn, sn, |path| - i)
      invariant BothFolded(H, sides, path, i, fr, sr)
    {
      var c := path[i];
      WalkEnds(whole, sides, fn, sn, |path| - i);
      if sn == 0 {
        return None;
      }
      WalkGoesOn(whole, sides, fn, sn, |path| - i);
      ghost var side := SideOf(fn, sn);
      FoldBothStep(H, sides, side, path, i, fr, sr);
      if LowBit(fn) == 1 || fn == sn {
        fr := HashChildren(H, c, fr);
        sr := HashChildren(H, c, sr);
      } else {
        sr := HashChildren(H, sr, c);
      }
      fn, sn := Advance(fn, sn);
      sides := sides + [side];
    }
    WalkEnds(whole, sides, fn, sn, 0);
    assert path[1..|path|] == path[1..];
    if sn != 0 {
      return None;
    }
    return Some((fr, sr));
  }

  // -------------------------------------------------------- the exact sizes

  lemma {:induction false} StripIsExact(fn: nat, sn: nat)
    requires fn < sn < MAX32
    ensures ToInt32(fn) != -1
    ensures var (f, s) := Strip(fn, sn); 0 <= f < s <= sn && StrippedRoute(fn, sn) == Route(f, s)
    decreases fn
  {
    if fn % 2 == 1 {
      StripIsExact(fn / 2, sn / 2);
    }
  }

  /** For sizes that fit, the walk is the prover's. */
  lemma {:induction false} StrippedWalkIsPath(m: nat, n: nat, steps: nat)
    requires 0 < m < n <= MAX32
    ensures m % TWO32 != 0
    ensures StrippedWalk(m, n, steps)
         == if steps == |ConsistencySides(m, n)| then Some(ConsistencySides(m, n)) else None
  {
    MultipleOf32Bits(m);
    StripIsExact(m - 1, n - 1);
    var (fn, sn) := Strip(m - 1, n - 1);
    WalkIsRoute(fn, sn, steps);
    StrippedRouteIsConsistencyPath(m, n);
  }

  /** The answer over unbounded integers: the prover's path for its own length, none for any other. */
  function ExactStrippedWalk(m: nat, n: nat, steps: nat): Option<seq<Side>>
    requires 0 < m < n
  {
    if steps == |ConsistencySides(m, n)| then Some(ConsistencySides(m, n)) else None
  }

  lemma {:induction false} StripKeepsSign(fn: int, sn: int)
    requires ToInt32(fn) != -1 && Negative32(sn)
    ensures Negative32(Strip(fn, sn).1)
    decreases if fn < 0 then -fn else fn
  {
    if LowBit(fn) == 1 {
      StripShrinks(fn);
      StripKeepsSign(Shr1(fn), Shr1(sn));
    }
  }

  /** Sizes whose last index has bit 31 set accept no proof here either. */
  lemma {:induction false} TopBitRejectsConsistency(H: HashFn, m: int, n: int, firstRoot: Bytes, secondRoot: Bytes,
                                                    proof: seq<Bytes>)
    requires Negative32(n - 1)
    ensures !ConsistencyAccepted(H, Some(m), Some(n), firstRoot, secondRoot, proof)
  {
    if Foldable(Some(m), Some(n)) {
      MultipleOf32Bits(m);
      StripKeepsSign(m - 1, n - 1);
      var (fn, sn) := Strip(m - 1, n - 1);
      var path := FullPath(m, firstRoot, proof);
      if path != [] {
        TopBitNeverEnds(fn, sn, |path| - 1);
      }
    }
  }

  lemma {:induction false} LargeConsistencyDiffers(n: nat, steps: nat)
    requires n > MAX32 && steps == |Route(0, (n - 1) / 2)| + 1
    ensures StrippedWalk(1, n, steps) != ExactStrippedWalk(1, n, steps)
  {
    LargeSizeDiffers(n - 1, steps - 1);
    StrippedRouteIsConsistencyPath(1, n);
  }

  predicate WalksExactly(m: nat, n: nat, steps: nat)
    requires 0 < m < n && m % TWO32 != 0
  {
    StrippedWalk(m, n, steps) == ExactStrippedWalk(m, n, steps)
  }

  /** The loop's 32-bit operators compute the unbounded answer for every older size for which it ends, and for every
      proof length, exactly when the newer tree has at most 2^31 entries. */
  lemma {:induction false} ThirtyTwoBitsSufficeHere(n: nat)
    requires n > 1
    ensures (forall m: nat, steps: nat :: 0 < m < n && m % TWO32 != 0 ==> WalksExactly(m, n, steps)) <==> n <= MAX32
  {
    if n <= MAX32 {
      forall m: nat, steps: nat | 0 < m < n && m % TWO32 != 0 ensures WalksExactly(m, n, steps) {
        StrippedWalkIsPath(m, n, steps);
      }
    } else {
      LargeConsistencyDiffers(n, |Route(0, (n - 1) / 2)| + 1);
      assert !WalksExactly(1, n, |Route(0, (n - 1) / 2)| + 1);
    }
  }

  // ------------------------------------------------ prover and verifier agree

  /** The part of the tree up to entry m is the older tree. */
  predicate SplitsOffOlder(m: nat, entries: seq<Bytes>)
    requires 0 < m <= |entries|
  {
    var t, sides := Build(entries), ConsistencySides(m, |entries|);
    At(t, sides).Some? && PrefixTree(t, sides) == Build(entries[..m])
  }

  lemma {:induction false} PrefixTreeIsOlderTree(m: nat, entries: seq<Bytes>)
    requires 0 < m <= |entries|
    ensures SplitsOffOlder(m, entries)
    decreases |entries|
  {
    var n := |entries|;
    if m == n {
      OlderIsAll(entries);
    } else {
      var k := SplitPoint(n);
      SplitPointIsUnique(n, k);
      if m <= k {
        PrefixTreeIsOlderTree(m, entries[..k]);
        OlderBelow(m, entries, entries[..k], k);
      } else {
        PrefixTreeIsOlderTree(m - k, entries[k..]);
        OlderAbove(m, entries, entries[k..], k);
      }
    }
  }

  lemma OlderIsAll(entries: seq<Bytes>)
    requires entries != []
    ensures SplitsOffOlder(|entries|, entries)
  {
    assert entries[..|entries|] == entries;
  }

  lemma OlderBelow(m: nat, entries: seq<Bytes>, lo: seq<Bytes>, k: nat)
    requires IsPow2(k) && 0 < m <= k < |entries| <= 2 * k && lo == entries[..k]
    requires SplitsOffOlder(m, lo)
    ensures SplitsOffOlder(m, entries)
  {
    BuildSplits(entries, k);
    SidesBelow(m, |entries|, k);
    assert lo[..m] == entries[..m];
    PrefixOnLeft(Build(entries), ConsistencySides(m, |entries|), ConsistencySides(m, k), Build(lo[..m]));
  }

  lemma OlderAbove(m: nat, entries: seq<Bytes>, hi: seq<Bytes>, k: nat)
    requires IsPow2(k) && k < m < |entries| <= 2 * k && hi == entries[k..]
    requires SplitsOffOlder(m - k, hi)
    ensures SplitsOffOlder(m, entries)
  {
    BuildSplits(entries, k);
    BuildOlder(entries, m, k);
    SidesAbove(m, |entries|, k);
    PrefixOnRight(Build(entries), ConsistencySides(m, |entries|), ConsistencySides(m - k, |hi|), Build(hi[..m - k]));
  }

  lemma BuildOlder(entries: seq<Bytes>, m: nat, k: nat)
    requires IsPow2(k) && k < m <= |entries| <= 2 * k
    ensures Build(entries[..m]) == Node(Build(entries[..k]), Build(entries[k..][..m - k]))
  {
    var older := entries[..m];
    BuildSplits(older, k);
    assert older[..k] == entries[..k] && older[k..] == entries[k..][..m - k];
  }

  /** The prover's list: the subtree that ends with entry m, and the siblings above it. */
  function SeedAndSiblings(H: HashFn, t: Tree, sides: seq<Side>): seq<Bytes>
    requires At(t, sides).Some?
  {
    [TreeHash(H, At(t, sides).value)] + Siblings(H, t, sides)
  }

  predicate ProvesPrefix(H: HashFn, m: nat, entries: seq<Bytes>)
    requires 0 < m <= |entries|
  {
    var t, sides := Build(entries), ConsistencySides(m, |entries|);
    At(t, sides).Some? && Subproof(H, m, entries, false) == SeedAndSiblings(H, t, sides)
  }

  lemma {:induction false} SubproofIsSiblings(H: HashFn, m: nat, entries: seq<Bytes>)
    requires 0 < m <= |entries|
    ensures ProvesPrefix(H, m, entries)
    decreases |entries|
  {
    var n := |entries|;
    if m == n {
      SubproofOfAll(H, entries);
    } else {
      var k := SplitPoint(n);
      SplitPointIsUnique(n, k);
      if m <= k {
        SubproofIsSiblings(H, m, entries[..k]);
        SubproofBelow(H, m, entries, entries[..k], entries[k..], k);
      } else {
        SubproofIsSiblings(H, m - k, entries[k..]);
        SubproofAbove(H, m, entries, entries[..k], entries[k..], k);
      }
    }
  }

  lemma SubproofBelow(H: HashFn, m: nat, entries: seq<Bytes>, lo: seq<Bytes>, hi: seq<Bytes>, k: nat)
    requires IsPow2(k) && 0 < m <= k < |entries| <= 2 * k && lo == entries[..k] && hi == entries[k..]
    requires ProvesPrefix(H, m, lo)
    ensures ProvesPrefix(H, m, entries)
  {
    var l, sides := Build(lo), ConsistencySides(m, k);
    BuildSplits(entries, k);
    SubproofSplits(H, m, entries, false, k);
    SidesBelow(m, |entries|, k);
    BuildHash(H, hi);
    DownLeft(H, Build(entries), Build(hi), ConsistencySides(m, |entries|), sides, At(l, sides).value,
             Siblings(H, l, sides));
    Reassociate([TreeHash(H, At(l, sides).value)], Siblings(H, l, sides), [MerkleTreeHash(H, hi)]);
  }

  lemma SubproofAbove(H: HashFn, m: nat, entries: seq<Bytes>, lo: seq<Bytes>, hi: seq<Bytes>, k: nat)
    requires IsPow2(k) && k < m < |entries| <= 2 * k && lo == entries[..k] && hi == entries[k..]
    requires ProvesPrefix(H, m - k, hi)
    ensures ProvesPrefix(H, m, entries)
  {
    var r, sides := Build(hi), ConsistencySides(m - k, |hi|);
    BuildSplits(entries, k);
    SubproofSplits(H, m, entries, false, k);
    SidesAbove(m, |entries|, k);
    BuildHash(H, lo);
    DownRight(H, Build(entries), Build(lo), ConsistencySides(m, |entries|), sides, At(r, sides).value,
              Siblings(H, r, sides));
    Reassociate([TreeHash(H, At(r, sides).value)], Siblings(H, r, sides), [MerkleTreeHash(H, lo)]);
  }

  lemma Reassociate(a: seq<Bytes>, b: seq<Bytes>, c: seq<Bytes>)
    ensures (a + b) + c == a + (b + c)
  {
  }

  lemma SubproofOfAll(H: HashFn, entries: seq<Bytes>)
    requires entries != []
    ensures ProvesPrefix(H, |entries|, entries)
  {
    BuildHash(H, entries);
  }

  /** A full older tree is itself the subtree that the prover's list starts with. */
  lemma {:induction false} FullSubtreeIsOlderTree(H: HashFn, m: nat, entries: seq<Bytes>)
    requires 0 < m <= |entries| && (m == |entries| || IsPow2(m))
    ensures At(Build(entries), ConsistencySides(m, |entries|)) == Some(Build(entries[..m]))
    decreases |entries|
  {
    var n := |entries|;
    if m == n {
      assert entries[..m] == entries;
    } else {
      var k := SplitPoint(n);
      SplitPointIsUnique(n, k);
      if m > k {
        Pow2Gap(k, m);
      }
      var lo, sides := entries[..k], ConsistencySides(m, k);
      BuildSplits(entries, k);
      SidesBelow(m, n, k);
      FullSubtreeIsOlderTree(H, m, lo);
      assert lo[..m] == entries[..m];
      DownLeft(H, Build(entries), Build(entries[k..]), ConsistencySides(m, n), sides, Build(lo[..m]),
               Siblings(H, Build(lo), sides));
    }
  }

  /** Only then is its hash left out of the proof. */
  lemma {:induction false} FullSubtreeIsOmitted(H: HashFn, m: nat, entries: seq<Bytes>)
    requires 0 < m <= |entries|
    ensures Subproof(H, m, entries, true)
         == if m == |entries| || IsPow2(m) then Subproof(H, m, entries, false)[1..] else Subproof(H, m, entries, false)
    decreases |entries|
  {
    var n := |entries|;
    if m < n {
      SplitPointIsUnique(n, SplitPoint(n));
      var k := SplitPoint(n);
      if m <= k {
        SubproofSplits(H, m, entries, true, k);
        SubproofSplits(H, m, entries, false, k);
        FullSubtreeIsOmitted(H, m, entries[..k]);
        SubproofNotEmpty(H, m, entries[..k]);
      } else if IsPow2(m) {
        Pow2Gap(k, m);
      }
    }
  }

  lemma SubproofNotEmpty(H: HashFn, m: nat, entries: seq<Bytes>)
    requires 0 < m <= |entries|
    ensures Subproof(H, m, entries, false) != []
  {
  }

  /** The path the verifier sees for the prover's proof is the whole SUBPROOF. */
  lemma {:induction false} FullPathOfProof(H: HashFn, m: nat, entries: seq<Bytes>)
    requires 0 < m < |entries| && m <= MAX32
    ensures FullPath(m, MerkleTreeHash(H, entries[..m]), ConsistencyProof(H, m, entries))
         == Subproof(H, m, entries, false)
  {
    PowerOfTwoTest(m);
    SubproofIsSiblings(H, m, entries);
    FullSubtreeIsOmitted(H, m, entries);
    if IsPow2(m) {
      FullSubtreeIsOlderTree(H, m, entries);
    }
    BuildIsTheTree(H, entries[..m]);
  }

  lemma SeedAndRest(seed: Bytes, rest: seq<Bytes>, path: seq<Bytes>)
    requires path == [seed] + rest
    ensures path != [] && path[0] == seed && path[1..] == rest
  {
  }

  /** A path that holds the seed and the siblings at `sides` folds to the two trees' roots. */
  lemma {:induction false} SiblingsAreAccepted(H: HashFn, m: nat, n: nat, proof: seq<Bytes>, t: Tree, older: Tree,
                                               sides: seq<Side>)
    requires Foldable(Some(m), Some(n)) && StrippedWalk(m, n, |sides|) == Some(sides)
    requires At(t, sides).Some? && PrefixTree(t, sides) == older
    requires FullPath(m, TreeHash(H, older), proof) == SeedAndSiblings(H, t, sides)
    ensures ConsistencyAccepted(H, Some(m), Some(n), TreeHash(H, older), TreeHash(H, t), proof)
  {
    FoldOfSiblings(H, t, sides);
    FoldLeftOfSiblings(H, t, sides);
    SeedAndRest(TreeHash(H, At(t, sides).value), Siblings(H, t, sides), SeedAndSiblings(H, t, sides));
  }

  /** The prover's proof is accepted against the older and the newer root. */
  lemma {:induction false} ConsistencyCompleteness(H: HashFn, entries: seq<Bytes>, m: nat)
    requires 0 < m < |entries| <= MAX32
    ensures ConsistencyAccepted(H, Some(m), Some(|entries|), MerkleTreeHash(H, entries[..m]),
                                MerkleTreeHash(H, entries), ConsistencyProof(H, m, entries))
  {
    var older := entries[..m];
    var sides := ConsistencySides(m, |entries|);
    FullPathOfProof(H, m, entries);
    SubproofIsSiblings(H, m, entries);
    PrefixTreeIsOlderTree(m, entries);
    StrippedWalkIsPath(m, |entries|, |sides|);
    BuildIsTheTree(H, entries);
    BuildIsTheTree(H, older);
    SiblingsAreAccepted(H, m, |entries|, ConsistencyProof(H, m, entries), Build(entries), Build(older), sides);
  }

  // The first side is always FromRight, so the seed is a left child.

  lemma {:induction false} SeedIsOnTheLeft(m: nat, n: nat)
    requires 0 < m < n
    ensures ConsistencySides(m, n) != [] && ConsistencySides(m, n)[0] == FromRight
    decreases n
  {
    var k := SplitPoint(n);
    SplitPointIsUnique(n, k);
    if m < k {
      SeedIsOnTheLeft(m, k);
    } else if m > k {
      SeedIsOnTheLeft(m - k, n - k);
    }
  }

  /** A first path element that is too long for a child of any node. */
  function LongSeedCollision(H: HashFn, t: Tree, sides: seq<Side>, proof: seq<Bytes>, seed: Bytes): (c: Collision)
    requires |sides| == |proof| > 0 && sides[0] == FromRight && |seed| > 64
    requires FoldUp(H, sides, proof, seed) == TreeHash(H, t)
    ensures IsCollision(H, c)
  {
    FoldsFromSecond(H, sides, proof, seed);
    var below := Join(H, FromRight, proof[0], seed);
    var c := PathCollision(H, t, sides[1..], proof[1..], below);
    if c.Some? then c.value
    else
      var u := At(t, sides[1..]).value;
      LongInput(H, u, seed, proof[0]);
      Collision(NodeInput(seed, proof[0]), TreeInput(H, u))
  }

  lemma LongInput(H: HashFn, u: Tree, left: Bytes, right: Bytes)
    requires |left| > 64
    ensures NodeInput(left, right) != TreeInput(H, u)
  {
    if u.Node? {
      assert |TreeInput(H, u)| == 65;
    }
    assert NodeInput(left, right)[0] == 1;
  }

  /** The verifier checks no lengths. With a digest for its first path element, a proof accepted for the log's own size
      has for its first root the hash of the first m entries, and is the one proof there is, or this finds the
      collision. A first element of more than 64 bytes always hides one. */
  function ConsistencyCollision(H: HashFn, m: nat, entries: seq<Bytes>, firstRoot: Bytes, proof: seq<Bytes>)
    : (c: Option<Collision>)
    requires |entries| <= MAX32
    requires ConsistencyAccepted(H, Some(m), Some(|entries|), firstRoot, MerkleTreeHash(H, entries), proof)
    requires |FullPath(m, firstRoot, proof)[0]| == 32 || |FullPath(m, firstRoot, proof)[0]| > 64
    ensures c.Some? ==> IsCollision(H, c.value)
    ensures c.None? ==> firstRoot == MerkleTreeHash(H, entries[..m])
    ensures c.None? ==> proof == ConsistencyProof(H, m, entries)
  {
    var path := FullPath(m, firstRoot, proof);
    var sides := ConsistencySides(m, |entries|);
    var t := Build(entries);
    BuildIsTheTree(H, entries);
    StrippedWalkIsPath(m, |entries|, |path| - 1);
    if |path[0]| > 64 then
      SeedIsOnTheLeft(m, |entries|);
      Some(LongSeedCollision(H, t, sides, path[1..], path[0]))
    else
      var c := PathCollision(H, t, sides, path[1..], path[0]);
      if c.Some? then c
      else
        FoldLeftOfSiblings(H, t, sides);
        SubproofIsSiblings(H, m, entries);
        PrefixTreeIsOlderTree(m, entries);
        BuildIsTheTree(H, entries[..m]);
        FullPathOfProof(H, m, entries);
        PowerOfTwoTest(m);
        FullPathDetermines(m, firstRoot, proof, ConsistencyProof(H, m, entries));
        None
  }

  // Any other length lets a wrong root through: the seed and its sibling may be cut elsewhere.

  /** A path with its first two elements cut after `cut` bytes. */
  function Recut(path: seq<Bytes>, cut: nat): (r: seq<Bytes>)
    requires |path| > 1 && cut <= |path[0]| + |path[1]|
    ensures |r| == |path| && |r[0]| == cut && r[2..] == path[2..] && r[0] + r[1] == path[0] + path[1]
  {
    var x := path[0] + path[1];
    CutTogether(x, cut);
    [x[..cut], x[cut..]] + path[2..]
  }

  lemma CutTogether(x: Bytes, cut: nat)
    requires cut <= |x|
    ensures x[..cut] + x[cut..] == x
  {
  }

  lemma {:induction false} SubproofHasSibling(H: HashFn, m: nat, entries: seq<Bytes>)
    requires 0 < m < |entries|
    ensures |Subproof(H, m, entries, false)| == |ConsistencySides(m, |entries|)| + 1 > 1
  {
    SubproofIsSiblings(H, m, entries);
    SeedIsOnTheLeft(m, |entries|);
  }

  /** The path of the prover's proof, recut. */
  function RecutPath(H: HashFn, m: nat, entries: seq<Bytes>, cut: nat): (path: seq<Bytes>)
    requires 0 < m < |entries| && cut <= 64
    ensures |path| == |ConsistencySides(m, |entries|)| + 1 > 1 && |path[0]| == cut
  {
    SubproofHasSibling(H, m, entries);
    Recut(Subproof(H, m, entries, false), cut)
  }

  function RecutRoot(H: HashFn, m: nat, entries: seq<Bytes>, cut: nat): Bytes
    requires 0 < m < |entries| && cut <= 64
  {
    var path := RecutPath(H, m, entries, cut);
    FoldLeft(H, ConsistencySides(m, |entries|), path[1..], path[0])
  }

  function RecutProof(H: HashFn, m: nat, entries: seq<Bytes>, cut: nat): seq<Bytes>
    requires 0 < m < |entries| && cut <= 64
  {
    var path := RecutPath(H, m, entries, cut);
    if And32(m, m - 1) == 0 then path[1..] else path
  }

  lemma SameNode(H: HashFn, a: Bytes, b: Bytes, c: Bytes, d: Bytes)
    requires a + b == c + d
    ensures HashChildren(H, a, b) == HashChildren(H, c, d)
  {
    assert [1] + a + b == [1] + (a + b) && [1] + c + d == [1] + (c + d);
  }

  /** Where the seed is a left child, only it and its sibling together matter to the newer root. */
  lemma {:induction false} RecutFolds(H: HashFn, sides: seq<Side>, p: seq<Bytes>, q: seq<Bytes>)
    requires |sides| + 1 == |p| == |q| > 1 && sides[0] == FromRight
    requires p[0] + p[1] == q[0] + q[1] && p[2..] == q[2..]
    ensures FoldUp(H, sides, q[1..], q[0]) == FoldUp(H, sides, p[1..], p[0])
    ensures FoldLeft(H, sides, q[1..], q[0]) == FoldLeft(H, sides[1..], q[2..], q[0])
  {
    FoldsFromSecond(H, sides, p[1..], p[0]);
    FoldsFromSecond(H, sides, q[1..], q[0]);
    SameNode(H, p[0], p[1], q[0], q[1]);
    assert p[1..][1..] == p[2..] && q[1..][1..] == q[2..];
  }

  lemma {:induction false} FullSubtreeStaysLeft(H: HashFn, m: nat, n: nat, proof: seq<Bytes>, r: Bytes)
    requires IsPow2(m) && m <= n && |proof| == |ConsistencySides(m, n)|
    ensures FoldLeft(H, ConsistencySides(m, n), proof, r) == r
    decreases n
  {
    if m < n {
      var k := SplitPoint(n);
      SplitPointIsUnique(n, k);
      if k < m {
        Pow2Gap(k, m);
      }
      SidesBelow(m, n, k);
      var sides := ConsistencySides(m, k);
      assert (sides + [FromRight])[..|sides|] == sides;
      FullSubtreeStaysLeft(H, m, k, proof[..|sides|], r);
    }
  }

  lemma {:induction false} SubproofFolds(H: HashFn, m: nat, entries: seq<Bytes>)
    requires 0 < m < |entries|
    ensures var path, sides := Subproof(H, m, entries, false), ConsistencySides(m, |entries|);
            |path| == |sides| + 1 && FoldUp(H, sides, path[1..], path[0]) == MerkleTreeHash(H, entries)
  {
    var t, sides := Build(entries), ConsistencySides(m, |entries|);
    SubproofIsSiblings(H, m, entries);
    FoldOfSiblings(H, t, sides);
    BuildIsTheTree(H, entries);
    SeedAndRest(TreeHash(H, At(t, sides).value), Siblings(H, t, sides), Subproof(H, m, entries, false));
  }

  /** What recutting leaves of the two roots. */
  lemma {:induction false} RecutRoots(H: HashFn, m: nat, entries: seq<Bytes>, cut: nat)
    requires 0 < m < |entries| && cut <= 64
    ensures var path, sides := RecutPath(H, m, entries, cut), ConsistencySides(m, |entries|);
            && FoldUp(H, sides, path[1..], path[0]) == MerkleTreeHash(H, entries)
            && RecutRoot(H, m, entries, cut) == FoldLeft(H, sides[1..], path[2..], path[0])
  {
    SeedIsOnTheLeft(m, |entries|);
    SubproofFolds(H, m, entries);
    SubproofHasSibling(H, m, entries);
    RecutFolds(H, ConsistencySides(m, |entries|), Subproof(H, m, entries, false), RecutPath(H, m, entries, cut));
  }

  lemma {:induction false} RecutElements(H: HashFn, m: nat, entries: seq<Bytes>, cut: nat)
    requires 0 < m < |entries| && cut <= 64
    ensures forall i :: 0 <= i < |RecutPath(H, m, entries, cut)| - 2 ==> |RecutPath(H, m, entries, cut)[2..][i]| == 32
  {
    SubproofHasSibling(H, m, entries);
    var rest: seq<Digest> := Subproof(H, m, entries, false)[2..];
    assert RecutPath(H, m, entries, cut)[2..] == rest;
    forall i | 0 <= i < |rest| ensures |rest[i]| == 32 {
      var d: Digest := rest[i];
    }
  }

  lemma AcceptedByFolds(H: HashFn, m: nat, n: nat, proof: seq<Bytes>, path: seq<Bytes>, sides: seq<Side>, r1: Bytes,
                        r2: Bytes)
    requires Foldable(Some(m), Some(n)) && StrippedWalk(m, n, |sides|) == Some(sides)
    requires FullPath(m, r1, proof) == path && |path| == |sides| + 1
    requires FoldLeft(H, sides, path[1..], path[0]) == r1 && FoldUp(H, sides, path[1..], path[0]) == r2
    ensures ConsistencyAccepted(H, Some(m), Some(n), r1, r2, proof)
  {
  }

  lemma {:induction false} RecutIsWhole(H: HashFn, m: nat, entries: seq<Bytes>, cut: nat)
    requires 0 < m < |entries| && m <= MAX32 && cut <= 64
    ensures FullPath(m, RecutRoot(H, m, entries, cut), RecutProof(H, m, entries, cut)) == RecutPath(H, m, entries, cut)
  {
    var path := RecutPath(H, m, entries, cut);
    PowerOfTwoTest(m);
    if IsPow2(m) {
      FullSubtreeStaysLeft(H, m, |entries|, path[1..], path[0]);
      assert [path[0]] + path[1..] == path;
    }
  }

  /** For every length up to 64 some proof with a first path element of that length is accepted ... */
  lemma {:induction false} RecutAccepted(H: HashFn, m: nat, entries: seq<Bytes>, cut: nat)
    requires 0 < m < |entries| <= MAX32 && cut <= 64
    ensures |FullPath(m, RecutRoot(H, m, entries, cut), RecutProof(H, m, entries, cut))| > 0
    ensures |FullPath(m, RecutRoot(H, m, entries, cut), RecutProof(H, m, entries, cut))[0]| == cut
    ensures ConsistencyAccepted(H, Some(m), Some(|entries|), RecutRoot(H, m, entries, cut), MerkleTreeHash(H, entries),
                                RecutProof(H, m, entries, cut))
  {
    var path, sides := RecutPath(H, m, entries, cut), ConsistencySides(m, |entries|);
    RecutRoots(H, m, entries, cut);
    RecutIsWhole(H, m, entries, cut);
    StrippedWalkIsPath(m, |entries|, |sides|);
    AcceptedByFolds(H, m, |entries|, RecutProof(H, m, entries, cut), path, sides, RecutRoot(H, m, entries, cut),
                    MerkleTreeHash(H, entries));
  }

  /** ... and for every length but 32 its first root is not the hash of the first m entries, or this is a collision. */
  function RecutCollision(H: HashFn, m: nat, entries: seq<Bytes>, cut: nat): (c: Collision)
    requires 0 < m < |entries| && cut <= 64 && cut != 32
    requires RecutRoot(H, m, entries, cut) == MerkleTreeHash(H, entries[..m])
    ensures IsCollision(H, c)
  {
    var path, sides := RecutPath(H, m, entries, cut), ConsistencySides(m, |entries|);
    RecutRoots(H, m, entries, cut);
    RecutElements(H, m, entries, cut);
    BuildIsTheTree(H, entries[..m]);
    SeedCollision(H, Build(entries[..m]), sides[1..], path[2..], path[0])
  }

  /** So in every log of two entries 31 bytes pass for the root of size 1. */
  lemma {:induction false} ShortRootAccepted(H: HashFn, d: seq<Bytes>)
    requires |d| == 2
    ensures var x := HashLeaf(H, d[0]) + HashLeaf(H, d[1]);
            ConsistencyAccepted(H, Some(1), Some(2), x[..31], MerkleTreeHash(H, d), [x[31..]])
  {
    var a, b := d[..1], d[1..];
    SplitPointIsUnique(2, 1);
    PowerOfTwoTest(1);
    SubproofSplits(H, 1, d, false, 1);
    RecutAccepted(H, 1, d, 31);
    assert MerkleTreeHash(H, a) == HashLeaf(H, d[0]) && MerkleTreeHash(H, b) == HashLeaf(H, d[1]);
    assert Subproof(H, 1, a, false) == [MerkleTreeHash(H, a)];
    assert Subproof(H, 1, d, false) == [HashLeaf(H, d[0]), HashLeaf(H, d[1])];
    OneFromRight(H, d);
  }

  lemma {:induction false} OneFromRight(H: HashFn, d: seq<Bytes>)
    requires |d| == 2
    ensures RecutRoot(H, 1, d, 31) == RecutPath(H, 1, d, 31)[0]
         && RecutProof(H, 1, d, 31) == [RecutPath(H, 1, d, 31)[1]]
  {
    SplitPointIsUnique(2, 1);
    PowerOfTwoTest(1);
    assert ConsistencySides(1, 1) == [];
    assert ConsistencySides(1, 2) == [FromRight];
    FullSubtreeStaysLeft(H, 1, 2, RecutPath(H, 1, d, 31)[1..], RecutPath(H, 1, d, 31)[0]);
  }

  lemma FullPathDetermines(m: int, root: Bytes, p: seq<Bytes>, q: seq<Bytes>)
    requires FullPath(m, root, p) == FullPath(m, root, q)
    ensures p == q
  {
    assert ([root] + p)[1..] == p && ([root] + q)[1..] == q;
  }

  /** Neither prover nor verifier knows a proof longer than ceil(log2 n) + 1. */
  lemma {:induction false} ConsistencyProofLength(H: HashFn, m: int, n: int, firstRoot: Bytes, secondRoot: Bytes,
                                                  proof: seq<Bytes>)
    requires ConsistencyAccepted(H, Some(m), Some(n), firstRoot, secondRoot, proof)
    ensures |proof| <= CeilLog2(n) + 1
  {
    var steps := |FullPath(m, firstRoot, proof)| - 1;
    if n > MAX32 {
      MultipleOf32Bits(m);
      var (fn, sn) := Strip(m - 1, n - 1);
      WalkIsShort(fn, sn, steps);
      LargeLogarithm(n);
    } else {
      StrippedWalkIsPath(m, n, steps);
      ConsistencySidesLength(m, n);
    }
  }

  lemma {:induction false} ConsistencyProofBound(H: HashFn, m: nat, entries: seq<Bytes>)
    requires 0 < m < |entries|
    ensures |ConsistencyProof(H, m, entries)| <= CeilLog2(|entries|) + 1
  {
    SubproofIsSiblings(H, m, entries);
    FullSubtreeIsOmitted(H, m, entries);
    ConsistencySidesLength(m, |entries|);
  }

  // ------------------------------------------------------------ append-only

  lemma {:induction false} FoldsFromSecond(H: HashFn, sides: seq<Side>, proof: seq<Bytes>, r: Bytes)
    requires |sides| == |proof| > 0
    ensures FoldUp(H, sides, proof, r) == FoldUp(H, sides[1..], proof[1..], Join(H, sides[0], proof[0], r))
    ensures FoldLeft(H, sides, proof, r)
         == FoldLeft(H, sides[1..], proof[1..], if sides[0] == FromLeft then Join(H, FromLeft, proof[0], r) else r)
  {
    var n := |sides| - 1;
    if n > 0 {
      FoldsFromSecond(H, sides[..n], proof[..n], r);
      assert sides[1..][..n - 1] == sides[..n][1..];
      assert proof[1..][..n - 1] == proof[..n][1..];
    }
  }

  /** An older root cannot be folded from digests and a first value of another length. */
  function SeedCollision(H: HashFn, u: Tree, sides: seq<Side>, proof: seq<Bytes>, seed: Bytes): (c: Collision)
    requires |sides| == |proof| && |seed| != 32
    requires forall i :: 0 <= i < |proof| ==> |proof[i]| == 32
    requires FoldLeft(H, sides, proof, seed) == TreeHash(H, u)
    ensures IsCollision(H, c)
    decreases |sides|
  {
    var n := |sides| - 1;
    var below := FoldLeft(H, sides[..n], proof[..n], seed);
    if sides[n] == FromRight then SeedCollision(H, u, sides[..n], proof[..n], seed)
    else
      var input := NodeInput(proof[n], below);
      if input != TreeInput(H, u) then Collision(input, TreeInput(H, u))
      else
        assert input[0] == 1;
        NodeInputInjective(proof[n], below, TreeHash(H, u.left), TreeHash(H, u.right));
        SeedCollision(H, u.right, sides[..n], proof[..n], seed)
  }

  lemma SiblingsAreDigests(H: HashFn, t: Tree, sides: seq<Side>)
    requires At(t, sides).Some?
    ensures forall i :: 0 <= i < |sides| ==> |Siblings(H, t, sides)[i]| == 32
  {
  }

  /** Two trees whose hashes come out of the two folds: the older one's entries come first in
      the newer one, or this finds the collision. Path elements of any length are covered. */
  function PrefixCollision(H: HashFn, u: Tree, t: Tree, sides: seq<Side>, proof: seq<Bytes>, seed: Bytes)
    : (c: Option<Collision>)
    requires |sides| == |proof|
    requires FoldLeft(H, sides, proof, seed) == TreeHash(H, u)
    requires FoldUp(H, sides, proof, seed) == TreeHash(H, t)
    ensures c.Some? ==> IsCollision(H, c.value)
    ensures c.None? ==> Entries(u) <= Entries(t)
    decreases |sides|
  {
    if sides == [] then TreeCollision(H, u, t)
    else if |seed| == 32 then
      var c := PathCollision(H, t, sides, proof, seed);
      if c.Some? then c
      else
        FoldLeftOfSiblings(H, t, sides);
        PrefixTreeIsPrefix(t, sides);
        TreeCollision(H, u, PrefixTree(t, sides))
    else
      FoldsFromSecond(H, sides, proof, seed);
      if sides[0] == FromLeft then
        PrefixCollision(H, u, t, sides[1..], proof[1..], Join(H, FromLeft, proof[0], seed))
      else
        var c := PathCollision(H, t, sides[1..], proof[1..], Join(H, FromRight, proof[0], seed));
        if c.Some? then c
        else
          SiblingsAreDigests(H, t, sides[1..]);
          Some(SeedCollision(H, u, sides[1..], proof[1..], seed))
  }

  /** Whatever two sizes a proof claims, and whatever it is made of: when both roots are tree
      hashes, the older list is a prefix of the newer one, or this finds the collision. */
  function AppendCollision(H: HashFn, m: Option<int>, n: Option<int>, older: seq<Bytes>, newer: seq<Bytes>,
                           proof: seq<Bytes>): (c: Option<Collision>)
    requires ConsistencyAccepted(H, m, n, MerkleTreeHash(H, older), MerkleTreeHash(H, newer), proof)
    ensures c.Some? ==> IsCollision(H, c.value)
    ensures c.None? ==> older <= newer
  {
    var path := FullPath(m.value, MerkleTreeHash(H, older), proof);
    BuildIsTheTree(H, older);
    BuildIsTheTree(H, newer);
    var sides := StrippedWalk(m.value, n.value, |path| - 1).value;
    PrefixCollision(H, Build(older), Build(newer), sides, path[1..], path[0])
  }
}
