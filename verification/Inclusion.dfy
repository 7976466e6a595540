/** Inclusion proofs: the verifier's loop of lib/vrp-tlog.mjs, with its 32-bit
    shifts, against the prover and the tree. */
module Inclusion {
  import opened Wrappers
  import opened Int32
  import opened Merkle
  import opened AuditPath
  import opened Routes

  // ------------------------------------------------- the split point's own loop

  /** Within 32 bits the shifting loop finds the split point. */
  method LargestPowerOfTwoLessThan(n: nat) returns (k: nat)
    requires n <= 0x4000_0000  // beyond this the loop never ends: see SplitLoopEnds
    ensures k == SplitPoint(n)
    ensures n >= 2 ==> IsPow2(k) && k < n <= 2 * k
  {
    k := 1;
    while Shl1(k) < n
      invariant 0 < k < 0x4000_0000 && SplitFrom(k, n) == SplitPoint(n)
      decreases n - k
    {
      k := Shl1(k);
    }
    if n >= 2 {
      SplitPointIsUnique(n, k);
    }
  }

  /** The value of k after i turns of the loop, guard or no guard. */
  function SplitLoop(i: nat): int {
    if i == 0 then 1 else Shl1(SplitLoop(i - 1))
  }

  /** The loop meets a false guard exactly for sizes up to 2^30. */
  lemma {:induction false} SplitLoopEnds(n: nat)
    ensures (exists i: nat :: !(Shl1(SplitLoop(i)) < n)) <==> n <= 0x4000_0000
  {
    if n <= 0x4000_0000 {
      var i := SplitReaches(0);
      assert !(Shl1(SplitLoop(i)) < n);
    } else {
      forall i: nat ensures Shl1(SplitLoop(i)) < n {
        SplitOrbit(i + 1);
      }
    }
  }

  lemma {:induction false} SplitReaches(i: nat) returns (j: nat)
    requires 0 < SplitLoop(i) <= 0x2000_0000 && IsPow2(SplitLoop(i))
    ensures SplitLoop(j) == 0x2000_0000
    decreases 0x2000_0000 - SplitLoop(i)
  {
    var k := SplitLoop(i);
    if k == 0x2000_0000 {
      j := i;
    } else {
      LargePowers();
      Pow2Gap(k, 0x2000_0000);
      Pow2Double(k);
      j := SplitReaches(i + 1);
    }
  }

  lemma {:induction false} SplitOrbit(i: nat)
    ensures SplitLoop(i) in {0, -MAX32} || (0 < SplitLoop(i) <= 0x4000_0000 && IsPow2(SplitLoop(i)))
  {
    if i > 0 {
      SplitOrbit(i - 1);
      var k := SplitLoop(i - 1);
      if 0 < k < 0x4000_0000 {
        LargePowers();
        Pow2Gap(k, 0x4000_0000);
        Pow2Double(k);
      }
    }
  }

  // ------------------------------------------------------------- the walk

  /** `do { fn >>= 1; sn >>= 1; } while ((fn & 1) === 0 && fn !== 0)`.
      It ends for every pair of integers, negative or out of range too. */
  function ShiftOut(fn: int, sn: int): (int, int)
    decreases if fn < 0 then -fn else fn
  {
    var f, s := Shr1(fn), Shr1(sn);
    if LowBit(f) == 0 && f != 0 then ShiftOut(f, s) else (f, s)
  }

  /** One turn of the verifiers' main loop: on which side the sibling is hashed, and the
      integers that the turn leaves. */
  function SideOf(fn: int, sn: int): Side {
    if LowBit(fn) == 1 || fn == sn then FromLeft else FromRight
  }

  function Next(fn: int, sn: int): (int, int) {
    if LowBit(fn) == 0 && fn == sn then (Shr1(ShiftOut(fn, sn).0), Shr1(ShiftOut(fn, sn).1))
    else (Shr1(fn), Shr1(sn))
  }

  /** The sides taken by `steps` turns; None when sn is 0 too early or is not 0 at the end. */
  function Walk(fn: int, sn: int, steps: nat): (w: Option<seq<Side>>)
    ensures w.Some? ==> |w.value| == steps
    decreases steps
  {
    if steps == 0 then (if sn == 0 then Some([]) else None)
    else if sn == 0 then None
    else Onto([SideOf(fn, sn)], Walk(Next(fn, sn).0, Next(fn, sn).1, steps - 1))
  }

  function Onto(before: seq<Side>, w: Option<seq<Side>>): Option<seq<Side>> {
    if w.None? then None else Some(before + w.value)
  }

  /** A loop that has taken `sides` and stands at fn, sn with `left` turns to go is on the walk `w`. */
  predicate OnWalk(w: Option<seq<Side>>, sides: seq<Side>, fn: int, sn: int, left: nat) {
    w == Onto(sides, Walk(fn, sn, left))
  }

  lemma WalkStarts(fn: int, sn: int, steps: nat)
    ensures OnWalk(Walk(fn, sn, steps), [], fn, sn, steps)
  {
    var w := Walk(fn, sn, steps);
    if w.Some? {
      assert [] + w.value == w.value;
    }
  }

  lemma WalkGoesOn(w: Option<seq<Side>>, sides: seq<Side>, fn: int, sn: int, left: nat)
    requires OnWalk(w, sides, fn, sn, left) && left > 0 && sn != 0
    ensures OnWalk(w, sides + [SideOf(fn, sn)], Next(fn, sn).0, Next(fn, sn).1, left - 1)
  {
    var rest := Walk(Next(fn, sn).0, Next(fn, sn).1, left - 1);
    if rest.Some? {
      assert sides + ([SideOf(fn, sn)] + rest.value) == (sides + [SideOf(fn, sn)]) + rest.value;
    }
  }

  lemma WalkEnds(w: Option<seq<Side>>, sides: seq<Side>, fn: int, sn: int, left: nat)
    requires OnWalk(w, sides, fn, sn, left)
    ensures left > 0 && sn == 0 ==> w == None
    ensures left == 0 ==> w == if sn == 0 then Some(sides) else None
  {
    assert sides + [] == sides;
  }

  /** The inner loop as the source runs it. */
  method ShiftPastZeros(fn0: int, sn0: int) returns (fn: int, sn: int)
    ensures (fn, sn) == ShiftOut(fn0, sn0)
  {
    fn, sn := Shr1(fn0), Shr1(sn0);
    while LowBit(fn) == 0 && fn != 0
      invariant ShiftOut(fn0, sn0) == if LowBit(fn) == 0 && fn != 0 then ShiftOut(fn, sn) else (fn, sn)
      decreases if fn < 0 then -fn else fn
    {
      fn, sn := Shr1(fn), Shr1(sn);
    }
  }

  /** The shifts of one turn, after its hash. */
  method Advance(fn0: int, sn0: int) returns (fn: int, sn: int)
    ensures (fn, sn) == Next(fn0, sn0)
  {
    fn, sn := fn0, sn0;
    if LowBit(fn) == 0 && fn == sn {
      fn, sn := ShiftPastZeros(fn, sn);
    }
    fn := Shr1(fn);
    sn := Shr1(sn);
  }

  /** An accepted inclusion proof. The index and the size are None when the document
      holds anything but integers. */
  predicate InclusionAccepted(H: HashFn, leafHash: Bytes, leafIndex: Option<int>, treeSize: Option<int>,
                              proof: seq<Bytes>, root: Bytes)
  {
    leafIndex.Some? && treeSize.Some? && 0 <= leafIndex.value < treeSize.value &&
    AcceptedAlong(H, Walk(leafIndex.value, treeSize.value - 1, |proof|), proof, leafHash, root)
  }

  predicate AcceptedAlong(H: HashFn, w: Option<seq<Side>>, proof: seq<Bytes>, leafHash: Bytes, root: Bytes)
    requires w.Some? ==> |w.value| == |proof|
  {
    FoldedRoot(H, w, proof, leafHash) == Some(root)
  }

  function FoldedRoot(H: HashFn, w: Option<seq<Side>>, proof: seq<Bytes>, r: Bytes): Option<Bytes>
    requires w.Some? ==> |w.value| == |proof|
  {
    if w.None? then None else Some(FoldUp(H, w.value, proof, r))
  }

  method VerifyInclusion(H: HashFn, leafHash: Bytes, leafIndex: Option<int>, treeSize: Option<int>,
                         proof: seq<Bytes>, root: Bytes) returns (ok: bool)
    ensures ok == InclusionAccepted(H, leafHash, leafIndex, treeSize, proof, root)
  {
    if leafIndex.None? || treeSize.None? {
      return false;
    }
    if leafIndex.value < 0 || leafIndex.value >= treeSize.value {
      return false;
    }
    var r := FoldPath(H, leafIndex.value, treeSize.value - 1, proof, leafHash);
    return r == Some(root);
  }

  /** After the elements taken along `sides`, the loop holds their fold. */
  predicate FoldedSoFar(H: HashFn, sides: seq<Side>, proof: seq<Bytes>, leafHash: Bytes, r: Bytes) {
    |sides| <= |proof| && r == FoldUp(H, sides, proof[..|sides|], leafHash)
  }

  lemma FoldPathStep(H: HashFn, sides: seq<Side>, side: Side, proof: seq<Bytes>, leafHash: Bytes, r: Bytes)
    requires |sides| < |proof| && FoldedSoFar(H, sides, proof, leafHash, r)
    ensures FoldedSoFar(H, sides + [side], proof, leafHash, Join(H, side, proof[|sides|], r))
  {
    FoldUpSnoc(H, sides, side, proof[..|sides|], proof[|sides|], leafHash);
    assert proof[..|sides| + 1] == proof[..|sides|] + [proof[|sides|]];
  }

  /** What the loop keeps: `sides` of the whole walk are behind it, and r is the fold along them. */
  predicate OnPath(H: HashFn, whole: Option<seq<Side>>, sides: seq<Side>, fn: int, sn: int, proof: seq<Bytes>,
                   leafHash: Bytes, r: Bytes)
  {
    FoldedSoFar(H, sides, proof, leafHash, r) && OnWalk(whole, sides, fn, sn, |proof| - |sides|)
  }

  lemma PathStarts(H: HashFn, fn: int, sn: int, proof: seq<Bytes>, leafHash: Bytes)
    ensures OnPath(H, Walk(fn, sn, |proof|), [], fn, sn, proof, leafHash, leafHash)
  {
    WalkStarts(fn, sn, |proof|);
  }

  lemma PathGoesOn(H: HashFn, whole: Option<seq<Side>>, sides: seq<Side>, fn: int, sn: int, proof: seq<Bytes>,
                   leafHash: Bytes, r: Bytes)
    requires |sides| < |proof| && sn != 0 && OnPath(H, whole, sides, fn, sn, proof, leafHash, r)
    ensures OnPath(H, whole, sides + [SideOf(fn, sn)], Next(fn, sn).0, Next(fn, sn).1, proof, leafHash,
                   Join(H, SideOf(fn, sn), proof[|sides|], r))
  {
    WalkGoesOn(whole, sides, fn, sn, |proof| - |sides|);
    FoldPathStep(H, sides, SideOf(fn, sn), proof, leafHash, r);
  }

  lemma PathEnds(H: HashFn, whole: Option<seq<Side>>, sides: seq<Side>, fn: int, sn: int, proof: seq<Bytes>,
                 leafHash: Bytes, r: Bytes)
    requires OnPath(H, whole, sides, fn, sn, proof, leafHash, r)
    ensures |sides| < |proof| && sn == 0 ==> whole == None
    ensures |sides| == |proof| && sn != 0 ==> whole == None
    ensures |sides| == |proof| && sn == 0 ==> whole == Some(sides) && r == FoldUp(H, sides, proof, leafHash)
  {
    WalkEnds(whole, sides, fn, sn, |proof| - |sides|);
    assert proof[..|proof|] == proof;
  }

  /** The main loop: the root recomputed, or None where the source gives up on sn. */
  method FoldPath(H: HashFn, fn0: int, sn0: int, proof: seq<Bytes>, leafHash: Bytes) returns (root: Option<Bytes>)
    ensures root == FoldedRoot(H, Walk(fn0, sn0, |proof|), proof, leafHash)
  {
    var fn, sn, r := fn0, sn0, leafHash;
    ghost var whole := Walk(fn, sn, |proof|);
    ghost var sides: seq<Side> := [];
    PathStarts(H, fn, sn, proof, leafHash);
    for i := 0 to |proof|
      invariant |sides| == i
      invariant OnPath(H, whole, sides, fn, sn, proof, leafHash, r)
    {
      var p := proof[i];
      PathEnds(H, whole, sides, fn, sn, proof, leafHash, r);
      if sn == 0 {
        return None;
      }
      PathGoesOn(H, whole, sides, fn, sn, proof, leafHash, r);
      sides := sides + [SideOf(fn, sn)];
      if LowBit(fn) == 1 || fn == sn {
        r := HashChildren(H, p, r);
      } else {
        r := HashChildren(H, r, p);
      }
      fn, sn := Advance(fn, sn);
    }
    PathEnds(H, whole, sides, fn, sn, proof, leafHash, r);
    if sn != 0 {
      return None;
    }
    return Some(r);
  }

  // ------------------------------------------- 32 bits against all integers

  function ExactWalk(fn: nat, sn: nat, steps: nat): Option<seq<Side>>
    requires fn <= sn
  {
    if steps == |Route(fn, sn)| then Some(Route(fn, sn)) else None
  }

  lemma {:induction false} ShiftOutIsOddPart(x: nat)
    requires 0 < x < MAX32 && x % 2 == 0
    ensures ShiftOut(x, x) == (OddPart(x), OddPart(x))
  {
    if (x / 2) % 2 == 0 {
      ShiftOutIsOddPart(x / 2);
    }
  }

  lemma {:induction false} NextIsExact(fn: nat, sn: nat)
    requires fn <= sn < MAX32 && sn > 0
    ensures var (f, s) := Next(fn, sn);
            0 <= f <= s < sn && Route(fn, sn) == [SideOf(fn, sn)] + Route(f, s)
  {
    if fn == sn && fn % 2 == 0 {
      ShiftOutIsOddPart(fn);
    }
  }

  lemma {:induction false} WalkIsRoute(fn: nat, sn: nat, steps: nat)
    requires fn <= sn < MAX32
    ensures Walk(fn, sn, steps) == ExactWalk(fn, sn, steps)
    decreases steps
  {
    if sn > 0 {
      NextIsExact(fn, sn);
      if steps > 0 {
        WalkIsRoute(Next(fn, sn).0, Next(fn, sn).1, steps - 1);
      }
    }
  }

  /** Once sn is negative it stays so, and nothing is accepted. */
  lemma {:induction false} NegativeNeverEnds(fn: int, sn: int, steps: nat)
    requires -MAX32 <= sn < 0
    ensures Walk(fn, sn, steps).None?
    decreases steps
  {
    NextKeepsSign(fn, sn);
    if steps > 0 {
      NegativeNeverEnds(Next(fn, sn).0, Next(fn, sn).1, steps - 1);
    }
  }

  /** An operand with bit 31 set is negative from the first shift on. */
  predicate Negative32(sn: int) {
    ToInt32(sn) < 0
  }

  lemma {:induction false} ShiftOutKeepsSign(fn: int, sn: int)
    requires Negative32(sn)
    ensures -MAX32 <= ShiftOut(fn, sn).1 < 0
    decreases if fn < 0 then -fn else fn
  {
    var f, s := Shr1(fn), Shr1(sn);
    if LowBit(f) == 0 && f != 0 {
      ShiftOutKeepsSign(f, s);
    }
  }

  lemma {:induction false} NextKeepsSign(fn: int, sn: int)
    requires Negative32(sn)
    ensures -MAX32 <= Next(fn, sn).1 < 0
  {
    ShiftOutKeepsSign(fn, sn);
  }

  lemma {:induction false} TopBitNeverEnds(fn: int, sn: int, steps: nat)
    requires Negative32(sn)
    ensures Walk(fn, sn, steps).None?
  {
    var next := Next(fn, sn);
    NextKeepsSign(fn, sn);
    if steps > 0 {
      NegativeNeverEnds(next.0, next.1, steps - 1);
    }
  }

  /** Sizes whose last index has bit 31 set (2^31 < n <= 2^32, to begin with) accept no proof. */
  lemma {:induction false} TopBitRejectsAll(H: HashFn, leafHash: Bytes, index: int, size: int, proof: seq<Bytes>,
                                            root: Bytes)
    requires Negative32(size - 1)
    ensures !InclusionAccepted(H, leafHash, Some(index), Some(size), proof, root)
  {
    TopBitNeverEnds(index, size - 1, |proof|);
  }

  // No walk is longer than 31 turns, whatever the two integers.

  lemma {:induction false} ShiftOutHalves(fn: int, sn: int)
    requires !Negative32(sn)
    ensures 0 <= ShiftOut(fn, sn).1 <= ToInt32(sn) / 2
    decreases if fn < 0 then -fn else fn
  {
    var f, s := Shr1(fn), Shr1(sn);
    if LowBit(f) == 0 && f != 0 {
      ShiftOutHalves(f, s);
    }
  }

  lemma {:induction false} NextHalves(fn: int, sn: int)
    requires !Negative32(sn)
    ensures 0 <= Next(fn, sn).1 <= ToInt32(sn) / 2
  {
    if LowBit(fn) == 0 && fn == sn {
      ShiftOutHalves(fn, sn);
    }
  }

  lemma {:induction false} WalkBelow(fn: int, sn: int, steps: nat, h: nat)
    requires 0 <= sn < MAX32 && sn < Pow2(h) && Walk(fn, sn, steps).Some?
    ensures steps <= h
    decreases h
  {
    if sn > 0 && h > 0 {
      NextHalves(fn, sn);
      WalkBelow(Next(fn, sn).0, Next(fn, sn).1, steps - 1, h - 1);
    }
  }

  lemma PowersOfTwo()
    ensures Pow2(30) == 0x4000_0000 && Pow2(31) == MAX32
  {
    assert Pow2(8) == 0x100;
    assert Pow2(16) == 0x1_0000;
    assert Pow2(24) == 0x100_0000;
  }

  lemma {:induction false} WalkIsShort(fn: int, sn: int, steps: nat)
    requires Walk(fn, sn, steps).Some?
    ensures steps <= 31
  {
    if Negative32(sn) {
      TopBitNeverEnds(fn, sn, steps);
    } else if steps > 0 {
      NextHalves(fn, sn);
      PowersOfTwo();
      WalkBelow(Next(fn, sn).0, Next(fn, sn).1, steps - 1, 30);
    }
  }

  lemma {:induction false} LargeLogarithm(n: nat)
    requires n > MAX32
    ensures CeilLog2(n) >= 32
  {
    PowersOfTwo();
    CeilLog2IsLeast(n, 31);
  }

  lemma RouteFromZeroLength(sn: nat)
    ensures |Route(0, sn)| == CeilLog2(sn + 1)
  {
    RouteIsPath(0, sn + 1);
    PathSidesLength(0, sn + 1);
  }

  /** Crossing a power of two makes the walk longer. */
  lemma {:induction false} LongerBeyondPow2(x: nat, y: nat, k: nat)
    requires IsPow2(k) && x < k <= y
    ensures |Route(0, x)| < |Route(0, y)|
  {
    RouteFromZeroLength(x);
    RouteFromZeroLength(y);
    CeilLog2AtSplit(k + 1, k);
    CeilLog2Monotone(x + 1, k);
    CeilLog2Monotone(k + 1, y + 1);
  }

  lemma {:induction false} LargeSizeDiffers(sn: nat, steps: nat)
    requires sn >= MAX32 && steps == |Route(0, sn / 2)|
    ensures Walk(0, sn, steps + 1) != ExactWalk(0, sn, steps + 1)
  {
    var low := Shr1(sn);
    assert Next(0, sn) == (0, low);
    assert Route(0, sn) == [FromRight] + Route(0, sn / 2);
    if low < 0 {
      NegativeNeverEnds(0, low, steps);
    } else {
      WalkIsRoute(0, low, steps);
      LargePowers();
      LongerBeyondPow2(low, sn / 2, 0x4000_0000);
    }
  }

  /** The loop's 32-bit operators compute the unbounded answer for every index and every
      proof length exactly when the tree has at most 2^31 entries. */
  lemma {:induction false} ThirtyTwoBitsSuffice(n: nat)
    requires n > 0
    ensures (forall m: nat, sn: nat, steps: nat :: m <= sn == n - 1 ==> Walk(m, sn, steps) == ExactWalk(m, sn, steps))
       <==> n <= MAX32
  {
    if n <= MAX32 {
      forall m: nat, sn: nat, steps: nat | m <= sn == n - 1
        ensures Walk(m, sn, steps) == ExactWalk(m, sn, steps)
      {
        WalkIsRoute(m, n - 1, steps);
      }
    } else {
      LargeSizeDiffers(n - 1, |Route(0, (n - 1) / 2)|);
    }
  }

  // ------------------------------------------------ prover and verifier agree

  lemma FoldedAlong(H: HashFn, sides: seq<Side>, w: Option<seq<Side>>, proof: seq<Bytes>, r: Bytes, root: Bytes)
    requires w == if |proof| == |sides| then Some(sides) else None
    ensures FoldedRoot(H, w, proof, r) == Some(root) <==> |proof| == |sides| && FoldUp(H, sides, proof, r) == root
  {
  }

  lemma AcceptedIfWalked(H: HashFn, leafHash: Bytes, m: int, n: int, sides: seq<Side>, proof: seq<Bytes>, root: Bytes)
    requires 0 <= m < n && Walk(m, n - 1, |proof|) == if |proof| == |sides| then Some(sides) else None
    ensures InclusionAccepted(H, leafHash, Some(m), Some(n), proof, root)
       <==> |proof| == |sides| && FoldUp(H, sides, proof, leafHash) == root
  {
    FoldedAlong(H, sides, Walk(m, n - 1, |proof|), proof, leafHash, root);
  }

  lemma {:induction false} WalkIsPath(m: nat, n: nat, steps: nat)
    requires m < n <= MAX32
    ensures Walk(m, n - 1, steps) == if steps == |PathSides(m, n)| then Some(PathSides(m, n)) else None
  {
    WalkIsRoute(m, n - 1, steps);
    RouteIsPath(m, n);
  }

  /** For sizes that fit, accepting is folding along the tree's own path. */
  lemma {:induction false} AcceptedIsFold(H: HashFn, leafHash: Bytes, m: nat, n: nat, proof: seq<Bytes>, root: Bytes)
    requires m < n <= MAX32
    ensures InclusionAccepted(H, leafHash, Some(m), Some(n), proof, root)
       <==> |proof| == |PathSides(m, n)| && FoldUp(H, PathSides(m, n), proof, leafHash) == root
  {
    WalkIsPath(m, n, |proof|);
    AcceptedIfWalked(H, leafHash, m, n, PathSides(m, n), proof, root);
  }

  /** Entry m, found by splitting as the provers do. */
  function EntryOf(m: nat, entries: seq<Bytes>): (e: Bytes)
    requires m < |entries|
    ensures e == entries[m]
    decreases |entries|
  {
    if |entries| == 1 then entries[0]
    else
      SplitPointIsUnique(|entries|, SplitPoint(|entries|));
      var k := SplitPoint(|entries|);
      if m < k then EntryOf(m, entries[..k]) else EntryOf(m - k, entries[k..])
  }

  lemma EntrySplits(m: nat, entries: seq<Bytes>, k: nat)
    requires IsPow2(k) && k < |entries| <= 2 * k && m < |entries|
    ensures EntryOf(m, entries) == if m < k then EntryOf(m, entries[..k]) else EntryOf(m - k, entries[k..])
  {
    SplitPointIsUnique(|entries|, k);
  }

  /** The subtree at the prover's path is the entry's leaf, and the proof is its siblings. */
  predicate ProvesEntry(H: HashFn, m: nat, entries: seq<Bytes>)
    requires m < |entries|
  {
    var t, sides := Build(entries), PathSides(m, |entries|);
    At(t, sides) == Some(Leaf(EntryOf(m, entries))) && Siblings(H, t, sides) == InclusionProof(H, m, entries)
  }

  lemma {:induction false} ProofIsSiblings(H: HashFn, m: nat, entries: seq<Bytes>)
    requires m < |entries|
    ensures ProvesEntry(H, m, entries)
    decreases |entries|, 1
  {
    if |entries| == 1 {
      ProofOfOnly(H, entries);
    } else {
      var k := SplitPoint(|entries|);
      SplitPointIsUnique(|entries|, k);
      ProofOfHalf(H, m, entries, entries[..k], entries[k..], k);
    }
  }

  lemma {:induction false} ProofOfHalf(H: HashFn, m: nat, entries: seq<Bytes>, lo: seq<Bytes>, hi: seq<Bytes>, k: nat)
    requires IsPow2(k) && m < |entries| && k < |entries| <= 2 * k && lo == entries[..k] && hi == entries[k..]
    ensures ProvesEntry(H, m, entries)
    decreases |entries|, 0
  {
    if m < k {
      ProofIsSiblings(H, m, lo);
      ProofBelow(H, m, entries, lo, hi, k);
    } else {
      ProofIsSiblings(H, m - k, hi);
      ProofAbove(H, m, entries, lo, hi, k);
    }
  }

  lemma ProofOfOnly(H: HashFn, entries: seq<Bytes>)
    requires |entries| == 1
    ensures ProvesEntry(H, 0, entries)
  {
  }

  lemma ProofBelow(H: HashFn, m: nat, entries: seq<Bytes>, lo: seq<Bytes>, hi: seq<Bytes>, k: nat)
    requires IsPow2(k) && m < k < |entries| <= 2 * k && lo == entries[..k] && hi == entries[k..]
    requires ProvesEntry(H, m, lo)
    ensures ProvesEntry(H, m, entries)
  {
    BuildSplits(entries, k);
    InclusionProofSplits(H, m, entries, k);
    EntrySplits(m, entries, k);
    SidesBelow(m, |entries|, k);
    BuildHash(H, hi);
    DownLeft(H, Build(entries), Build(hi), PathSides(m, |entries|), PathSides(m, k), Leaf(EntryOf(m, lo)),
             InclusionProof(H, m, lo));
  }

  lemma ProofAbove(H: HashFn, m: nat, entries: seq<Bytes>, lo: seq<Bytes>, hi: seq<Bytes>, k: nat)
    requires IsPow2(k) && k < |entries| <= 2 * k && k <= m < |entries| && lo == entries[..k] && hi == entries[k..]
    requires ProvesEntry(H, m - k, hi)
    ensures ProvesEntry(H, m, entries)
  {
    BuildSplits(entries, k);
    InclusionProofSplits(H, m, entries, k);
    EntrySplits(m, entries, k);
    SidesAbove(m, |entries|, k);
    BuildHash(H, lo);
    DownRight(H, Build(entries), Build(lo), PathSides(m, |entries|), PathSides(m - k, |hi|), Leaf(EntryOf(m - k, hi)),
              InclusionProof(H, m - k, hi));
  }

  /** Every entry's own proof is accepted. */
  lemma {:induction false} InclusionCompleteness(H: HashFn, entries: seq<Bytes>, m: nat)
    requires m < |entries| <= MAX32
    ensures InclusionAccepted(H, HashLeaf(H, entries[m]), Some(m), Some(|entries|),
                              InclusionProof(H, m, entries), MerkleTreeHash(H, entries))
  {
    var n := |entries|;
    var proof: seq<Bytes> := InclusionProof(H, m, entries);
    ProofIsSiblings(H, m, entries);
    AcceptedIsFold(H, HashLeaf(H, entries[m]), m, n, proof, MerkleTreeHash(H, entries));
    FoldOfSiblings(H, Build(entries), PathSides(m, n));
    BuildIsTheTree(H, entries);
  }

  /** A proof accepted for the log's own size is about the entry at that index, and is the
      one proof there is, or this finds the collision. */
  function InclusionCollision(H: HashFn, entry: Bytes, m: nat, entries: seq<Bytes>, proof: seq<Bytes>)
    : (c: Option<Collision>)
    requires |entries| <= MAX32
    requires InclusionAccepted(H, HashLeaf(H, entry), Some(m), Some(|entries|), proof, MerkleTreeHash(H, entries))
    ensures c.Some? ==> IsCollision(H, c.value)
    ensures c.None? ==> entry == entries[m] && proof == InclusionProof(H, m, entries)
  {
    AcceptedIsFold(H, HashLeaf(H, entry), m, |entries|, proof, MerkleTreeHash(H, entries));
    ProofIsSiblings(H, m, entries);
    MembershipCollision(H, entry, entries, PathSides(m, |entries|), proof)
  }

  /** The same for a leaf hash that is not known to be the hash of an entry. */
  function LeafHashCollision(H: HashFn, leafHash: Digest, m: nat, entries: seq<Bytes>, proof: seq<Bytes>)
    : (c: Option<Collision>)
    requires |entries| <= MAX32
    requires InclusionAccepted(H, leafHash, Some(m), Some(|entries|), proof, MerkleTreeHash(H, entries))
    ensures c.Some? ==> IsCollision(H, c.value)
    ensures c.None? ==> leafHash == HashLeaf(H, entries[m]) && proof == InclusionProof(H, m, entries)
  {
    AcceptedIsFold(H, leafHash, m, |entries|, proof, MerkleTreeHash(H, entries));
    ProofIsSiblings(H, m, entries);
    BuildIsTheTree(H, entries);
    assert TreeHash(H, Leaf(entries[m])) == HashLeaf(H, entries[m]);
    PathCollision(H, Build(entries), PathSides(m, |entries|), proof, leafHash)
  }

  /** Whatever index and size a proof claims, what it proves included is included. */
  function AnySizeCollision(H: HashFn, entry: Bytes, leafIndex: Option<int>, treeSize: Option<int>,
                            entries: seq<Bytes>, proof: seq<Bytes>): (c: Option<Collision>)
    requires InclusionAccepted(H, HashLeaf(H, entry), leafIndex, treeSize, proof, MerkleTreeHash(H, entries))
    ensures c.Some? ==> IsCollision(H, c.value)
    ensures c.None? ==> entry in entries
  {
    MembershipCollision(H, entry, entries, Walk(leafIndex.value, treeSize.value - 1, |proof|).value, proof)
  }

  // ------------------------------------------------- which entry a claim names

  /** The loop, told that the entry has index i in a tree of s entries, takes exactly these sides. */
  predicate Claims(i: int, s: int, sides: seq<Side>) {
    0 <= i < s && Walk(i, s - 1, |sides|) == Some(sides)
  }

  /** Of the index and the size only the walk matters. */
  lemma {:induction false} WalkedAlike(H: HashFn, leafHash: Bytes, i: int, s: int, j: int, n: int, proof: seq<Bytes>,
                                       root: Bytes)
    requires 0 <= i < s && 0 <= j < n && Walk(i, s - 1, |proof|) == Walk(j, n - 1, |proof|)
    ensures InclusionAccepted(H, leafHash, Some(i), Some(s), proof, root) ==
            InclusionAccepted(H, leafHash, Some(j), Some(n), proof, root)
  {
    assert AcceptedAlong(H, Walk(i, s - 1, |proof|), proof, leafHash, root)
        == AcceptedAlong(H, Walk(j, n - 1, |proof|), proof, leafHash, root);
  }

  /** In a log of n entries no leaf but that of entry i lies where the claim leads. */
  predicate NamesOnly(i: int, s: int, n: nat) {
    forall j :: 0 <= j < n && Claims(i, s, PathSides(j, n)) ==> j == i
  }

  lemma {:induction false} WalkIsOne(fn: int, sn: int, a: nat, b: nat)
    requires Walk(fn, sn, a).Some? && Walk(fn, sn, b).Some?
    ensures a == b
    decreases a
  {
    if a > 0 && b > 0 {
      WalkIsOne(Next(fn, sn).0, Next(fn, sn).1, a - 1, b - 1);
    }
  }

  lemma SnocIsOne(a: seq<Side>, x: Side, b: seq<Side>, y: Side)
    requires a + [x] == b + [y]
    ensures a == b && x == y
  {
    var c, d := a + [x], b + [y];
    assert c[|a|] == x && d[|b|] == y && c[..|a|] == a && d[..|b|] == b;
  }

  /** The path of a leaf within its half, and the side of the other half. */
  lemma PathInHalf(i: nat, n: nat, k: nat)
    requires IsPow2(k) && k < n <= 2 * k && i < n
    ensures PathSides(i, n) == if i < k then PathSides(i, k) + [FromRight] else PathSides(i - k, n - k) + [FromLeft]
  {
    if i < k {
      SidesBelow(i, n, k);
    } else {
      SidesAbove(i, n, k);
    }
  }

  /** Each leaf has a path of its own. */
  lemma {:induction false} PathIsOwn(i: nat, j: nat, n: nat)
    requires i < n && j < n && PathSides(i, n) == PathSides(j, n)
    ensures i == j
    decreases n, 1
  {
    if n > 1 {
      var k := SplitPoint(n);
      SplitPointIsUnique(n, k);
      PathInHalf(i, n, k);
      PathInHalf(j, n, k);
      PathIsOwnInHalf(i, j, n, k);
    }
  }

  lemma {:induction false} PathIsOwnInHalf(i: nat, j: nat, n: nat, k: nat)
    requires 0 < k < n && i < n && j < n
    requires (if i < k then PathSides(i, k) + [FromRight] else PathSides(i - k, n - k) + [FromLeft])
          == (if j < k then PathSides(j, k) + [FromRight] else PathSides(j - k, n - k) + [FromLeft])
    ensures i == j
    decreases n, 0
  {
    var a := if i < k then PathSides(i, k) else PathSides(i - k, n - k);
    var b := if j < k then PathSides(j, k) else PathSides(j - k, n - k);
    SnocIsOne(a, if i < k then FromRight else FromLeft, b, if j < k then FromRight else FromLeft);
    if i < k {
      PathIsOwn(i, j, k);
    } else {
      PathIsOwn(i - k, j - k, n - k);
    }
  }

  /** A claim leads to at most one leaf of a log. */
  lemma {:induction false} ClaimsOneLeaf(i: int, s: int, j: nat, k: nat, n: nat)
    requires j < n && k < n && Claims(i, s, PathSides(j, n)) && Claims(i, s, PathSides(k, n))
    ensures j == k
  {
    WalkIsOne(i, s - 1, |PathSides(j, n)|, |PathSides(k, n)|);
    PathIsOwn(j, k, n);
  }

  /** A leaf of the built tree is that of an entry, at the entry's own path. */
  lemma {:induction false} LeafHasIndex(entries: seq<Bytes>, sides: seq<Side>, entry: Bytes) returns (j: nat)
    requires At(Build(entries), sides) == Some(Leaf(entry))
    ensures j < |entries| && PathSides(j, |entries|) == sides && EntryOf(j, entries) == entry
    decreases |entries|
  {
    var n := |entries|;
    if n <= 1 {
      j := 0;
    } else {
      var k := SplitPoint(n);
      SplitPointIsUnique(n, k);
      BuildSplits(entries, k);
      j := LeafInHalf(entries, entries[..k], entries[k..], k, sides, entry);
    }
  }

  lemma AtLast(l: Tree, r: Tree, front: seq<Side>, side: Side)
    ensures At(Node(l, r), front + [side]) == At(if side == FromLeft then r else l, front)
  {
    assert (front + [side])[..|front|] == front;
  }

  lemma {:induction false} LeafInHalf(entries: seq<Bytes>, lo: seq<Bytes>, hi: seq<Bytes>, k: nat, sides: seq<Side>,
                                      entry: Bytes)
    returns (j: nat)
    requires IsPow2(k) && k < |entries| <= 2 * k && lo == entries[..k] && hi == entries[k..]
    requires At(Node(Build(lo), Build(hi)), sides) == Some(Leaf(entry))
    ensures j < |entries| && PathSides(j, |entries|) == sides && EntryOf(j, entries) == entry
    decreases |entries|, 0
  {
    var front, side := sides[..|sides| - 1], sides[|sides| - 1];
    assert sides == front + [side];
    AtLast(Build(lo), Build(hi), front, side);
    var i := LeafHasIndex(if side == FromLeft then hi else lo, front, entry);
    j := if side == FromLeft then k + i else i;
    PathInHalf(j, |entries|, k);
    EntrySplits(j, entries, k);
  }

  /** What an accepted claim proves, whatever the log's size: the entry of the leaf that it leads to, or this finds the
      collision. */
  function ClaimCollision(H: HashFn, entry: Bytes, i: int, s: int, entries: seq<Bytes>, proof: seq<Bytes>)
    : (c: Option<Collision>)
    requires InclusionAccepted(H, HashLeaf(H, entry), Some(i), Some(s), proof, MerkleTreeHash(H, entries))
    ensures c.Some? ==> IsCollision(H, c.value)
    ensures c.None? ==> exists j :: 0 <= j < |entries| && Claims(i, s, PathSides(j, |entries|)) && entries[j] == entry
  {
    var sides := Walk(i, s - 1, |proof|).value;
    var c := MembershipCollision(H, entry, entries, sides, proof);
    if c.Some? then c
    else
      LeafIsClaimed(entries, sides, entry, i, s);
      None
  }

  lemma {:induction false} LeafIsClaimed(entries: seq<Bytes>, sides: seq<Side>, entry: Bytes, i: int, s: int)
    requires At(Build(entries), sides) == Some(Leaf(entry)) && Claims(i, s, sides)
    ensures exists j :: 0 <= j < |entries| && Claims(i, s, PathSides(j, |entries|)) && entries[j] == entry
  {
    var j := LeafHasIndex(entries, sides, entry);
    assert Claims(i, s, PathSides(j, |entries|));
  }

  lemma AcceptedAsClaimed(H: HashFn, leafHash: Bytes, i: int, s: int, sides: seq<Side>, proof: seq<Bytes>, root: Bytes)
    requires Claims(i, s, sides) && |proof| == |sides| && FoldUp(H, sides, proof, leafHash) == root
    ensures InclusionAccepted(H, leafHash, Some(i), Some(s), proof, root)
  {
  }

  /** The proof of the leaf that a claim leads to is accepted under the claim. */
  lemma {:induction false} ClaimedProofAccepted(H: HashFn, entries: seq<Bytes>, i: int, s: int, j: nat)
    requires j < |entries| && Claims(i, s, PathSides(j, |entries|))
    ensures InclusionAccepted(H, HashLeaf(H, entries[j]), Some(i), Some(s), InclusionProof(H, j, entries),
                              MerkleTreeHash(H, entries))
  {
    ProofIsSiblings(H, j, entries);
    FoldOfSiblings(H, Build(entries), PathSides(j, |entries|));
    BuildIsTheTree(H, entries);
    assert TreeHash(H, Leaf(entries[j])) == HashLeaf(H, entries[j]);
    AcceptedAsClaimed(H, HashLeaf(H, entries[j]), i, s, PathSides(j, |entries|), InclusionProof(H, j, entries),
                      MerkleTreeHash(H, entries));
  }

  lemma {:induction false} ClaimedProofIsClean(H: HashFn, entries: seq<Bytes>, i: int, s: int, j: nat)
    requires j < |entries| && Claims(i, s, PathSides(j, |entries|))
    ensures InclusionAccepted(H, HashLeaf(H, entries[j]), Some(i), Some(s), InclusionProof(H, j, entries),
                              MerkleTreeHash(H, entries))
    ensures ClaimCollision(H, entries[j], i, s, entries, InclusionProof(H, j, entries)).None?
  {
    ClaimedProofAccepted(H, entries, i, s, j);
    ProofIsSiblings(H, j, entries);
    BuildIsTheTree(H, entries);
    assert TreeHash(H, Leaf(entries[j])) == HashLeaf(H, entries[j]);
    NoCollisionOnSiblings(H, Build(entries), PathSides(j, |entries|));
  }

  /** An accepted claim shows the entry at its own index, unless it hides a collision. */
  predicate Truthful(H: HashFn, entry: Bytes, i: int, s: int, entries: seq<Bytes>, proof: seq<Bytes>) {
    (InclusionAccepted(H, HashLeaf(H, entry), Some(i), Some(s), proof, MerkleTreeHash(H, entries))
     && ClaimCollision(H, entry, i, s, entries, proof).None?)
    ==> i < |entries| && entry == entries[i]
  }

  /** Whatever is accepted as entry i of s in a log of n is entry i of that log exactly when no other of its leaves lies
      where the claim leads. */
  lemma {:induction false} IndexIsTrueExactly(H: HashFn, i: int, s: int, n: nat)
    ensures (forall entry, entries, proof :: |entries| == n ==> Truthful(H, entry, i, s, entries, proof)) <==>
             NamesOnly(i, s, n)
  {
    if NamesOnly(i, s, n) {
      forall entry, entries, proof | |entries| == n ensures Truthful(H, entry, i, s, entries, proof) {
        NamesOnlyIsTruthful(H, entry, i, s, entries, proof);
      }
    } else {
      var j :| 0 <= j < n && Claims(i, s, PathSides(j, n)) && j != i;
      var entries := OneMarked(j, n);
      ClaimedProofIsClean(H, entries, i, s, j);
      assert !Truthful(H, entries[j], i, s, entries, InclusionProof(H, j, entries));
    }
  }

  /** A list whose entry j is like no other. */
  function OneMarked(j: nat, n: nat): (entries: seq<Bytes>)
    requires j < n
    ensures |entries| == n && forall k :: 0 <= k < n && k != j ==> entries[k] != entries[j]
  {
    seq(n, k => if k == j then [0] else [])
  }

  lemma NamesOnlyIsTruthful(H: HashFn, entry: Bytes, i: int, s: int, entries: seq<Bytes>, proof: seq<Bytes>)
    requires NamesOnly(i, s, |entries|)
    ensures Truthful(H, entry, i, s, entries, proof)
  {
  }

  /** Up to 2^32 entries a claim with the log's own size names no other leaf: beyond 2^31 it leads nowhere at all ... */
  lemma {:induction false} OwnSizeNamesOnly(i: int, n: nat)
    requires n <= TWO32
    ensures NamesOnly(i, n, n)
  {
    forall j | 0 <= j < n && Claims(i, n, PathSides(j, n)) ensures j == i {
      OwnSizeLeadsHome(i, j, n);
    }
  }

  lemma {:induction false} OwnSizeLeadsHome(i: int, j: nat, n: nat)
    requires j < n <= TWO32 && Claims(i, n, PathSides(j, n))
    ensures j == i
  {
    if n > MAX32 {
      TopBitNeverEnds(i, n - 1, |PathSides(j, n)|);
    } else {
      WalkIsRoute(i, n - 1, |PathSides(j, n)|);
      RouteIsPath(i, n);
      PathIsOwn(i, j, n);
    }
  }

  /** ... and no further: in a log of 2^32 + 1 entries the last one is accepted as entry 1 of that very size. */
  lemma {:induction false} OwnSizeMisleads()
    ensures Claims(1, TWO32 + 1, PathSides(TWO32, TWO32 + 1)) && !NamesOnly(1, TWO32 + 1, TWO32 + 1)
  {
    LargePowers();
    Pow2Double(0x4000_0000);
    Pow2Double(0x8000_0000);
    SplitPointIsUnique(TWO32 + 1, TWO32);
    OneTurnFromLeft();
    assert PathSides(0, 1) == [];
    assert [] + [FromLeft] == [FromLeft];
    assert PathSides(TWO32, TWO32 + 1) == [FromLeft];
  }

  lemma OneTurnFromLeft()
    ensures Walk(1, TWO32, 1) == Some([FromLeft])
  {
    assert Next(1, TWO32) == (0, 0);
    assert Walk(0, 0, 0) == Some([]);
    assert [FromLeft] + [] == [FromLeft];
  }

  lemma {:induction false} OwnSizeMisleadsAccepted(H: HashFn, d: seq<Bytes>)
    requires |d| == TWO32 + 1
    ensures InclusionAccepted(H, HashLeaf(H, d[TWO32]), Some(1), Some(|d|), InclusionProof(H, TWO32, d),
                              MerkleTreeHash(H, d))
  {
    OwnSizeMisleads();
    ClaimedProofAccepted(H, d, 1, |d|, TWO32);
  }

  /** With another size it may happen at once: in every log of three, entry 2 is accepted as entry 1 of two. */
  lemma {:induction false} OtherIndexAccepted(H: HashFn, d: seq<Bytes>)
    requires |d| == 3
    ensures InclusionAccepted(H, HashLeaf(H, d[2]), Some(1), Some(2), [MerkleTreeHash(H, d[..2])], MerkleTreeHash(H, d))
    ensures !NamesOnly(1, 2, 3)
  {
    SplitPointIsUnique(3, 2);
    var sides := PathSides(2, 3);
    assert PathSides(0, 1) == [];
    assert sides == [FromLeft];
    assert Next(1, 1) == (0, 0);
    assert Walk(0, 0, 0) == Some([]);
    assert [FromLeft] + [] == [FromLeft];
    assert Claims(1, 2, sides);
    ClaimedProofAccepted(H, d, 1, 2, 2);
    assert InclusionProof(H, 0, d[2..]) == [];
  }

  /** No proof longer than ceil(log2 n) is accepted, and none is ever made. */
  lemma {:induction false} InclusionProofLength(H: HashFn, leafHash: Bytes, m: int, n: int, proof: seq<Bytes>,
                                                root: Bytes)
    requires InclusionAccepted(H, leafHash, Some(m), Some(n), proof, root)
    ensures |proof| <= CeilLog2(n)
    ensures n <= MAX32 ==> |proof| == |PathSides(m, n)|
  {
    if n > MAX32 {
      WalkIsShort(m, n - 1, |proof|);
      LargeLogarithm(n);
    } else {
      AcceptedIsFold(H, leafHash, m, n, proof, root);
      PathSidesLength(m, n);
    }
  }

  lemma {:induction false} InclusionProofBound(H: HashFn, m: nat, entries: seq<Bytes>)
    requires m < |entries|
    ensures |InclusionProof(H, m, entries)| <= CeilLog2(|entries|)
  {
    ProofIsSiblings(H, m, entries);
    PathSidesLength(m, |entries|);
  }
}
