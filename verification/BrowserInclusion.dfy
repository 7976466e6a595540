/** The browser's copy of the inclusion loop (verify-receipt.html). Unlike the library's it takes any values for the
    index and the size, and converts them as it goes, and it decodes the audit path as it goes, so a bad element throws
    only when it is reached. */
module BrowserInclusion {
  import opened Wrappers
  import opened Documents
  import opened Int32
  import opened Merkle
  import opened AuditPath
  import opened Inclusion
  import opened Jws

  // ----------------------------------------------- what JavaScript makes of a value

  /** The text that a value is compared as, if it is one (ToPrimitive, section 7.1.1 of ECMA-262). */
  function AsText(P: Platform, v: Value): Option<string> {
    if v.None? then None
    else
      match v.value
      case Str(s) => Some(s)
      case Arr(_) => Some(P.show(v.value))
      case Obj(_) => Some(P.show(v.value))
      case _ => None
  }

  /** ToNumber, section 7.1.4 of ECMA-262. */
  function ToNumber(P: Platform, v: Value): JsNumber {
    if AsText(P, v).Some? then P.number(AsText(P, v).value)
    else
      match v
      case None => NaN
      case Some(Null) => Finite(0.0)
      case Some(Bool(b)) => Finite(if b then 1.0 else 0.0)
      case Some(Num(n)) => Finite(n)
      case _ => NaN
  }

  predicate IsNegative(a: JsNumber) {
    (a.Finite? && a.x < 0.0) || a == Infinite(false)
  }

  predicate NumberAtLeast(a: JsNumber, b: JsNumber) {
    a != NaN && b != NaN && (a == Infinite(true) || b == Infinite(false) || (a.Finite? && b.Finite? && a.x >= b.x))
  }

  /** `a >= b`: between two texts by their letters, else by numbers. */
  predicate AtLeast(P: Platform, a: Value, b: Value) {
    if AsText(P, a).Some? && AsText(P, b).Some? then !P.below(AsText(P, a).value, AsText(P, b).value)
    else NumberAtLeast(ToNumber(P, a), ToNumber(P, b))
  }

  /** The integer part of a number. */
  function Trunc(x: real): int {
    if x >= 0.0 then x.Floor else -(-x).Floor
  }

  /** What a bitwise operator sees of a number before it reduces it (ToInt32, section 7.1.6 of ECMA-262). */
  function Bits(a: JsNumber): int {
    if a.Finite? then Trunc(a.x) else 0
  }

  function MinusOne(a: JsNumber): JsNumber {
    if a.Finite? then Finite(a.x - 1.0) else a
  }

  /** `leafIndex < 0 || leafIndex >= treeSize` */
  predicate OutOfRange(P: Platform, index: Value, size: Value) {
    IsNegative(ToNumber(P, index)) || AtLeast(P, index, size)
  }

  // ------------------------------------------------------------------- the loop

  /** What a turn sees of fn and sn: the operands of `>>` and `&`, and whether `sn === 0` and `fn === sn`. */
  datatype Turn = Turn(f: int, s: int, zero: bool, same: bool)

  /** At first fn is the value itself, which no text is identical to, and sn is a number. */
  function FirstTurn(P: Platform, index: Value, size: Value): Turn {
    var sn := MinusOne(ToNumber(P, size));
    Turn(Bits(ToNumber(P, index)), Bits(sn), sn == Finite(0.0),
         index.Some? && index.value.Num? && sn == Finite(index.value.n))
  }

  /** After a shift both are integers. */
  function Whole(f: int, s: int): Turn {
    Turn(f, s, s == 0, f == s)
  }

  function PageSide(t: Turn): Side {
    if LowBit(t.f) == 1 || t.same then FromLeft else FromRight
  }

  function PageNext(t: Turn): Turn {
    if LowBit(t.f) == 0 && t.same then Whole(Shr1(ShiftOut(t.f, t.s).0), Shr1(ShiftOut(t.f, t.s).1))
    else Whole(Shr1(t.f), Shr1(t.s))
  }

  /** How the loop ends: with a root, by giving up on sn, or by an element that does not decode. */
  datatype Folded = Root(root: Bytes) | GaveUp | Threw

  /** The rest of the loop from element i on. */
  function PageFold(H: HashFn, t: Turn, path: seq<Option<Bytes>>, i: nat, r: Bytes): Folded
    requires i <= |path|
    decreases |path| - i
  {
    if i == |path| then (if t.zero then Root(r) else GaveUp)
    else if path[i].None? then Threw
    else if t.zero then GaveUp
    else PageFold(H, PageNext(t), path, i + 1, Join(H, PageSide(t), path[i].value, r))
  }

  /** `verifyInclusion`; None where it throws. */
  function PageInclusion(P: Platform, H: HashFn, entry: Bytes, index: Value, size: Value, path: seq<Option<Bytes>>,
                         root: Option<Bytes>): Option<bool>
  {
    if OutOfRange(P, index, size) then Some(false)
    else
      match PageFold(H, FirstTurn(P, index, size), path, 0, HashLeaf(H, entry))
      case Root(r) => if root.None? then None else Some(r == root.value)
      case GaveUp => Some(false)
      case Threw => None
  }

  /** The shifts of one turn, after its hash. */
  method Advance(t: Turn) returns (next: Turn)
    ensures next == PageNext(t)
  {
    var fn, sn := t.f, t.s;
    if LowBit(fn) == 0 && t.same {
      fn, sn := ShiftPastZeros(fn, sn);
    }
    next := Whole(Shr1(fn), Shr1(sn));
  }

  method VerifyInclusion(P: Platform, H: HashFn, entry: Bytes, index: Value, size: Value, path: seq<Option<Bytes>>,
                         root: Option<Bytes>)
    returns (ok: Option<bool>)
    ensures ok == PageInclusion(P, H, entry, index, size, path, root)
  {
    if OutOfRange(P, index, size) {
      return Some(false);
    }
    var r: Bytes := HashLeaf(H, entry);
    var t := FirstTurn(P, index, size);
    ghost var whole := PageFold(H, t, path, 0, r);
    for i := 0 to |path|
      invariant whole == PageFold(H, t, path, i, r)
    {
      var p := path[i];
      if p.None? {
        return None;
      }
      if t.zero {
        return Some(false);
      }
      if LowBit(t.f) == 1 || t.same {
        r := HashChildren(H, p.value, r);
      } else {
        r := HashChildren(H, r, p.value);
      }
      t := Advance(t);
    }
    if !t.zero {
      return Some(false);
    }
    return if root.None? then None else Some(r == root.value);
  }

  // ------------------------------------------------------------- how the loop ends

  /** The first element from i on that does not decode. */
  function FirstBad(path: seq<Option<Bytes>>, i: nat): (b: nat)
    requires i <= |path|
    ensures i <= b <= |path| && (b < |path| ==> path[b].None?) && forall j :: i <= j < b ==> path[j].Some?
    decreases |path| - i
  {
    if i == |path| || path[i].None? then i else FirstBad(path, i + 1)
  }

  /** The turn before which sn is 0 for the first time, at most n; n + 1 if there is none. */
  function TurnsToZero(t: Turn, n: nat): (z: nat)
    ensures z <= n + 1
    decreases n
  {
    if t.zero then 0 else if n == 0 then 1 else 1 + TurnsToZero(PageNext(t), n - 1)
  }

  /** The loop throws at the first bad element unless sn is 0 before that, and reaches a root when all decode and sn is
      0 at the end and not before. */
  lemma {:induction false} FoldEnds(H: HashFn, t: Turn, path: seq<Option<Bytes>>, i: nat, r: Bytes)
    requires i <= |path|
    ensures var (n, b, z) := (|path| - i, FirstBad(path, i) - i, TurnsToZero(t, |path| - i));
            && (PageFold(H, t, path, i, r).Threw? <==> b < n && b <= z)
            && (PageFold(H, t, path, i, r).Root? <==> b == n == z)
    decreases |path| - i
  {
    if i < |path| && path[i].Some? && !t.zero {
      FoldEnds(H, PageNext(t), path, i + 1, Join(H, PageSide(t), path[i].value, r));
    }
  }

  /** Where the page throws: at an element that does not decode, if the loop gets there, or at the root, if it comes to
      comparing it. */
  predicate InclusionThrows(P: Platform, index: Value, size: Value, path: seq<Option<Bytes>>, root: Option<Bytes>) {
    && !OutOfRange(P, index, size)
    && var (n, b, z) := (|path|, FirstBad(path, 0), TurnsToZero(FirstTurn(P, index, size), |path|));
       (b < n && b <= z) || (root.None? && b == n == z)
  }

  lemma {:induction false} ThrowsExactly(P: Platform, H: HashFn, entry: Bytes, index: Value, size: Value,
                                         path: seq<Option<Bytes>>, root: Option<Bytes>)
    ensures PageInclusion(P, H, entry, index, size, path, root) == None <==> InclusionThrows(P, index, size, path, root)
  {
    if !OutOfRange(P, index, size) {
      FoldEnds(H, FirstTurn(P, index, size), path, 0, HashLeaf(H, entry));
    }
  }

  /** A path whose only element does not decode. */
  lemma BadElementThrows(P: Platform, H: HashFn, entry: Bytes, root: Option<Bytes>)
    ensures InclusionThrows(P, Some(Num(0.0)), Some(Num(2.0)), [None], root)
    ensures PageInclusion(P, H, entry, Some(Num(0.0)), Some(Num(2.0)), [None], root) == None
  {
    ThrowsExactly(P, H, entry, Some(Num(0.0)), Some(Num(2.0)), [None], root);
  }

  // ------------------------------------------------- what the page's proofs prove

  /** The decoded elements from i on. */
  function Decoded(path: seq<Option<Bytes>>, i: nat): (d: seq<Bytes>)
    requires i <= |path|
    ensures |d| == |path| - i
    decreases |path| - i
  {
    if i == |path| then [] else [if path[i].Some? then path[i].value else []] + Decoded(path, i + 1)
  }

  /** The sides the loop takes in n turns. */
  function PageSides(t: Turn, n: nat): (s: seq<Side>)
    ensures |s| == n
    decreases n
  {
    if n == 0 then [] else [PageSide(t)] + PageSides(PageNext(t), n - 1)
  }

  lemma {:induction false} FoldUpFront(H: HashFn, side: Side, sides: seq<Side>, p: Bytes, proof: seq<Bytes>, r: Bytes)
    requires |sides| == |proof|
    ensures FoldUp(H, [side] + sides, [p] + proof, r) == FoldUp(H, sides, proof, Join(H, side, p, r))
  {
    var n := |sides|;
    if n == 0 {
      assert [side] + sides == [side] && [p] + proof == [p];
      FoldUpSnoc(H, [], side, [], p, r);
      assert [] + [side] == [side] && [] + [p] == [p];
    } else {
      var s, q := sides[n - 1], proof[n - 1];
      var sides', proof' := sides[..n - 1], proof[..n - 1];
      assert sides == sides' + [s] && proof == proof' + [q];
      FoldUpFront(H, side, sides', p, proof', r);
      FoldUpSnoc(H, [side] + sides', s, [p] + proof', q, r);
      FoldUpSnoc(H, sides', s, proof', q, Join(H, side, p, r));
      assert [side] + sides == [side] + sides' + [s] && [p] + proof == [p] + proof' + [q];
    }
  }

  lemma {:induction false} FoldedAlongSides(H: HashFn, t: Turn, path: seq<Option<Bytes>>, i: nat, r: Bytes)
    requires i <= |path| && PageFold(H, t, path, i, r).Root?
    ensures PageFold(H, t, path, i, r).root == FoldUp(H, PageSides(t, |path| - i), Decoded(path, i), r)
    decreases |path| - i
  {
    if i < |path| {
      var next := PageNext(t);
      FoldedAlongSides(H, next, path, i + 1, Join(H, PageSide(t), path[i].value, r));
      FoldUpFront(H, PageSide(t), PageSides(next, |path| - i - 1), path[i].value, Decoded(path, i + 1), r);
    }
  }

  /** Whatever index and size it is shown, numbers or not: what the page finds included under the tree hash of a list is
      an entry of the list, or this finds the collision. */
  function PageCollision(P: Platform, H: HashFn, entry: Bytes, index: Value, size: Value, path: seq<Option<Bytes>>,
                         entries: seq<Bytes>): (c: Option<Collision>)
    requires PageInclusion(P, H, entry, index, size, path, Some(MerkleTreeHash(H, entries))) == Some(true)
    ensures c.Some? ==> IsCollision(H, c.value)
    ensures c.None? ==> entry in entries
  {
    var t := FirstTurn(P, index, size);
    FoldedAlongSides(H, t, path, 0, HashLeaf(H, entry));
    MembershipCollision(H, entry, entries, PageSides(t, |path|), Decoded(path, 0))
  }

  // ------------------------------------------------------- the page and the library

  predicate AllDecode(path: seq<Option<Bytes>>) {
    forall i :: 0 <= i < |path| ==> path[i].Some?
  }

  function AsFolded(root: Option<Bytes>): Folded {
    if root.Some? then Root(root.value) else GaveUp
  }

  lemma WholeIsExact(fn: int, sn: int)
    ensures PageNext(Whole(fn, sn)) == Whole(Next(fn, sn).0, Next(fn, sn).1)
         && PageSide(Whole(fn, sn)) == SideOf(fn, sn)
  {
  }

  lemma {:induction false} FoldedOneMore(H: HashFn, side: Side, w: Option<seq<Side>>, p: Bytes, proof: seq<Bytes>,
                                         r: Bytes)
    requires w.Some? ==> |w.value| == |proof|
    ensures FoldedRoot(H, Onto([side], w), [p] + proof, r) == FoldedRoot(H, w, proof, Join(H, side, p, r))
  {
    if w.Some? {
      FoldUpFront(H, side, w.value, p, proof, r);
    }
  }

  lemma {:induction false} WholeNumbersFold(H: HashFn, fn: int, sn: int, path: seq<Option<Bytes>>, i: nat, r: Bytes)
    requires i <= |path| && AllDecode(path)
    ensures PageFold(H, Whole(fn, sn), path, i, r)
         == AsFolded(FoldedRoot(H, Walk(fn, sn, |path| - i), Decoded(path, i), r))
    decreases |path| - i
  {
    WholeIsExact(fn, sn);
    if i < |path| && sn != 0 {
      var next, side := Next(fn, sn), SideOf(fn, sn);
      WholeNumbersFold(H, next.0, next.1, path, i + 1, Join(H, side, path[i].value, r));
      FoldedOneMore(H, side, Walk(next.0, next.1, |path| - i - 1), path[i].value, Decoded(path, i + 1), r);
    }
  }

  lemma WholeStart(P: Platform, index: int, size: int)
    ensures FirstTurn(P, Some(Num(index as real)), Some(Num(size as real))) == Whole(index, size - 1)
    ensures OutOfRange(P, Some(Num(index as real)), Some(Num(size as real))) <==> !(0 <= index < size)
  {
    assert size as real - 1.0 == (size - 1) as real;
  }

  /** For whole numbers and a path that decodes, the page and the library give the same answer. */
  lemma {:induction false} PageIsLibrary(P: Platform, H: HashFn, entry: Bytes, index: int, size: int,
                                         path: seq<Option<Bytes>>, root: Bytes)
    requires AllDecode(path)
    ensures PageInclusion(P, H, entry, Some(Num(index as real)), Some(Num(size as real)), path, Some(root))
         == Some(InclusionAccepted(H, HashLeaf(H, entry), Some(index), Some(size), Decoded(path, 0), root))
  {
    WholeStart(P, index, size);
    if 0 <= index < size {
      WholeNumbersFold(H, index, size - 1, path, 0, HashLeaf(H, entry));
    }
  }

  /** What the library answers for values of any kind. */
  predicate LibraryAnswer(H: HashFn, entry: Bytes, index: Value, size: Value, path: seq<Option<Bytes>>, root: Bytes) {
    InclusionAccepted(H, HashLeaf(H, entry), AsInteger(index), AsInteger(size), Decoded(path, 0), root)
  }

  predicate SameAnswer(P: Platform, H: HashFn, entry: Bytes, index: Value, size: Value, path: seq<Option<Bytes>>,
                       root: Bytes)
  {
    PageInclusion(P, H, entry, index, size, path, Some(root)) == Some(LibraryAnswer(H, entry, index, size, path, root))
  }

  lemma {:induction false} NextKeepsBit31(t: Turn)
    ensures Negative32(t.s) ==> -MAX32 <= PageNext(t).s < 0
    ensures !Negative32(t.s) ==> 0 <= PageNext(t).s <= ToInt32(t.s) / 2
  {
    if LowBit(t.f) == 0 && t.same {
      if Negative32(t.s) {
        ShiftOutKeepsSign(t.f, t.s);
      } else {
        ShiftOutHalves(t.f, t.s);
      }
    }
  }

  lemma {:induction false} NegativeHasNoRoot(t: Turn, n: nat)
    requires Negative32(t.s) && !t.zero
    ensures TurnsToZero(t, n) == n + 1
    decreases n
  {
    NextKeepsBit31(t);
    if n > 0 {
      NegativeHasNoRoot(PageNext(t), n - 1);
    }
  }

  lemma {:induction false} WholeReachesZero(t: Turn) returns (n: nat)
    requires 0 <= t.s < MAX32 && (t.s == 0 ==> t.zero)
    ensures TurnsToZero(t, n) == n
    decreases t.s
  {
    if t.zero {
      n := 0;
    } else {
      NextKeepsBit31(t);
      var m := WholeReachesZero(PageNext(t));
      n := m + 1;
    }
  }

  lemma {:induction false} ReachesZero(t: Turn) returns (n: nat)
    requires !Negative32(t.s)
    ensures TurnsToZero(t, n) == n
  {
    if t.zero {
      n := 0;
    } else {
      NextKeepsBit31(t);
      var m := WholeReachesZero(PageNext(t));
      n := m + 1;
    }
  }

  lemma NoneIsBad(path: seq<Option<Bytes>>)
    requires AllDecode(path)
    ensures FirstBad(path, 0) == |path|
  {
  }

  /** For values in range some path and root are accepted, unless bit 31 of the last index is set. */
  lemma {:induction false} SomePathAccepted(P: Platform, H: HashFn, entry: Bytes, index: Value, size: Value)
    returns (path: seq<Option<Bytes>>, root: Bytes)
    requires !OutOfRange(P, index, size) && !Negative32(FirstTurn(P, index, size).s)
    ensures AllDecode(path) && PageInclusion(P, H, entry, index, size, path, Some(root)) == Some(true)
  {
    var t := FirstTurn(P, index, size);
    var n := ReachesZero(t);
    path := seq(n, i => Some([]));
    NoneIsBad(path);
    FoldEnds(H, t, path, 0, HashLeaf(H, entry));
    root := PageFold(H, t, path, 0, HashLeaf(H, entry)).root;
  }

  lemma {:induction false} RefusedByBoth(P: Platform, H: HashFn, entry: Bytes, index: Value, size: Value,
                                         path: seq<Option<Bytes>>, root: Bytes)
    requires AsInteger(index).None? || AsInteger(size).None?
    requires OutOfRange(P, index, size) || Negative32(FirstTurn(P, index, size).s)
    requires AllDecode(path)
    ensures SameAnswer(P, H, entry, index, size, path, root)
  {
    if !OutOfRange(P, index, size) {
      var t := FirstTurn(P, index, size);
      NegativeHasNoRoot(t, |path|);
      NoneIsBad(path);
      FoldEnds(H, t, path, 0, HashLeaf(H, entry));
    }
  }

  lemma {:induction false} SameForIntegers(P: Platform, H: HashFn, entry: Bytes, index: Value, size: Value,
                                           path: seq<Option<Bytes>>, root: Bytes)
    requires AsInteger(index).Some? && AsInteger(size).Some? && AllDecode(path)
    ensures SameAnswer(P, H, entry, index, size, path, root)
  {
    var i, s := AsInteger(index).value, AsInteger(size).value;
    assert index == Some(Num(i as real)) && size == Some(Num(s as real));
    PageIsLibrary(P, H, entry, i, s, path, root);
  }

  /** The page and the library agree on every path and root exactly for integers, for an index out of range, and where
      bit 31 of the last index is set. For all other values the library refuses what the page can be shown. */
  lemma {:induction false} AgreeExactly(P: Platform, H: HashFn, entry: Bytes, index: Value, size: Value)
    ensures (forall path, root :: AllDecode(path) ==> SameAnswer(P, H, entry, index, size, path, root))
       <==> (AsInteger(index).Some? && AsInteger(size).Some?) || OutOfRange(P, index, size)
            || Negative32(FirstTurn(P, index, size).s)
  {
    if AsInteger(index).Some? && AsInteger(size).Some? {
      forall path, root | AllDecode(path) ensures SameAnswer(P, H, entry, index, size, path, root) {
        SameForIntegers(P, H, entry, index, size, path, root);
      }
    } else if OutOfRange(P, index, size) || Negative32(FirstTurn(P, index, size).s) {
      forall path, root | AllDecode(path) ensures SameAnswer(P, H, entry, index, size, path, root) {
        RefusedByBoth(P, H, entry, index, size, path, root);
      }
    } else {
      var path, root := SomePathAccepted(P, H, entry, index, size);
      assert !SameAnswer(P, H, entry, index, size, path, root);
    }
  }

  /** One such index is a fraction, and one is missing altogether. */
  lemma {:induction false} StrangeIndexAccepted(P: Platform, H: HashFn, entry: Bytes, sibling: Bytes, index: Value)
    requires index in {None, Some(Num(0.5))}
    ensures var root := HashChildren(H, HashLeaf(H, entry), sibling);
            PageInclusion(P, H, entry, index, Some(Num(2.0)), [Some(sibling)], Some(root)) == Some(true)
  {
    var r, root := HashLeaf(H, entry), HashChildren(H, HashLeaf(H, entry), sibling);
    var t := FirstTurn(P, index, Some(Num(2.0)));
    assert t == Turn(0, 1, false, false) && PageNext(t) == Whole(0, 0);
    assert PageFold(H, Whole(0, 0), [Some(sibling)], 1, root) == Root(root);
  }
}
