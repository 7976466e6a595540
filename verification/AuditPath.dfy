/** Folding a proof up to a root, whatever order of sides is walked.
    A side says where a sibling stands: FromLeft means that the sibling is hashed
    on the left and the value so far on the right. Lists of sides run bottom-up. */
module AuditPath {
  import opened Wrappers
  import opened Merkle

  datatype Side = FromLeft | FromRight

  function Join(H: HashFn, side: Side, p: Bytes, r: Bytes): Digest {
    if side == FromLeft then HashChildren(H, p, r) else HashChildren(H, r, p)
  }

  /** The value a verifier holds after consuming `proof` along `sides`, from `r`. */
  function FoldUp(H: HashFn, sides: seq<Side>, proof: seq<Bytes>, r: Bytes): Bytes
    requires |sides| == |proof|
  {
    if sides == [] then r
    else
      var n := |sides| - 1;
      Join(H, sides[n], proof[n], FoldUp(H, sides[..n], proof[..n], r))
  }

  lemma FoldUpSnoc(H: HashFn, sides: seq<Side>, side: Side, proof: seq<Bytes>, p: Bytes, r: Bytes)
    requires |sides| == |proof|
    ensures FoldUp(H, sides + [side], proof + [p], r) == Join(H, side, p, FoldUp(H, sides, proof, r))
  {
    assert (sides + [side])[..|sides|] == sides && (proof + [p])[..|sides|] == proof;
  }

  /** The subtree that a walk down from the root reaches, if the tree reaches that far. */
  function At(t: Tree, sides: seq<Side>): Option<Tree> {
    if sides == [] then Some(t)
    else if !t.Node? then None
    else
      var n := |sides| - 1;
      At(if sides[n] == FromLeft then t.right else t.left, sides[..n])
  }

  /** The hashes of the siblings met on that walk, bottom-up. */
  function Siblings(H: HashFn, t: Tree, sides: seq<Side>): (s: seq<Bytes>)
    requires At(t, sides).Some?
    ensures |s| == |sides|
  {
    if sides == [] then []
    else
      var n := |sides| - 1;
      if sides[n] == FromLeft then Siblings(H, t.right, sides[..n]) + [TreeHash(H, t.left)]
      else Siblings(H, t.left, sides[..n]) + [TreeHash(H, t.right)]
  }

  /** Folding the right siblings from a subtree's hash gives the root. */
  lemma {:induction false} FoldOfSiblings(H: HashFn, t: Tree, sides: seq<Side>)
    requires At(t, sides).Some?
    ensures FoldUp(H, sides, Siblings(H, t, sides), TreeHash(H, At(t, sides).value)) == TreeHash(H, t)
  {
    if sides != [] {
      var n := |sides| - 1;
      var child := if sides[n] == FromLeft then t.right else t.left;
      FoldOfSiblings(H, child, sides[..n]);
      assert Siblings(H, t, sides)[..n] == Siblings(H, child, sides[..n]);
    }
  }

  /** Values folded after the first step are digests. */
  lemma FoldIsDigest(H: HashFn, sides: seq<Side>, proof: seq<Bytes>, r: Bytes)
    requires |sides| == |proof|
    requires |r| == 32 || sides != []
    ensures |FoldUp(H, sides, proof, r)| == 32
  {
  }

  /** When a fold from a digest `r` reaches the hash of t, then `r` is the hash of the
      subtree at that place and the proof is exactly its siblings, or this finds the
      collision. Proof elements of any length are covered. */
  function PathCollision(H: HashFn, t: Tree, sides: seq<Side>, proof: seq<Bytes>, r: Bytes): (c: Option<Collision>)
    requires |sides| == |proof| && |r| == 32
    requires FoldUp(H, sides, proof, r) == TreeHash(H, t)
    ensures c.Some? ==> IsCollision(H, c.value)
    ensures c.None? ==> At(t, sides).Some? && r == TreeHash(H, At(t, sides).value)
    ensures c.None? ==> proof == Siblings(H, t, sides)
    decreases |sides|
  {
    if sides == [] then None
    else
      var n := |sides| - 1;
      var below := FoldUp(H, sides[..n], proof[..n], r);
      var input := if sides[n] == FromLeft then NodeInput(proof[n], below) else NodeInput(below, proof[n]);
      if input != TreeInput(H, t) then Some(Collision(input, TreeInput(H, t)))
      else
        FoldIsDigest(H, sides[..n], proof[..n], r);
        assert input[0] == 1;
        assert proof == proof[..n] + [proof[n]];
        if sides[n] == FromLeft then
          NodeInputInjective(proof[n], below, TreeHash(H, t.left), TreeHash(H, t.right));
          PathCollision(H, t.right, sides[..n], proof[..n], r)
        else
          NodeInputInjective(below, proof[n], TreeHash(H, t.left), TreeHash(H, t.right));
          PathCollision(H, t.left, sides[..n], proof[..n], r)
  }

  /** On the tree's own siblings there is nothing to find. */
  lemma {:induction false} NoCollisionOnSiblings(H: HashFn, t: Tree, sides: seq<Side>)
    requires At(t, sides).Some?
    ensures FoldUp(H, sides, Siblings(H, t, sides), TreeHash(H, At(t, sides).value)) == TreeHash(H, t)
    ensures PathCollision(H, t, sides, Siblings(H, t, sides), TreeHash(H, At(t, sides).value)).None?
  {
    FoldOfSiblings(H, t, sides);
    if sides != [] {
      var n := |sides| - 1;
      var child := if sides[n] == FromLeft then t.right else t.left;
      assert Siblings(H, t, sides)[..n] == Siblings(H, child, sides[..n]);
      NoCollisionOnSiblings(H, child, sides[..n]);
    }
  }

  /** Subtrees hold entries of the whole. */
  lemma AtHoldsEntries(t: Tree, sides: seq<Side>)
    requires At(t, sides).Some?
    ensures forall e :: e in Entries(At(t, sides).value) ==> e in Entries(t)
    decreases t
  {
    if sides != [] {
      var n := |sides| - 1;
      AtHoldsEntries(if sides[n] == FromLeft then t.right else t.left, sides[..n]);
    }
  }

  /** A leaf hash that folds to the tree hash of `entries`, along any sides whatever,
      belongs to one of `entries`, or this finds the collision. */
  function MembershipCollision(H: HashFn, entry: Bytes, entries: seq<Bytes>, sides: seq<Side>, proof: seq<Bytes>)
    : (c: Option<Collision>)
    requires |sides| == |proof|
    requires FoldUp(H, sides, proof, HashLeaf(H, entry)) == MerkleTreeHash(H, entries)
    ensures c.Some? ==> IsCollision(H, c.value)
    ensures c.None? ==> entry in entries
    ensures c.None? ==> At(Build(entries), sides) == Some(Leaf(entry))
    ensures c.None? ==> proof == Siblings(H, Build(entries), sides)
  {
    BuildIsTheTree(H, entries);
    var t := Build(entries);
    var c := PathCollision(H, t, sides, proof, HashLeaf(H, entry));
    if c.Some? then c
    else
      AtHoldsEntries(t, sides);
      TreeCollision(H, Leaf(entry), At(t, sides).value)
  }

  // ------------------------------------------------------------ prefixes

  /** The walk down, one level at a time from the top: into the left subtree ... */
  lemma DownLeft(H: HashFn, t: Tree, r: Tree, all: seq<Side>, sides: seq<Side>, sub: Tree, siblings: seq<Bytes>)
    requires t.Node? && t.right == r && all == sides + [FromRight]
    requires At(t.left, sides) == Some(sub) && Siblings(H, t.left, sides) == siblings
    ensures At(t, all) == Some(sub)
    ensures Siblings(H, t, all) == siblings + [TreeHash(H, r)]
  {
    assert (sides + [FromRight])[..|sides|] == sides;
  }

  /** ... or into the right one. */
  lemma DownRight(H: HashFn, t: Tree, l: Tree, all: seq<Side>, sides: seq<Side>, sub: Tree, siblings: seq<Bytes>)
    requires t.Node? && t.left == l && all == sides + [FromLeft]
    requires At(t.right, sides) == Some(sub) && Siblings(H, t.right, sides) == siblings
    ensures At(t, all) == Some(sub)
    ensures Siblings(H, t, all) == siblings + [TreeHash(H, l)]
  {
    assert (sides + [FromLeft])[..|sides|] == sides;
  }

  /** The left part of the tree up to and including the subtree at `sides`. */
  function PrefixTree(t: Tree, sides: seq<Side>): Tree
    requires At(t, sides).Some?
  {
    if sides == [] then t
    else
      var n := |sides| - 1;
      if sides[n] == FromLeft then Node(t.left, PrefixTree(t.right, sides[..n]))
      else PrefixTree(t.left, sides[..n])
  }

  lemma PrefixOnLeft(t: Tree, all: seq<Side>, sides: seq<Side>, prefix: Tree)
    requires t.Node? && all == sides + [FromRight]
    requires At(t.left, sides).Some? && PrefixTree(t.left, sides) == prefix
    ensures At(t, all).Some? && PrefixTree(t, all) == prefix
  {
    assert (sides + [FromRight])[..|sides|] == sides;
  }

  lemma PrefixOnRight(t: Tree, all: seq<Side>, sides: seq<Side>, prefix: Tree)
    requires t.Node? && all == sides + [FromLeft]
    requires At(t.right, sides).Some? && PrefixTree(t.right, sides) == prefix
    ensures At(t, all).Some? && PrefixTree(t, all) == Node(t.left, prefix)
  {
    assert (sides + [FromLeft])[..|sides|] == sides;
  }

  /** Its entries are the first entries of the whole tree. */
  lemma {:induction false} PrefixTreeIsPrefix(t: Tree, sides: seq<Side>)
    requires At(t, sides).Some?
    ensures Entries(PrefixTree(t, sides)) <= Entries(t)
    decreases t
  {
    if sides != [] {
      var n := |sides| - 1;
      PrefixTreeIsPrefix(if sides[n] == FromLeft then t.right else t.left, sides[..n]);
    }
  }

  /** The fold that skips the siblings on the right: the older root of a consistency proof. */
  function FoldLeft(H: HashFn, sides: seq<Side>, proof: seq<Bytes>, r: Bytes): Bytes
    requires |sides| == |proof|
  {
    if sides == [] then r
    else
      var n := |sides| - 1;
      var below := FoldLeft(H, sides[..n], proof[..n], r);
      if sides[n] == FromLeft then HashChildren(H, proof[n], below) else below
  }

  lemma FoldLeftSnoc(H: HashFn, sides: seq<Side>, side: Side, proof: seq<Bytes>, p: Bytes, r: Bytes)
    requires |sides| == |proof|
    ensures FoldLeft(H, sides + [side], proof + [p], r)
         == if side == FromLeft then HashChildren(H, p, FoldLeft(H, sides, proof, r)) else FoldLeft(H, sides, proof, r)
  {
    assert (sides + [side])[..|sides|] == sides && (proof + [p])[..|sides|] == proof;
  }

  /** Over the right siblings it is the hash of the prefix. */
  lemma {:induction false} FoldLeftOfSiblings(H: HashFn, t: Tree, sides: seq<Side>)
    requires At(t, sides).Some?
    ensures FoldLeft(H, sides, Siblings(H, t, sides), TreeHash(H, At(t, sides).value))
         == TreeHash(H, PrefixTree(t, sides))
  {
    if sides != [] {
      var n := |sides| - 1;
      var child := if sides[n] == FromLeft then t.right else t.left;
      FoldLeftOfSiblings(H, child, sides[..n]);
      assert Siblings(H, t, sides)[..n] == Siblings(H, child, sides[..n]);
    }
  }
}
