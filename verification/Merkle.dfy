/** The Merkle tree of sections 2.1, 2.1.1 and 2.1.2 of RFC 6962, built from the
    top down as the log's provers do (lib/vrp-tlog.mjs). The hash function is a
    parameter, and nothing is assumed about it: instead of "no collisions", the
    results below compute the two colliding inputs from the values at hand. */
module Merkle {
  import opened Wrappers
  import opened Int32

  type byte = x: int | 0 <= x < 256
  type Bytes = seq<byte>
  type Digest = b: Bytes | |b| == 32 witness seq(32, _ => 0)
  type HashFn = Bytes -> Digest

  datatype Collision = Collision(x: Bytes, y: Bytes)

  predicate IsCollision(H: HashFn, c: Collision) {
    c.x != c.y && H(c.x) == H(c.y)
  }

  /** What is hashed for a leaf and for an inner node: the first byte keeps them apart. */
  function LeafInput(entry: Bytes): Bytes {
    [0] + entry
  }

  function NodeInput(left: Bytes, right: Bytes): Bytes {
    [1] + left + right
  }

  function HashLeaf(H: HashFn, entry: Bytes): Digest {
    H(LeafInput(entry))
  }

  function HashChildren(H: HashFn, left: Bytes, right: Bytes): Digest {
    H(NodeInput(left, right))
  }

  // ---------------------------------------------------------------- splitting

  /** The loop `while (k << 1 < n) k <<= 1` over unbounded integers. */
  function SplitFrom(k: nat, n: nat): nat
    requires k > 0
    decreases n - k
  {
    if 2 * k < n then SplitFrom(2 * k, n) else k
  }

  function SplitPoint(n: nat): nat {
    SplitFrom(1, n)
  }

  lemma {:induction false} SplitFromProperty(k: nat, n: nat)
    requires IsPow2(k) && k < n
    ensures IsPow2(SplitFrom(k, n)) && SplitFrom(k, n) < n <= 2 * SplitFrom(k, n)
    decreases n - k
  {
    if 2 * k < n {
      SplitFromProperty(2 * k, n);
    }
  }

  /** The split point of n is the one power of two k with k < n <= 2k. */
  lemma SplitPointIsUnique(n: nat, k: nat)
    requires n >= 2
    ensures k == SplitPoint(n) <==> IsPow2(k) && k < n <= 2 * k
  {
    SplitFromProperty(1, n);
    var s := SplitPoint(n);
    if IsPow2(k) && k < n <= 2 * k && k != s {
      if k < s {
        Pow2Gap(k, s);
      } else {
        Pow2Gap(s, k);
      }
    }
  }

  // -------------------------------------------------------------- provers

  function MerkleTreeHash(H: HashFn, entries: seq<Bytes>): Digest {
    var n := |entries|;
    if n == 0 then H([])
    else if n == 1 then HashLeaf(H, entries[0])
    else
      SplitPointIsUnique(n, SplitPoint(n));
      var k := SplitPoint(n);
      HashChildren(H, MerkleTreeHash(H, entries[..k]), MerkleTreeHash(H, entries[k..]))
  }

  /** The audit path of entry m, bottom-up. */
  function InclusionProof(H: HashFn, m: nat, entries: seq<Bytes>): seq<Digest>
    requires m < |entries|
    decreases |entries|
  {
    var n := |entries|;
    if n == 1 then []
    else
      SplitPointIsUnique(n, SplitPoint(n));
      var k := SplitPoint(n);
      if m < k then InclusionProof(H, m, entries[..k]) + [MerkleTreeHash(H, entries[k..])]
      else InclusionProof(H, m - k, entries[k..]) + [MerkleTreeHash(H, entries[..k])]
  }

  /** SUBPROOF(m, D, b) */
  function Subproof(H: HashFn, m: nat, entries: seq<Bytes>, b: bool): seq<Digest>
    requires 0 < m <= |entries|
    decreases |entries|
  {
    var n := |entries|;
    if m == n then (if b then [] else [MerkleTreeHash(H, entries)])
    else
      SplitPointIsUnique(n, SplitPoint(n));
      var k := SplitPoint(n);
      if m <= k then Subproof(H, m, entries[..k], b) + [MerkleTreeHash(H, entries[k..])]
      else Subproof(H, m - k, entries[k..], false) + [MerkleTreeHash(H, entries[..k])]
  }

  function ConsistencyProof(H: HashFn, m: nat, entries: seq<Bytes>): seq<Digest>
    requires 0 < m < |entries|
  {
    Subproof(H, m, entries, true)
  }

  // ------------------------------------------------------------- hash trees

  /** The tree behind a root hash. Only the shape that Build gives is RFC 6962's;
      the reductions need no particular shape. */
  datatype Tree = Empty | Leaf(entry: Bytes) | Node(left: Tree, right: Tree)

  function TreeInput(H: HashFn, t: Tree): (input: Bytes)
    ensures t.Empty? <==> input == []
    ensures t.Leaf? <==> input != [] && input[0] == 0
    ensures t.Node? <==> input != [] && input[0] == 1
    decreases t, 0
  {
    match t
    case Empty => []
    case Leaf(entry) => LeafInput(entry)
    case Node(l, r) => NodeInput(TreeHash(H, l), TreeHash(H, r))
  }

  function TreeHash(H: HashFn, t: Tree): Digest
    decreases t, 1
  {
    H(TreeInput(H, t))
  }

  function Entries(t: Tree): seq<Bytes> {
    match t
    case Empty => []
    case Leaf(entry) => [entry]
    case Node(l, r) => Entries(l) + Entries(r)
  }

  function Build(entries: seq<Bytes>): Tree {
    var n := |entries|;
    if n == 0 then Empty
    else if n == 1 then Leaf(entries[0])
    else
      SplitPointIsUnique(n, SplitPoint(n));
      var k := SplitPoint(n);
      Node(Build(entries[..k]), Build(entries[k..]))
  }

  /** Trees and provers split at the one power of two below the size and at least half of it. */
  lemma BuildSplits(entries: seq<Bytes>, k: nat)
    requires IsPow2(k) && k < |entries| <= 2 * k
    ensures Build(entries) == Node(Build(entries[..k]), Build(entries[k..]))
  {
    SplitPointIsUnique(|entries|, k);
  }

  lemma HashSplits(H: HashFn, entries: seq<Bytes>, k: nat)
    requires IsPow2(k) && k < |entries| <= 2 * k
    ensures MerkleTreeHash(H, entries)
         == HashChildren(H, MerkleTreeHash(H, entries[..k]), MerkleTreeHash(H, entries[k..]))
  {
    SplitPointIsUnique(|entries|, k);
  }

  lemma InclusionProofSplits(H: HashFn, m: nat, entries: seq<Bytes>, k: nat)
    requires IsPow2(k) && k < |entries| <= 2 * k && m < |entries|
    ensures InclusionProof(H, m, entries)
         == if m < k then InclusionProof(H, m, entries[..k]) + [MerkleTreeHash(H, entries[k..])]
            else InclusionProof(H, m - k, entries[k..]) + [MerkleTreeHash(H, entries[..k])]
  {
    SplitPointIsUnique(|entries|, k);
  }

  lemma SubproofSplits(H: HashFn, m: nat, entries: seq<Bytes>, b: bool, k: nat)
    requires IsPow2(k) && k < |entries| <= 2 * k && 0 < m < |entries|
    ensures Subproof(H, m, entries, b)
         == if m <= k then Subproof(H, m, entries[..k], b) + [MerkleTreeHash(H, entries[k..])]
            else Subproof(H, m - k, entries[k..], false) + [MerkleTreeHash(H, entries[..k])]
  {
    SplitPointIsUnique(|entries|, k);
  }

  lemma {:induction false} BuildHoldsEntries(entries: seq<Bytes>)
    ensures Entries(Build(entries)) == entries
  {
    var n := |entries|;
    if n > 1 {
      var k := SplitPoint(n);
      SplitPointIsUnique(n, k);
      BuildSplits(entries, k);
      BuildHoldsEntries(entries[..k]);
      BuildHoldsEntries(entries[k..]);
    }
  }

  lemma {:induction false} BuildHash(H: HashFn, entries: seq<Bytes>)
    ensures TreeHash(H, Build(entries)) == MerkleTreeHash(H, entries)
  {
    var n := |entries|;
    if n > 1 {
      var k := SplitPoint(n);
      SplitPointIsUnique(n, k);
      BuildSplits(entries, k);
      HashSplits(H, entries, k);
      BuildHash(H, entries[..k]);
      BuildHash(H, entries[k..]);
    }
  }

  /** The tree built from a list holds exactly that list, and its hash is the list's tree hash. */
  lemma {:induction false} BuildIsTheTree(H: HashFn, entries: seq<Bytes>)
    ensures Entries(Build(entries)) == entries
    ensures TreeHash(H, Build(entries)) == MerkleTreeHash(H, entries)
  {
    BuildHoldsEntries(entries);
    BuildHash(H, entries);
  }

  /** Two trees with one hash are the same tree, or this finds the collision. */
  function TreeCollision(H: HashFn, t: Tree, u: Tree): (r: Option<Collision>)
    requires TreeHash(H, t) == TreeHash(H, u)
    ensures r.Some? ==> IsCollision(H, r.value)
    ensures r.None? ==> t == u
  {
    if TreeInput(H, t) != TreeInput(H, u) then Some(Collision(TreeInput(H, t), TreeInput(H, u)))
    else if t.Node? && u.Node? then
      NodeInputInjective(TreeHash(H, t.left), TreeHash(H, t.right), TreeHash(H, u.left), TreeHash(H, u.right));
      var left := TreeCollision(H, t.left, u.left);
      if left.Some? then left else TreeCollision(H, t.right, u.right)
    else
      LeafInputInjective(H, t, u);
      None
  }

  lemma NodeInputInjective(a: Bytes, b: Bytes, c: Bytes, d: Bytes)
    requires NodeInput(a, b) == NodeInput(c, d)
    requires |a| == |c| || |b| == |d|
    ensures a == c && b == d
  {
    var x, y := NodeInput(a, b), NodeInput(c, d);
    assert |x| == 1 + |a| + |b| && |y| == 1 + |c| + |d|;
    assert a == x[1..1 + |a|] && b == x[1 + |a|..];
    assert c == y[1..1 + |c|] && d == y[1 + |c|..];
  }

  lemma LeafInputInjective(H: HashFn, t: Tree, u: Tree)
    requires TreeInput(H, t) == TreeInput(H, u)
    requires !t.Node? || !u.Node?
    ensures t == u
  {
    var x, y := TreeInput(H, t), TreeInput(H, u);
    if t.Leaf? && u.Leaf? {
      assert t.entry == x[1..] && u.entry == y[1..];
    }
  }

  /** Lists of any two lengths with the same tree hash are equal, or this finds the collision. */
  function ListCollision(H: HashFn, d: seq<Bytes>, e: seq<Bytes>): (r: Option<Collision>)
    requires MerkleTreeHash(H, d) == MerkleTreeHash(H, e)
    ensures r.Some? ==> IsCollision(H, r.value)
    ensures r.None? ==> d == e
  {
    BuildIsTheTree(H, d);
    BuildIsTheTree(H, e);
    TreeCollision(H, Build(d), Build(e))
  }
}
