/** Merkle proofs of the sum tree: the walk up, what it proves, and that honest proofs pass. */
module TreeProof {
  import opened Bytes
  import opened Hashing
  import opened SumTree

  /** Siblings from the leaf up to the root. */
  type Proof = p: seq<Node> | |p| == DEPTH witness seq(DEPTH, _ => Node(Zeros(32), 0))

  /** A root with its two children, which an asset commitment hashes again. */
  datatype Root = Root(left: Node, right: Node) {
    function AsNode(): (n: Node)
      ensures n.sum == Sum()
    {
      Branch(left, right)
    }

    function Sum(): nat {
      left.sum + right.sum
    }
  }

  /** The node at height `h` above `start`, unless a branch sum leaves the 64-bit range. */
  function Climb(key: Digest, start: Node, siblings: seq<Node>, h: nat): Option<Node>
    requires h <= DEPTH && |siblings| == DEPTH - h
    decreases DEPTH - h, siblings
  {
    if h == DEPTH then Some(start) else
    var last := |siblings| - 1;
    match Climb(key, start, siblings[..last], h + 1)
    case None => None
    case Some(n) =>
      if n.sum + siblings[last].sum >= U64_LIMIT then None else Some(Step(key, h, n, siblings[last]))
  }

  function ProofRoot(key: Digest, leaf: LeafNode, proof: Proof): (r: Option<Root>)
    ensures r.Some? ==> r.value.Sum() < U64_LIMIT
  {
    var last := DEPTH - 1;
    match Climb(key, LeafAsNode(leaf), proof[..last], 1)
    case None => None
    case Some(n) =>
      var s := proof[last];
      if n.sum + s.sum >= U64_LIMIT then None
      else Some(if Bit(key, 0) then Root(s, n) else Root(n, s))
  }

  lemma ProofRootIsClimb(key: Digest, leaf: LeafNode, proof: Proof)
    ensures var c := Climb(key, LeafAsNode(leaf), proof, 0);
            match ProofRoot(key, leaf, proof)
            case None => c == None
            case Some(r) => c == Some(r.AsNode())
  {
    hide Branch, LeafAsNode, Bit;
  }

  /** The walk up from a leaf, level by level. */
  method WalkUp(key: Digest, leaf: LeafNode, proof: Proof) returns (r: Option<Root>)
    ensures r == ProofRoot(key, leaf, proof)
  {
    hide Step, LeafAsNode, Bit;
    var current := LeafAsNode(leaf);
    var i := DEPTH - 1;
    while i > 0
      invariant 0 <= i < DEPTH
      invariant Climb(key, LeafAsNode(leaf), proof[..DEPTH - 1 - i], i + 1) == Some(current)
    {
      var sibling := proof[DEPTH - 1 - i];
      assert proof[..DEPTH - i][..DEPTH - 1 - i] == proof[..DEPTH - 1 - i];
      if current.sum + sibling.sum >= U64_LIMIT {
        ClimbFails(key, LeafAsNode(leaf), proof, i, 1);
        return None;
      }
      current := Step(key, i, current, sibling);
      i := i - 1;
    }
    if current.sum + proof[DEPTH - 1].sum >= U64_LIMIT {
      return None;
    }
    r := Some(if Bit(key, 0) then Root(proof[DEPTH - 1], current) else Root(current, proof[DEPTH - 1]));
  }

  lemma {:induction false} ClimbFails(key: Digest, start: Node, proof: Proof, i: nat, h: nat)
    requires h <= i < DEPTH
    requires Climb(key, start, proof[..DEPTH - i], i) == None
    ensures Climb(key, start, proof[..DEPTH - h], h) == None
    decreases i - h
  {
    hide Step;
    if h < i {
      ClimbFails(key, start, proof, i, h + 1);
      assert proof[..DEPTH - h][..DEPTH - h - 1] == proof[..DEPTH - (h + 1)];
    }
  }

  // ----- Soundness -----

  /** Every string hashed on the way up to height `h`. */
  ghost function Hashed(key: Digest, start: Node, siblings: seq<Node>, h: nat): set<bytes>
    requires h <= DEPTH && |siblings| == DEPTH - h
    decreases DEPTH - h, siblings
  {
    if h == DEPTH then {} else
    var last := |siblings| - 1;
    var below := Hashed(key, start, siblings[..last], h + 1);
    match Climb(key, start, siblings[..last], h + 1)
    case None => below
    case Some(n) => below + {StepPreimage(key, h, n, siblings[last])}
  }

  function StepPreimage(key: Digest, h: nat, node: Node, sibling: Node): bytes
    requires h < DEPTH
  {
    if Bit(key, h) then BranchPreimage(sibling, node) else BranchPreimage(node, sibling)
  }

  lemma StepHash(key: Digest, h: nat, node: Node, sibling: Node)
    requires h < DEPTH
    ensures Step(key, h, node, sibling).hash == Sha256(StepPreimage(key, h, node, sibling))
  {
  }

  lemma BranchPreimageInjective(l: Node, r: Node, l': Node, r': Node)
    requires BranchPreimage(l, r) == BranchPreimage(l', r')
    ensures l.hash == l'.hash && r.hash == r'.hash
    ensures l.sum + r.sum < U64_LIMIT && l'.sum + r'.sum < U64_LIMIT ==> l.sum + r.sum == l'.sum + r'.sum
  {
    hide BigEndian;
    ConcatInjective(l.hash + r.hash, BigEndian(l.sum + r.sum, 8), l'.hash + r'.hash, BigEndian(l'.sum + r'.sum, 8));
    ConcatInjective(l.hash, r.hash, l'.hash, r'.hash);
    if l.sum + r.sum < U64_LIMIT && l'.sum + r'.sum < U64_LIMIT {
      U64BytesInjective(l.sum + r.sum, l'.sum + r'.sum);
    }
  }

  lemma StepPreimageInjective(key: Digest, h: nat, n: Node, s: Node, n': Node, s': Node)
    requires h < DEPTH
    requires StepPreimage(key, h, n, s) == StepPreimage(key, h, n', s')
    ensures n.hash == n'.hash
  {
    if Bit(key, h) { BranchPreimageInjective(s, n, s', n'); } else { BranchPreimageInjective(n, s, n', s'); }
  }

  /** Two walks along one key that end in the same hash started from the same hash. */
  lemma {:induction false} SameEndSameStart(key: Digest, a: Node, p: seq<Node>, b: Node, q: seq<Node>, h: nat)
    requires h <= DEPTH && |p| == |q| == DEPTH - h
    requires Climb(key, a, p, h).Some? && Climb(key, b, q, h).Some?
    requires Climb(key, a, p, h).value.hash == Climb(key, b, q, h).value.hash
    requires CollisionFree(Hashed(key, a, p, h) + Hashed(key, b, q, h))
    ensures a.hash == b.hash
    decreases DEPTH - h
  {
    hide Step, StepPreimage;
    if h < DEPTH {
      var last := |p| - 1;
      var m := Climb(key, a, p[..last], h + 1).value;
      var n := Climb(key, b, q[..last], h + 1).value;
      StepHash(key, h, m, p[last]);
      StepHash(key, h, n, q[last]);
      assert StepPreimage(key, h, m, p[last]) in Hashed(key, a, p, h);
      assert StepPreimage(key, h, n, q[last]) in Hashed(key, b, q, h);
      StepPreimageInjective(key, h, m, p[last], n, q[last]);
      CollisionFreeSubset(Hashed(key, a, p[..last], h + 1) + Hashed(key, b, q[..last], h + 1),
                          Hashed(key, a, p, h) + Hashed(key, b, q, h));
      SameEndSameStart(key, a, p[..last], b, q[..last], h + 1);
    }
  }

  ghost function HashedByProof(key: Digest, leaf: LeafNode, proof: Proof): set<bytes> {
    Hashed(key, LeafAsNode(leaf), proof, 0) + {LeafPreimage(leaf)}
  }

  /** One key cannot hold two leaves under one root. */
  lemma RootBindsLeaf(key: Digest, leaf: LeafNode, p: Proof, leaf': LeafNode, q: Proof)
    requires ProofRoot(key, leaf, p).Some? && ProofRoot(key, leaf', q).Some?
    requires ProofRoot(key, leaf, p).value.AsNode().hash == ProofRoot(key, leaf', q).value.AsNode().hash
    requires CollisionFree(HashedByProof(key, leaf, p) + HashedByProof(key, leaf', q))
    ensures leaf == leaf'
  {
    hide Branch, LeafAsNode, Climb, Hashed, ProofRoot;
    var hashed := HashedByProof(key, leaf, p) + HashedByProof(key, leaf', q);
    ProofRootIsClimb(key, leaf, p);
    ProofRootIsClimb(key, leaf', q);
    CollisionFreeSubset(Hashed(key, LeafAsNode(leaf), p, 0) + Hashed(key, LeafAsNode(leaf'), q, 0), hashed);
    SameEndSameStart(key, LeafAsNode(leaf), p, LeafAsNode(leaf'), q, 0);
    assert LeafPreimage(leaf) in hashed && LeafPreimage(leaf') in hashed;
    LeafHashInjective(leaf, leaf', hashed);
  }

  lemma LeafHashInjective(leaf: LeafNode, leaf': LeafNode, hashed: set<bytes>)
    requires LeafAsNode(leaf).hash == LeafAsNode(leaf').hash
    requires LeafPreimage(leaf) in hashed && LeafPreimage(leaf') in hashed && CollisionFree(hashed)
    ensures leaf == leaf'
  {
    hide BigEndian;
    ConcatInjective(leaf.value, BigEndian(leaf.sum, 8), leaf'.value, BigEndian(leaf'.sum, 8));
    U64BytesInjective(leaf.sum, leaf'.sum);
  }

  // ----- Completeness -----

  ghost predicate OnPath(leaves: Leaves, key: Digest, h: nat)
    requires h <= DEPTH
  {
    forall k :: k in leaves ==> Agree(k, key, h)
  }

  lemma OnPathBelow(leaves: Leaves, key: Digest, h: nat)
    requires h < DEPTH && OnPath(leaves, key, h)
    ensures OnPath(Side(leaves, h, Bit(key, h)), key, h + 1)
  {
  }

  lemma OnlyLeafOnPath(leaves: Leaves, key: Digest)
    requires OnPath(leaves, key, DEPTH)
    ensures AnyLeaf(leaves) == LeafAt(leaves, key)
  {
    forall k | k in leaves ensures k == key { AgreeOnAllBits(k, key); }
    if leaves != map[] {
      var k :| k in leaves;
      assert k == key;
    }
  }

  /** The siblings of the full tree lead from the leaf at `key` to its root. */
  lemma {:induction false} FullSiblingsClimb(leaves: Leaves, key: Digest, h: nat)
    requires h <= DEPTH && OnPath(leaves, key, h)
    requires FullNode(leaves, h).sum < U64_LIMIT
    ensures Climb(key, LeafAsNode(LeafAt(leaves, key)), FullSiblings(leaves, h, key), h) == Some(FullNode(leaves, h))
    decreases DEPTH - h
  {
    hide Branch, LeafAsNode, AnyLeaf, Bit;
    if h == DEPTH {
      OnlyLeafOnPath(leaves, key);
    } else {
      var b := Bit(key, h);
      var side := Side(leaves, h, b);
      var below := FullSiblings(side, h + 1, key);
      OnPathBelow(leaves, key, h);
      assert LeafAt(side, key) == LeafAt(leaves, key);
      FullSiblingsClimb(side, key, h + 1);
      assert FullSiblings(leaves, h, key)[..|below|] == below;
      hide LeafAt, Side, FullSiblings;
    }
  }

  /** The root of the full tree with its children. */
  ghost function FullRoot(leaves: Leaves): Root {
    Root(FullNode(Side(leaves, 0, false), 1), FullNode(Side(leaves, 0, true), 1))
  }

  ghost function FullProof(leaves: Leaves, key: Digest): Proof {
    FullSiblings(leaves, 0, key)
  }

  lemma FullRootIsNode(leaves: Leaves)
    ensures FullRoot(leaves).AsNode() == FullNode(leaves, 0)
  {
    hide Branch, LeafAsNode, AnyLeaf, Bit;
  }

  lemma FullRootSum(leaves: Leaves)
    ensures FullRoot(leaves).AsNode() == FullNode(leaves, 0)
    ensures FullRoot(leaves).Sum() == Total(leaves)
  {
    hide FullNode, Total, Branch, Side;
    FullRootIsNode(leaves);
    RootSumIsTotal(leaves, 0);
  }

  lemma TopOfFullSiblings(leaves: Leaves, key: Digest, h: nat)
    requires h < DEPTH && OnPath(leaves, key, h)
    requires FullNode(leaves, h).sum < U64_LIMIT
    ensures var s := FullSiblings(leaves, h, key);
            var last := |s| - 1;
            var n := FullNode(Side(leaves, h, Bit(key, h)), h + 1);
            && s[last] == FullNode(Side(leaves, h, !Bit(key, h)), h + 1)
            && Climb(key, LeafAsNode(LeafAt(leaves, key)), s[..last], h + 1) == Some(n)
            && n.sum + s[last].sum < U64_LIMIT
  {
    hide Branch, LeafAsNode, AnyLeaf, Bit;
    var b := Bit(key, h);
    assert LeafAt(Side(leaves, h, b), key) == LeafAt(leaves, key);
    OnPathBelow(leaves, key, h);
    FullSiblingsClimb(Side(leaves, h, b), key, h + 1);
    var below := FullSiblings(Side(leaves, h, b), h + 1, key);
    assert FullSiblings(leaves, h, key)[..|below|] == below;
  }

  /** Every proof the tree hands out, for a present or an absent key, gives its root. */
  lemma FullProofComplete(leaves: Leaves, key: Digest)
    requires Total(leaves) < U64_LIMIT
    ensures ProofRoot(key, LeafAt(leaves, key), FullProof(leaves, key)) == Some(FullRoot(leaves))
  {
    hide Branch, LeafAsNode, AnyLeaf, Bit, Total, FullNode, FullSiblings, LeafAt, Side, Climb;
    FullRootSum(leaves);
    TopOfFullSiblings(leaves, key, 0);
  }

  // ----- The tree object: what a commitment stores and updates -----

  const NEW_TREE: Tree := Fork(Empty, Empty)

  ghost predicate ValidTree(t: Tree) {
    t.Fork? && Placed(t, 0) && Total(Contents(t)) < U64_LIMIT
  }

  function RootOf(t: Tree): Root
    requires t.Fork? && Placed(t, 0)
  {
    Root(NodeOf(t.left, 1), NodeOf(t.right, 1))
  }

  /** Fails when the root sum would leave the 64-bit range. */
  function Insert(t: Tree, key: Digest, leaf: LeafNode): Option<Tree>
    requires ValidTree(t)
  {
    InsertKeepsPlaced(t, 0, key, leaf);
    var t' := InsertAt(t, 0, key, leaf);
    if RootOf(t').Sum() >= U64_LIMIT then None else Some(t')
  }

  function MerkleProof(t: Tree, key: Digest): Proof
    requires ValidTree(t)
  {
    Siblings(t, 0, key)
  }

  lemma NewTreeIsEmpty()
    ensures ValidTree(NEW_TREE) && Contents(NEW_TREE) == map[]
  {
  }

  lemma RootOfIsFullRoot(t: Tree)
    requires t.Fork? && Placed(t, 0)
    ensures RootOf(t) == FullRoot(Contents(t))
    ensures RootOf(t).Sum() == Total(Contents(t))
  {
    hide FullNode, NodeOf, Total, Side, Contents;
    SidesOfFork(t.left, t.right, 0);
    CompactedRefinesFull(t.left, 1);
    CompactedRefinesFull(t.right, 1);
    FullRootSum(Contents(t));
  }

  /** An update changes one leaf of the contents, and is refused exactly when the total overflows. */
  lemma InsertSpec(t: Tree, key: Digest, leaf: LeafNode)
    requires ValidTree(t)
    ensures var after := Updated(Contents(t), key, leaf);
            match Insert(t, key, leaf)
            case None => Total(after) >= U64_LIMIT
            case Some(t') => ValidTree(t') && Contents(t') == after
  {
    hide NodeOf, Total, Side, Contents, RootOf, InsertAt, Placed, FullNode, Updated;
    InsertKeepsPlaced(t, 0, key, leaf);
    InsertUpdatesContents(t, 0, key, leaf);
    RootOfIsFullRoot(InsertAt(t, 0, key, leaf));
  }

  lemma MerkleProofIsFull(t: Tree, key: Digest)
    requires ValidTree(t)
    ensures MerkleProof(t, key) == FullProof(Contents(t), key)
  {
    SiblingsRefineFull(t, 0, key);
  }

  /** A deletion is never refused. */
  lemma DeleteSucceeds(t: Tree, key: Digest)
    requires ValidTree(t)
    ensures Insert(t, key, EMPTY_LEAF).Some?
  {
    hide Insert, Total;
    InsertSpec(t, key, EMPTY_LEAF);
    TotalUpdate(Contents(t), key, EMPTY_LEAF);
  }
}
