/**
 * The Merkle-sum sparse Merkle tree. `FullNode` is the reference: the fixed-depth binary tree
 * over all key bits, as a function of the leaves alone. `Tree` is the compacted tree the program
 * updates in place of it, whose shape depends on the order of updates.
 */
module SumTree {
  import opened Bytes
  import opened Hashing

  datatype LeafNode = LeafNode(value: bytes, sum: u64)

  /** A computed node: what its parent commits to. */
  datatype Node = Node(hash: Digest, sum: nat)

  type Leaves = map<Digest, LeafNode>

  /** The leaf with no value and sum 0, which stands for an absent one. */
  type NoLeaf = leaf: LeafNode | leaf.value == [] && leaf.sum == 0 witness LeafNode([], 0)

  const EMPTY_LEAF: NoLeaf

  function LeafPreimage(leaf: LeafNode): bytes {
    leaf.value + BigEndian(leaf.sum, 8)
  }

  function LeafAsNode(leaf: LeafNode): Node {
    Node(Sha256(LeafPreimage(leaf)), leaf.sum)
  }

  function BranchPreimage(left: Node, right: Node): bytes {
    left.hash + right.hash + BigEndian(left.sum + right.sum, 8)
  }

  function Branch(left: Node, right: Node): (n: Node)
    ensures n.sum == left.sum + right.sum
  {
    Node(Sha256(BranchPreimage(left, right)), left.sum + right.sum)
  }

  /** The branch over `node` and its sibling, in the order bit `h` of the key gives. */
  function Step(key: Digest, h: nat, node: Node, sibling: Node): Node
    requires h < DEPTH
  {
    if Bit(key, h) then Branch(sibling, node) else Branch(node, sibling)
  }

  /** The subtree at height `h` all of whose leaves are `leaf` (the root of the tree has height 0). */
  function UniformNode(leaf: LeafNode, h: nat): (n: Node)
    requires h <= DEPTH
    ensures leaf.sum == 0 ==> n.sum == 0
    decreases DEPTH - h, leaf
  {
    if h == DEPTH then LeafAsNode(leaf) else Branch(UniformNode(leaf, h + 1), UniformNode(leaf, h + 1))
  }

  function EmptyNode(h: nat): (n: Node)
    requires h <= DEPTH
    ensures n.sum == 0
  {
    UniformNode(EMPTY_LEAF, h)
  }

  // ----- Reference: the full tree over a set of leaves -----

  /** The leaves whose key has bit `h` equal to `bit`. */
  function Side(leaves: Leaves, h: nat, bit: bool): Leaves
    requires h < DEPTH
  {
    map k | k in leaves && Bit(k, h) == bit :: leaves[k]
  }

  ghost predicate SharePrefix(leaves: Leaves, h: nat)
    requires h <= DEPTH
  {
    forall j, k :: j in leaves && k in leaves ==> Agree(j, k, h)
  }

  ghost function FullNode(leaves: Leaves, h: nat): Node
    requires h <= DEPTH
    decreases DEPTH - h, leaves
  {
    if h == DEPTH then
      LeafAsNode(AnyLeaf(leaves))
    else
      Branch(FullNode(Side(leaves, h, false), h + 1), FullNode(Side(leaves, h, true), h + 1))
  }

  /** At full depth at most one key is left. */
  ghost function AnyLeaf(leaves: Leaves): LeafNode {
    if leaves == map[] then EMPTY_LEAF else var k :| k in leaves; leaves[k]
  }

  /** The siblings on the path of `key`, deepest first, as a proof lists them. */
  ghost function FullSiblings(leaves: Leaves, h: nat, key: Digest): (s: seq<Node>)
    requires h <= DEPTH
    ensures |s| == DEPTH - h
    decreases DEPTH - h, leaves
  {
    if h == DEPTH then []
    else FullSiblings(Side(leaves, h, Bit(key, h)), h + 1, key)
         + [FullNode(Side(leaves, h, !Bit(key, h)), h + 1)]
  }

  function LeafAt(leaves: Leaves, key: Digest): LeafNode {
    if key in leaves then leaves[key] else EMPTY_LEAF
  }

  ghost function Total(leaves: Leaves): nat {
    if leaves == map[] then 0 else var k :| k in leaves; leaves[k].sum + Total(leaves - {k})
  }

  // ----- The compacted tree -----

  datatype Tree =
    | Empty
    | Compact(key: Digest, leaf: LeafNode)   // a subtree holding one leaf, its branches omitted
    | Fork(left: Tree, right: Tree)

  function Keys(t: Tree): set<Digest> {
    match t
    case Empty => {}
    case Compact(k, _) => {k}
    case Fork(l, r) => Keys(l) + Keys(r)
  }

  /** What the tree holds. Deleting an absent key can leave a compacted empty leaf behind. */
  function Contents(t: Tree): Leaves {
    match t
    case Empty => map[]
    case Compact(k, leaf) => if leaf == EMPTY_LEAF then map[] else map[k := leaf]
    case Fork(l, r) => Contents(l) + Contents(r)
  }

  ghost predicate Placed(t: Tree, h: nat)
    requires h <= DEPTH
  {
    match t
    case Empty => true
    case Compact(_, _) => true
    case Fork(l, r) =>
      && h < DEPTH
      && Placed(l, h + 1) && Placed(r, h + 1)
      && (forall k :: k in Keys(l) ==> !Bit(k, h))
      && (forall k :: k in Keys(r) ==> Bit(k, h))
  }

  ghost predicate Fits(t: Tree, key: Digest, h: nat)
    requires h <= DEPTH
  {
    forall k :: k in Keys(t) ==> Agree(k, key, h)
  }

  function CompactNode(key: Digest, leaf: LeafNode, h: nat): Node
    requires h <= DEPTH
    decreases DEPTH - h, leaf
  {
    if h == DEPTH then LeafAsNode(leaf) else Step(key, h, CompactNode(key, leaf, h + 1), EmptyNode(h + 1))
  }

  function NodeOf(t: Tree, h: nat): Node
    requires h <= DEPTH
    requires Placed(t, h)
    decreases t
  {
    match t
    case Empty => EmptyNode(h)
    case Compact(k, leaf) => CompactNode(k, leaf, h)
    case Fork(l, r) => Branch(NodeOf(l, h + 1), NodeOf(r, h + 1))
  }

  /** Two leaves with different keys under one node: branches down to where the keys part. */
  function Merge(h: nat, k1: Digest, leaf1: LeafNode, k2: Digest, leaf2: LeafNode): (t: Tree)
    requires h <= DEPTH && k1 != k2 && Agree(k1, k2, h)
    ensures Placed(t, h) && Keys(t) == {k1, k2}
    ensures Contents(t) == Contents(Compact(k1, leaf1)) + Contents(Compact(k2, leaf2))
    decreases DEPTH - h
  {
    if h == DEPTH then
      AgreeOnAllBits(k1, k2);
      Empty
    else if Bit(k1, h) == Bit(k2, h) then
      var sub := Merge(h + 1, k1, leaf1, k2, leaf2);
      if Bit(k1, h) then Fork(Empty, sub) else Fork(sub, Empty)
    else if Bit(k1, h) then Fork(Compact(k2, leaf2), Compact(k1, leaf1))
    else Fork(Compact(k1, leaf1), Compact(k2, leaf2))
  }

  function Updated(leaves: Leaves, key: Digest, leaf: LeafNode): Leaves {
    if leaf == EMPTY_LEAF then leaves - {key} else leaves[key := leaf]
  }

  /** Inserting the empty leaf is deletion. */
  function InsertAt(t: Tree, h: nat, key: Digest, leaf: LeafNode): (t': Tree)
    requires h <= DEPTH
    requires Placed(t, h) && Fits(t, key, h)
    ensures t.Fork? ==> t'.Fork?
    decreases t
  {
    match t
    case Empty => Compact(key, leaf)
    case Compact(k, prior) =>
      if k == key then
        if leaf == EMPTY_LEAF then Empty else Compact(key, leaf)
      else
        assert k in Keys(t) && Agree(k, key, h);
        Merge(h, key, leaf, k, prior)
    case Fork(l, r) =>
      FitsBelow(t, key, h);
      if Bit(key, h) then Fork(l, InsertAt(r, h + 1, key, leaf))
      else Fork(InsertAt(l, h + 1, key, leaf), r)
  }

  lemma {:induction false} InsertKeepsPlaced(t: Tree, h: nat, key: Digest, leaf: LeafNode)
    requires h <= DEPTH && Placed(t, h) && Fits(t, key, h)
    ensures Keys(InsertAt(t, h, key, leaf)) <= Keys(t) + {key}
    ensures Placed(InsertAt(t, h, key, leaf), h)
    decreases t
  {
    hide Bit;
    hide Contents;
    match t
    case Empty =>
    case Compact(k, prior) =>
      assert k in Keys(t) && Agree(k, key, h);
    case Fork(l, r) =>
      FitsBelow(t, key, h);
      if Bit(key, h) {
        InsertKeepsPlaced(r, h + 1, key, leaf);
      } else {
        InsertKeepsPlaced(l, h + 1, key, leaf);
      }
  }

  /** Insertion updates the contents at that key and nowhere else. */
  lemma {:induction false} InsertUpdatesContents(t: Tree, h: nat, key: Digest, leaf: LeafNode)
    requires h <= DEPTH && Placed(t, h) && Fits(t, key, h)
    ensures Contents(InsertAt(t, h, key, leaf)) == Updated(Contents(t), key, leaf)
    decreases t
  {
    hide Bit;
    match t
    case Empty =>
    case Compact(k, prior) =>
      assert k in Keys(t) && Agree(k, key, h);
    case Fork(l, r) =>
      ContentsKeys(l);
      ContentsKeys(r);
      FitsBelow(t, key, h);
      if Bit(key, h) {
        InsertUpdatesContents(r, h + 1, key, leaf);
        assert key !in Contents(l);
        assert InsertAt(t, h, key, leaf) == Fork(l, InsertAt(r, h + 1, key, leaf));
        UpdateRight(Contents(l), Contents(r), key, leaf);
      } else {
        InsertUpdatesContents(l, h + 1, key, leaf);
        assert key !in Contents(r);
        assert InsertAt(t, h, key, leaf) == Fork(InsertAt(l, h + 1, key, leaf), r);
        UpdateLeft(Contents(l), Contents(r), key, leaf);
      }
  }

  /** Every key that is inserted has a place afterwards, and a key that had one loses it by deletion. */
  lemma {:induction false} InsertKeys(t: Tree, h: nat, key: Digest, leaf: LeafNode)
    requires h <= DEPTH && Placed(t, h) && Fits(t, key, h)
    ensures Keys(InsertAt(t, h, key, leaf))
            == if key in Keys(t) && leaf == EMPTY_LEAF then Keys(t) - {key} else Keys(t) + {key}
    decreases t
  {
    hide Bit, Contents;
    match t
    case Empty =>
    case Compact(k, prior) =>
      assert k in Keys(t) && Agree(k, key, h);
    case Fork(l, r) =>
      FitsBelow(t, key, h);
      if Bit(key, h) { InsertKeys(r, h + 1, key, leaf); } else { InsertKeys(l, h + 1, key, leaf); }
  }

  lemma UpdateRight(left: Leaves, right: Leaves, key: Digest, leaf: LeafNode)
    requires key !in left
    ensures left + Updated(right, key, leaf) == Updated(left + right, key, leaf)
  {
  }

  lemma UpdateLeft(left: Leaves, right: Leaves, key: Digest, leaf: LeafNode)
    requires key !in right
    ensures Updated(left, key, leaf) + right == Updated(left + right, key, leaf)
  {
  }

  lemma FitsBelow(t: Tree, key: Digest, h: nat)
    requires h < DEPTH && t.Fork? && Placed(t, h) && Fits(t, key, h)
    ensures Fits(if Bit(key, h) then t.right else t.left, key, h + 1)
  {
    var side := if Bit(key, h) then t.right else t.left;
    forall k | k in Keys(side) ensures Agree(k, key, h + 1) {
      assert k in Keys(t) && Agree(k, key, h) && Bit(k, h) == Bit(key, h);
    }
  }

  lemma ContentsKeys(t: Tree)
    ensures Contents(t).Keys <= Keys(t)
  {
  }

  /** The siblings on the way down to `key`, compacted leaves extracted as they are met. */
  function Siblings(t: Tree, h: nat, key: Digest): (s: seq<Node>)
    requires h <= DEPTH
    requires Placed(t, h)
    ensures |s| == DEPTH - h
    decreases DEPTH - h, t
  {
    if h == DEPTH then [] else
    match t
    case Empty => Siblings(Empty, h + 1, key) + [EmptyNode(h + 1)]
    case Compact(k, leaf) =>
      if Bit(k, h) == Bit(key, h) then Siblings(t, h + 1, key) + [EmptyNode(h + 1)]
      else Siblings(Empty, h + 1, key) + [CompactNode(k, leaf, h + 1)]
    case Fork(l, r) =>
      if Bit(key, h) then Siblings(r, h + 1, key) + [NodeOf(l, h + 1)]
      else Siblings(l, h + 1, key) + [NodeOf(r, h + 1)]
  }

  // ----- The compacted tree refines the full tree -----

  lemma {:induction false} FullNodeEmpty(h: nat)
    requires h <= DEPTH
    ensures FullNode(map[], h) == EmptyNode(h)
    decreases DEPTH - h
  {
    hide Branch, LeafAsNode, Bit;
    if h < DEPTH {
      assert Side(map[], h, false) == map[] == Side(map[], h, true);
      FullNodeEmpty(h + 1);
    }
  }

  lemma AnyLeafOfOne(key: Digest, leaf: LeafNode)
    ensures AnyLeaf(Contents(Compact(key, leaf))) == leaf
  {
    assert leaf != EMPTY_LEAF ==> key in Contents(Compact(key, leaf));
  }

  lemma {:induction false} FullNodeSingle(key: Digest, leaf: LeafNode, h: nat)
    requires h <= DEPTH
    ensures FullNode(Contents(Compact(key, leaf)), h) == CompactNode(key, leaf, h)
    decreases DEPTH - h
  {
    hide Branch, LeafAsNode, AnyLeaf, Bit;
    var m := Contents(Compact(key, leaf));
    if h == DEPTH {
      AnyLeafOfOne(key, leaf);
    } else {
      assert Side(m, h, Bit(key, h)) == m && Side(m, h, !Bit(key, h)) == map[];
      FullNodeSingle(key, leaf, h + 1);
      FullNodeEmpty(h + 1);
    }
  }

  lemma SidesOfFork(l: Tree, r: Tree, h: nat)
    requires h <= DEPTH && Placed(Fork(l, r), h)
    ensures Side(Contents(Fork(l, r)), h, false) == Contents(l)
    ensures Side(Contents(Fork(l, r)), h, true) == Contents(r)
  {
    ContentsKeys(l);
    ContentsKeys(r);
  }

  /** The root of a compacted tree is a function of its contents alone. */
  lemma {:induction false} CompactedRefinesFull(t: Tree, h: nat)
    requires h <= DEPTH && Placed(t, h)
    ensures NodeOf(t, h) == FullNode(Contents(t), h)
    decreases t
  {
    hide Branch, LeafAsNode, AnyLeaf, Bit;
    match t
    case Empty => FullNodeEmpty(h);
    case Compact(k, leaf) => FullNodeSingle(k, leaf, h);
    case Fork(l, r) =>
      SidesOfFork(l, r, h);
      CompactedRefinesFull(l, h + 1);
      CompactedRefinesFull(r, h + 1);
  }

  lemma {:induction false} EmptySiblings(h: nat, key: Digest)
    requires h <= DEPTH
    ensures Siblings(Empty, h, key) == FullSiblings(map[], h, key)
    decreases DEPTH - h
  {
    hide Branch, LeafAsNode, AnyLeaf, Bit;
    if h < DEPTH {
      EmptySiblings(h + 1, key);
      FullNodeEmpty(h + 1);
      var b := Bit(key, h);
      assert Side(map[], h, b) == map[] == Side(map[], h, !b);
      assert FullSiblings(map[], h, key) == FullSiblings(map[], h + 1, key) + [FullNode(map[], h + 1)];
      assert Siblings(Empty, h, key) == Siblings(Empty, h + 1, key) + [EmptyNode(h + 1)];
    }
  }

  lemma {:induction false} CompactSiblings(k: Digest, leaf: LeafNode, h: nat, key: Digest)
    requires h <= DEPTH
    ensures Siblings(Compact(k, leaf), h, key) == FullSiblings(Contents(Compact(k, leaf)), h, key)
    decreases DEPTH - h
  {
    hide Branch, LeafAsNode, AnyLeaf, Bit;
    if h < DEPTH {
      var m := Contents(Compact(k, leaf));
      assert Side(m, h, Bit(k, h)) == m && Side(m, h, !Bit(k, h)) == map[];
      if Bit(k, h) == Bit(key, h) {
        CompactSiblings(k, leaf, h + 1, key);
        FullNodeEmpty(h + 1);
      } else {
        EmptySiblings(h + 1, key);
        FullNodeSingle(k, leaf, h + 1);
      }
    }
  }

  lemma ForkSiblings(l: Tree, r: Tree, h: nat, key: Digest)
    requires h < DEPTH && Placed(Fork(l, r), h)
    requires var t := if Bit(key, h) then r else l;
             Siblings(t, h + 1, key) == FullSiblings(Contents(t), h + 1, key)
    ensures Siblings(Fork(l, r), h, key) == FullSiblings(Contents(Fork(l, r)), h, key)
  {
    hide Branch, Bit;
    SidesOfFork(l, r, h);
    CompactedRefinesFull(if Bit(key, h) then l else r, h + 1);
  }

  /** So is every proof it hands out. */
  lemma {:induction false} SiblingsRefineFull(t: Tree, h: nat, key: Digest)
    requires h <= DEPTH && Placed(t, h)
    ensures Siblings(t, h, key) == FullSiblings(Contents(t), h, key)
    decreases t
  {
    hide Branch;
    match t
    case Empty => EmptySiblings(h, key);
    case Compact(k, leaf) => CompactSiblings(k, leaf, h, key);
    case Fork(l, r) =>
      SiblingsRefineFull(if Bit(key, h) then r else l, h + 1, key);
      ForkSiblings(l, r, h, key);
  }

  // ----- Sums -----

  lemma {:induction false} TotalRemove(leaves: Leaves, key: Digest)
    requires key in leaves
    ensures Total(leaves) == leaves[key].sum + Total(leaves - {key})
    decreases leaves.Keys
  {
    var k :| k in leaves && Total(leaves) == leaves[k].sum + Total(leaves - {k});
    if k != key {
      TotalRemove(leaves - {k}, key);
      TotalRemove(leaves - {key}, k);
      assert leaves - {k} - {key} == leaves - {key} - {k};
    }
  }

  lemma TotalUpdate(leaves: Leaves, key: Digest, leaf: LeafNode)
    ensures Total(Updated(leaves, key, leaf)) == Total(leaves) - LeafAt(leaves, key).sum + leaf.sum
  {
    if key in leaves { TotalRemove(leaves, key); }
    if leaf == EMPTY_LEAF {
      if key !in leaves { assert leaves - {key} == leaves; }
    } else {
      TotalRemove(leaves[key := leaf], key);
      assert leaves[key := leaf] - {key} == leaves - {key};
      if key !in leaves { assert leaves - {key} == leaves; }
    }
  }

  lemma {:induction false} TotalOfUnion(a: Leaves, b: Leaves)
    ensures Total(a + b) <= Total(a) + Total(b)
    decreases b.Keys
  {
    if b == map[] {
      assert a + b == a;
    } else {
      var k :| k in b;
      TotalRemove(b, k);
      TotalOfUnion(a, b - {k});
      TotalRemove(a + b, k);
      if k in a {
        TotalRemove(a + (b - {k}), k);
        assert (a + b) - {k} == (a + (b - {k})) - {k};
      } else {
        assert (a + b) - {k} == a + (b - {k});
      }
    }
  }

  lemma {:induction false} TotalOfPart(a: Leaves, keys: set<Digest>)
    ensures Total(a - keys) <= Total(a)
    decreases keys
  {
    if keys == {} {
      assert a - keys == a;
    } else {
      var k :| k in keys;
      TotalOfPart(a, keys - {k});
      var b := a - (keys - {k});
      assert a - keys == b - {k};
      if k in b { TotalRemove(b, k); } else { assert b - {k} == b; }
    }
  }

  lemma {:induction false} TotalOfSides(leaves: Leaves, h: nat)
    requires h < DEPTH
    ensures Total(leaves) == Total(Side(leaves, h, false)) + Total(Side(leaves, h, true))
    decreases leaves.Keys
  {
    hide Bit;
    if leaves == map[] {
      assert Side(leaves, h, false) == map[] == Side(leaves, h, true);
    } else {
      var k :| k in leaves;
      TotalRemove(leaves, k);
      TotalOfSides(leaves - {k}, h);
      var b := Bit(k, h);
      assert Side(leaves - {k}, h, b) == Side(leaves, h, b) - {k};
      assert Side(leaves - {k}, h, !b) == Side(leaves, h, !b);
      TotalRemove(Side(leaves, h, b), k);
    }
  }

  lemma SidesShareMore(leaves: Leaves, h: nat, bit: bool)
    requires h < DEPTH && SharePrefix(leaves, h)
    ensures SharePrefix(Side(leaves, h, bit), h + 1)
  {
  }

  lemma AtMostOneLeaf(leaves: Leaves, key: Digest)
    requires SharePrefix(leaves, DEPTH) && key in leaves
    ensures leaves == map[key := leaves[key]]
  {
    forall k | k in leaves ensures k == key { AgreeOnAllBits(k, key); }
  }

  lemma DeepestTotal(leaves: Leaves)
    requires SharePrefix(leaves, DEPTH)
    ensures AnyLeaf(leaves).sum == Total(leaves)
  {
    if leaves != map[] {
      var k :| k in leaves;
      AtMostOneLeaf(leaves, k);
      TotalRemove(leaves, k);
      assert leaves - {k} == map[];
    }
  }

  /** The sum of the root is the total of the leaves. */
  lemma {:induction false} RootSumIsTotal(leaves: Leaves, h: nat)
    requires h <= DEPTH && SharePrefix(leaves, h)
    ensures FullNode(leaves, h).sum == Total(leaves)
    decreases DEPTH - h
  {
    hide Branch, Bit, AnyLeaf, Total;
    if h == DEPTH {
      DeepestTotal(leaves);
    } else {
      TotalOfSides(leaves, h);
      SidesShareMore(leaves, h, false);
      SidesShareMore(leaves, h, true);
      RootSumIsTotal(Side(leaves, h, false), h + 1);
      RootSumIsTotal(Side(leaves, h, true), h + 1);
    }
  }
}
