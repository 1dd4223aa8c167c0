/**
 * The one place where the compacted tree of the program has no answer: the way down to a key ends in an
 * empty leaf slot at full depth. It takes another key that shares all bits but the last.
 */
module TreeCorner {
  import opened Hashing
  import opened SumTree
  import opened TreeProof

  /** The way down to the key ends in an empty slot at full depth. */
  ghost predicate Stuck(t: Tree, h: nat, key: Digest)
    requires h <= DEPTH
    decreases t
  {
    match t
    case Empty => h == DEPTH
    case Compact(_, _) => false
    case Fork(l, r) => h < DEPTH && Stuck(if Bit(key, h) then r else l, h + 1, key)
  }

  ghost predicate HasNeighbour(keys: set<Digest>, key: Digest, h: nat)
    requires h <= DEPTH
  {
    exists k :: k in keys && k != key && Agree(k, key, h)
  }

  /** Below the root, a fork on the way to the key was made for two keys, one of them another one. */
  ghost predicate Neighboured(t: Tree, h: nat, key: Digest, keys: set<Digest>)
    requires h <= DEPTH
    decreases t
  {
    match t
    case Fork(l, r) =>
      && h < DEPTH && (h > 0 ==> HasNeighbour(keys, key, h))
      && Neighboured(if Bit(key, h) then r else l, h + 1, key, keys)
    case _ => true
  }

  lemma {:induction false} NeighbouredGrows(t: Tree, h: nat, key: Digest, keys: set<Digest>, more: set<Digest>)
    requires h <= DEPTH && keys <= more && Neighboured(t, h, key, keys)
    ensures Neighboured(t, h, key, more)
    decreases t
  {
    hide Bit;
    if t.Fork? {
      if h > 0 {
        var k :| k in keys && k != key && Agree(k, key, h);
        assert k in more;
      }
      NeighbouredGrows(if Bit(key, h) then t.right else t.left, h + 1, key, keys, more);
    }
  }

  lemma OneOfTwo(k1: Digest, k2: Digest, key: Digest, h: nat, keys: set<Digest>)
    requires h <= DEPTH && k1 != k2 && Agree(k1, k2, h) && Agree(key, k1, h) && k1 in keys && k2 in keys
    ensures HasNeighbour(keys, key, h)
  {
    hide Bit;
    assert Agree(k1, key, h) && Agree(k2, key, h);
    if k1 != key { assert k1 in keys && k1 != key; } else { assert k2 in keys && k2 != key; }
  }

  lemma {:induction false} MergeNeighboured(h: nat, k1: Digest, leaf1: LeafNode, k2: Digest, leaf2: LeafNode,
                                            key: Digest, keys: set<Digest>)
    requires h <= DEPTH && k1 != k2 && Agree(k1, k2, h) && Agree(key, k1, h) && k1 in keys && k2 in keys
    ensures Neighboured(Merge(h, k1, leaf1, k2, leaf2), h, key, keys)
    decreases DEPTH - h
  {
    hide Bit, Contents;
    if h == DEPTH { AgreeOnAllBits(k1, k2); }
    OneOfTwo(k1, k2, key, h, keys);
    if Bit(k1, h) == Bit(k2, h) && Bit(key, h) == Bit(k1, h) {
      MergeNeighboured(h + 1, k1, leaf1, k2, leaf2, key, keys);
    }
  }

  lemma {:induction false} InsertNeighboured(t: Tree, h: nat, added: Digest, leaf: LeafNode, key: Digest,
                                             keys: set<Digest>)
    requires h <= DEPTH && Placed(t, h) && Fits(t, added, h) && Keys(t) <= keys
    requires Agree(key, added, h) && Neighboured(t, h, key, keys)
    ensures Neighboured(InsertAt(t, h, added, leaf), h, key, keys + {added})
    decreases t
  {
    hide Bit, Contents;
    match t
    case Empty =>
    case Compact(k, prior) =>
      if k != added {
        assert k in Keys(t) && Agree(k, added, h);
        MergeNeighboured(h, added, leaf, k, prior, key, keys + {added});
      }
    case Fork(l, r) =>
      FitsBelow(t, added, h);
      NeighbouredGrows(t, h, key, keys, keys + {added});
      if Bit(key, h) == Bit(added, h) {
        InsertNeighboured(if Bit(added, h) then r else l, h + 1, added, leaf, key, keys);
      }
  }

  lemma {:induction false} StuckHasNeighbour(t: Tree, h: nat, key: Digest, keys: set<Digest>)
    requires h < DEPTH && Stuck(t, h, key) && Neighboured(t, h, key, keys)
    ensures HasNeighbour(keys, key, DEPTH - 1)
    decreases t
  {
    hide Bit, Agree;
    if h + 1 < DEPTH { StuckHasNeighbour(if Bit(key, h) then t.right else t.left, h + 1, key, keys); }
  }

  datatype Update = Update(key: Digest, leaf: LeafNode)

  ghost function UpdatedKeys(updates: seq<Update>): set<Digest> {
    set u | u in updates :: u.key
  }

  /** A tree after any run of insertions and deletions, sums aside. */
  ghost function Built(updates: seq<Update>): (t: Tree)
    ensures t.Fork? && Placed(t, 0) && Keys(t) <= UpdatedKeys(updates)
  {
    if updates == [] then
      NewTreeIsEmpty();
      NEW_TREE
    else
      var front, u := updates[..|updates| - 1], updates[|updates| - 1];
      var t := Built(front);
      InsertKeepsPlaced(t, 0, u.key, u.leaf);
      assert updates == front + [u];
      assert UpdatedKeys(updates) == UpdatedKeys(front) + {u.key};
      InsertAt(t, 0, u.key, u.leaf)
  }

  lemma {:induction false} BuiltNeighboured(updates: seq<Update>, key: Digest)
    ensures Neighboured(Built(updates), 0, key, UpdatedKeys(updates))
  {
    if updates != [] {
      hide InsertAt, Neighboured, Bit;
      var front, u := updates[..|updates| - 1], updates[|updates| - 1];
      BuiltNeighboured(front, key);
      InsertNeighboured(Built(front), 0, u.key, u.leaf, key, UpdatedKeys(front));
      assert updates == front + [u];
      assert UpdatedKeys(updates) == UpdatedKeys(front) + {u.key};
    }
  }

  /** The way down to a key can only be stuck if another key, inserted at some time, shares its first 255 bits. */
  lemma StuckNeedsNeighbour(updates: seq<Update>, key: Digest)
    requires Stuck(Built(updates), 0, key)
    ensures exists u :: u in updates && u.key != key && Agree(u.key, key, DEPTH - 1)
  {
    hide Built, Stuck, Neighboured, Agree;
    BuiltNeighboured(updates, key);
    StuckHasNeighbour(Built(updates), 0, key, UpdatedKeys(updates));
    var k :| k in UpdatedKeys(updates) && k != key && Agree(k, key, DEPTH - 1);
    var u :| u in updates && u.key == k;
  }
}
