/** Splitting inputs over outputs: a tree of the resulting assets, whose root the change asset carries. */
module Split {
  import opened Bytes
  import opened Hashing
  import opened SumTree
  import opened TreeProof
  import opened Assets
  import Tlv
  import AltLeaves

  datatype Locator = Locator(outputIndex: u32, assetId: Digest, scriptKey: PubKey, amount: u64, assetVersion: byte)

  datatype Input = Input(asset: Asset, outPoint: OutPoint)

  datatype SplitAsset = SplitAsset(asset: Asset, outputIndex: u32)

  type SplitSet = map<Locator, SplitAsset>

  datatype Split = Split(prevAssets: map<PrevId, Asset>, rootAsset: Asset, splitAssets: SplitSet, tree: Tree)

  datatype Error =
    | InvalidSplitLocator
    | InvalidSplitLocatorCount
    | InvalidScriptKey
    | NonZeroSplitAmount
    | ZeroSplitAmount
    | InvalidSplitAmount
    | BadKey
    | BadLeaf
    | SumOverflow

  /** The un-spendable key, in its compressed serialization. */
  const NUMS_KEY: PubKey

  const COLLECTIBLE: byte := 1

  // ----- Locators -----

  function LocatorPreimage(l: Locator): bytes {
    BigEndian(l.outputIndex, 4) + l.assetId + XOnly(l.scriptKey)
  }

  function LocatorHash(l: Locator): Digest {
    Sha256(LocatorPreimage(l))
  }

  /** What a split is identified by: the parity of its key does not count. */
  function Identity(l: Locator): (u32, Digest, bytes) {
    (l.outputIndex, l.assetId, XOnly(l.scriptKey))
  }

  lemma PreimageIdentifies(l: Locator, m: Locator)
    ensures LocatorPreimage(l) == LocatorPreimage(m) <==> Identity(l) == Identity(m)
  {
    hide BigEndian;
    if LocatorPreimage(l) == LocatorPreimage(m) {
      ConcatInjective(BigEndian(l.outputIndex, 4) + l.assetId, XOnly(l.scriptKey),
                      BigEndian(m.outputIndex, 4) + m.assetId, XOnly(m.scriptKey));
      ConcatInjective(BigEndian(l.outputIndex, 4), l.assetId, BigEndian(m.outputIndex, 4), m.assetId);
      Pow256Values();
      BigEndianInjective(l.outputIndex, m.outputIndex, 4);
    }
  }

  ghost predicate DistinctHashes(ls: seq<Locator>) {
    forall i, j :: 0 <= i < j < |ls| ==> LocatorHash(ls[i]) != LocatorHash(ls[j])
  }

  ghost predicate DistinctIdentities(ls: seq<Locator>) {
    forall i, j :: 0 <= i < j < |ls| ==> Identity(ls[i]) != Identity(ls[j])
  }

  /** Locators are placed apart exactly when they identify different splits, short of a hash collision. */
  lemma IdentitiesPlaceApart(ls: seq<Locator>)
    requires CollisionFree(set l | l in ls :: LocatorPreimage(l))
    ensures DistinctHashes(ls) <==> DistinctIdentities(ls)
  {
    hide LocatorPreimage, Identity;
    var hashed := set l | l in ls :: LocatorPreimage(l);
    forall i, j | 0 <= i < j < |ls|
      ensures LocatorHash(ls[i]) == LocatorHash(ls[j]) <==> Identity(ls[i]) == Identity(ls[j])
    {
      assert LocatorPreimage(ls[i]) in hashed && LocatorPreimage(ls[j]) in hashed;
      PreimageIdentifies(ls[i], ls[j]);
    }
  }

  // ----- Amounts -----

  ghost function AmountSum(ls: seq<Locator>): nat {
    if ls == [] then 0 else AmountSum(ls[..|ls| - 1]) + ls[|ls| - 1].amount
  }

  ghost function InputSum(inputs: seq<Input>): nat {
    if inputs == [] then 0 else InputSum(inputs[..|inputs| - 1]) + inputs[|inputs| - 1].asset.amount
  }

  /** The sum of the input amounts in 64-bit arithmetic, which wraps around. */
  method TotalInput(inputs: seq<Input>) returns (total: u64)
    ensures total == InputSum(inputs) % U64_LIMIT
  {
    total := 0;
    var i := 0;
    while i < |inputs|
      invariant 0 <= i <= |inputs|
      invariant total == InputSum(inputs[..i]) % U64_LIMIT
    {
      assert inputs[..i + 1][..i] == inputs[..i];
      total := (total + inputs[i].asset.amount) % U64_LIMIT;
      i := i + 1;
    }
    assert inputs[..i] == inputs;
  }

  // ----- Split assets -----

  /** The key with the parity byte forced to even. */
  function EvenKey(k: PubKey): PubKey {
    [2] + XOnly(k)
  }

  /** What the input becomes at a locator, before its proof is known. */
  function SplitOf(input: Asset, l: Locator): Asset {
    input.(
      splitRoot := None, lockTime := 0, relativeLockTime := 0,
      amount := l.amount, version := l.assetVersion, scriptKey := EvenKey(l.scriptKey),
      prevWitnesses := [Witness(Some(AltLeaves.ZERO_PREV_ID), [], None)])
  }

  /** A verifier clears the split commitment of a split before it recomputes the leaf. */
  function ClearSplit(a: Asset): Asset
    requires |a.prevWitnesses| == 1
  {
    a.(prevWitnesses := [a.prevWitnesses[0].(split := None)])
  }

  ghost predicate Placeable(input: Asset, ls: seq<Locator>) {
    forall i :: 0 <= i < |ls| ==> ParsesAsKey(ls[i].scriptKey) && Leaf(SplitOf(input, ls[i])).Some?
  }

  /** The leaves of the splits by locator hash; a later one replaces an earlier one of the same hash. */
  ghost function SplitLeaves(input: Asset, ls: seq<Locator>): Leaves
    requires Placeable(input, ls)
  {
    if ls == [] then map[] else
    var last := |ls| - 1;
    SplitLeaves(input, ls[..last])[LocatorHash(ls[last]) := Leaf(SplitOf(input, ls[last])).value]
  }

  lemma LeafOfSplit(input: Asset, l: Locator)
    requires Leaf(SplitOf(input, l)).Some?
    ensures Leaf(SplitOf(input, l)).value.sum == l.amount && Leaf(SplitOf(input, l)).value != EMPTY_LEAF
  {
    hide Leaf;
    LeafNotEmpty(SplitOf(input, l));
  }

  lemma LeavesStep(input: Asset, ls: seq<Locator>, i: nat)
    requires i < |ls| && Placeable(input, ls[..i + 1])
    ensures Placeable(input, ls[..i])
    ensures SplitLeaves(input, ls[..i + 1])
            == Updated(SplitLeaves(input, ls[..i]), LocatorHash(ls[i]), Leaf(SplitOf(input, ls[i])).value)
    ensures AmountSum(ls[..i + 1]) == AmountSum(ls[..i]) + ls[i].amount
  {
    hide Leaf, LocatorHash, SplitOf;
    assert ls[..i + 1][..i] == ls[..i];
    assert forall j :: 0 <= j < i ==> ls[..i][j] == ls[..i + 1][j];
    assert ls[..i + 1][i] == ls[i];
    LeafOfSplit(input, ls[i]);
  }

  /** Every leaf belongs to some locator of the list. */
  lemma {:induction false} LeafSource(input: Asset, ls: seq<Locator>, h: Digest) returns (i: nat)
    requires Placeable(input, ls) && h in SplitLeaves(input, ls)
    ensures i < |ls| && LocatorHash(ls[i]) == h && SplitLeaves(input, ls)[h] == Leaf(SplitOf(input, ls[i])).value
  {
    hide Leaf, LocatorHash, SplitOf;
    var last := |ls| - 1;
    if h == LocatorHash(ls[last]) { i := last; } else { i := LeafSource(input, ls[..last], h); }
  }

  lemma {:induction false} LeafPresent(input: Asset, ls: seq<Locator>, i: nat)
    requires Placeable(input, ls) && i < |ls|
    ensures LocatorHash(ls[i]) in SplitLeaves(input, ls)
  {
    hide Leaf, LocatorHash, SplitOf;
    if i < |ls| - 1 { LeafPresent(input, ls[..|ls| - 1], i); }
  }

  /** With distinct hashes each locator finds its own leaf. */
  lemma OwnLeaf(input: Asset, ls: seq<Locator>, i: nat)
    requires Placeable(input, ls) && DistinctHashes(ls) && i < |ls|
    ensures LeafAt(SplitLeaves(input, ls), LocatorHash(ls[i])) == Leaf(SplitOf(input, ls[i])).value
  {
    hide Leaf, LocatorHash, SplitOf, SplitLeaves;
    LeafPresent(input, ls, i);
    var j := LeafSource(input, ls, LocatorHash(ls[i]));
    assert i == j;
  }

  ghost predicate AllButLastNonZero(ls: seq<Locator>) {
    forall i :: 0 <= i < |ls| - 1 ==> ls[i].amount != 0
  }

  /** The tree holds all the amounts exactly when no locator replaced another. */
  lemma {:induction false} TreeTotal(input: Asset, ls: seq<Locator>)
    requires Placeable(input, ls)
    ensures Total(SplitLeaves(input, ls)) <= AmountSum(ls)
    ensures DistinctHashes(ls) ==> Total(SplitLeaves(input, ls)) == AmountSum(ls)
    ensures !DistinctHashes(ls) && AllButLastNonZero(ls) ==> Total(SplitLeaves(input, ls)) < AmountSum(ls)
  {
    hide Leaf, LocatorHash, SplitOf, Total, SplitLeaves;
    if ls == [] {
      EmptyTotal(input);
    } else {
      var last := |ls| - 1;
      var front := ls[..last];
      assert ls[..last + 1] == ls;
      LeavesStep(input, ls, last);
      TreeTotal(input, front);
      var before, h := SplitLeaves(input, front), LocatorHash(ls[last]);
      TotalUpdate(before, h, Leaf(SplitOf(input, ls[last])).value);
      LeafOfSplit(input, ls[last]);
      if h in before {
        var i := LeafSource(input, front, h);
        LeafOfSplit(input, ls[i]);
        assert LocatorHash(ls[i]) == LocatorHash(ls[last]);
      } else {
        forall i | 0 <= i < last ensures LocatorHash(ls[i]) != h { LeafPresent(input, front, i); }
        assert DistinctHashes(front) ==> DistinctHashes(ls);
      }
    }
  }

  lemma EmptyTotal(input: Asset)
    ensures SplitLeaves(input, []) == map[] && Total(map[]) == 0
  {
  }

  // ----- Making a split -----

  /** The checks made before any split is built. */
  function Refusal(input: Asset, root: Locator, external: seq<Locator>): Option<Error> {
    if external == [] then Some(InvalidSplitLocator)
    else if input.genesis.assetType == COLLECTIBLE && root.amount != 0 then Some(NonZeroSplitAmount)
    else if input.genesis.assetType == COLLECTIBLE && |external| != 1 then Some(InvalidSplitLocatorCount)
    else if root.amount == 0 && root.scriptKey != NUMS_KEY then Some(InvalidScriptKey)
    else if root.amount != 0 && root.scriptKey == NUMS_KEY then Some(NonZeroSplitAmount)
    else None
  }

  /** Exactly the requests that can be met. */
  ghost predicate Allowed(inputs: seq<Input>, root: Locator, external: seq<Locator>)
    requires inputs != []
  {
    && external != []
    && (inputs[0].asset.genesis.assetType == COLLECTIBLE ==> root.amount == 0 && |external| == 1)
    && (root.amount == 0 <==> root.scriptKey == NUMS_KEY)
    && AllButLastNonZero(external + [root])
    && Placeable(inputs[0].asset, external + [root])
    && AmountSum(external + [root]) == InputSum(inputs) % U64_LIMIT
  }

  ghost predicate Holds(tree: Tree, leaves: Leaves) {
    ValidTree(tree) && Contents(tree) == leaves
  }

  lemma HoldsNothing()
    ensures Holds(NEW_TREE, map[])
  {
    NewTreeIsEmpty();
  }

  lemma HoldsNext(tree: Tree, leaves: Leaves, key: Digest, leaf: LeafNode)
    requires Holds(tree, leaves)
    ensures ValidTree(tree)
    ensures match Insert(tree, key, leaf)
            case None => Total(Updated(leaves, key, leaf)) >= U64_LIMIT
            case Some(t) => Holds(t, Updated(leaves, key, leaf))
  {
    hide Insert, ValidTree, Contents, Total;
    InsertSpec(tree, key, leaf);
  }

  function Unproven(input: Asset, l: Locator): (r: SplitAsset)
    ensures |r.asset.prevWitnesses| == 1
  {
    SplitAsset(SplitOf(input, l), l.outputIndex)
  }

  lemma {:induction false} PrefixSum(ls: seq<Locator>, i: nat)
    requires i <= |ls|
    ensures AmountSum(ls[..i]) <= AmountSum(ls)
  {
    if i < |ls| {
      PrefixSum(ls[..|ls| - 1], i);
      assert ls[..|ls| - 1][..i] == ls[..i];
    } else {
      assert ls[..i] == ls;
    }
  }

  /** What is wrong with a list of locators when this error is returned for it. */
  ghost predicate ErrorApplies(e: Error, input: Asset, ls: seq<Locator>, total: u64) {
    match e
    case ZeroSplitAmount => exists i :: 0 <= i < |ls| - 1 && ls[i].amount == 0
    case BadKey => exists i :: 0 <= i < |ls| && !ParsesAsKey(ls[i].scriptKey)
    case BadLeaf => exists i :: 0 <= i < |ls| && Leaf(SplitOf(input, ls[i])) == None
    case SumOverflow => AmountSum(ls) >= U64_LIMIT
    case InvalidSplitAmount => AmountSum(ls) != total
    case _ => false
  }

  /** Builds the splits one by one, taking each amount from what remains. The last locator is the root. */
  method PlaceSplits(input: Asset, ls: seq<Locator>, total: u64)
    returns (err: Option<Error>, splits: SplitSet, tree: Tree)
    requires ls != []
    ensures err == None <==> AllButLastNonZero(ls) && Placeable(input, ls) && AmountSum(ls) == total
    ensures err == None ==> Holds(tree, SplitLeaves(input, ls)) && splits == map l | l in ls :: Unproven(input, l)
    ensures err.Some? ==> ErrorApplies(err.value, input, ls, total)
  {
    hide Leaf, SplitOf, LocatorHash, SplitLeaves, AmountSum, Holds, Insert, ValidTree, Total;
    splits, tree := map[], NEW_TREE;
    HoldsNothing();
    EmptyTotal(input);
    var remaining := total;
    var i := 0;
    assert ls[..0] == [];
    assert AmountSum([]) == 0 by { NoAmount(); }
    while i < |ls|
      invariant 0 <= i <= |ls|
      invariant Placeable(input, ls[..i])
      invariant forall j :: 0 <= j < i && j < |ls| - 1 ==> ls[j].amount != 0
      invariant AmountSum(ls[..i]) + remaining == total
      invariant Holds(tree, SplitLeaves(input, ls[..i]))
      invariant splits == map l | l in ls[..i] :: Unproven(input, l)
    {
      var l := ls[i];
      if i != |ls| - 1 && l.amount == 0 { return Some(ZeroSplitAmount), map[], NEW_TREE; }
      if !ParsesAsKey(l.scriptKey) { return Some(BadKey), map[], NEW_TREE; }
      var asset := SplitOf(input, l);
      var leaf := Leaf(asset);
      if leaf == None { return Some(BadLeaf), map[], NEW_TREE; }
      assert ls[..i + 1] == ls[..i] + [l];
      LeavesStep(input, ls, i);
      PrefixSum(ls, i + 1);
      HoldsNext(tree, SplitLeaves(input, ls[..i]), LocatorHash(l), leaf.value);
      var inserted := Insert(tree, LocatorHash(l), leaf.value);
      if inserted == None {
        TreeTotal(input, ls[..i + 1]);
        return Some(SumOverflow), map[], NEW_TREE;
      }
      if remaining < l.amount { return Some(InvalidSplitAmount), map[], NEW_TREE; }
      splits := splits[l := SplitAsset(asset, l.outputIndex)];
      tree := inserted.value;
      remaining := remaining - l.amount;
      i := i + 1;
    }
    assert ls[..i] == ls;
    if remaining != 0 { return Some(InvalidSplitAmount), map[], NEW_TREE; }
    return None, splits, tree;
  }

  lemma NoAmount()
    ensures AmountSum([]) == 0
  {
  }

  function PrevIdOf(input: Input): PrevId {
    PrevId(input.outPoint, AssetId(input.asset.genesis), input.asset.scriptKey)
  }

  function InputWitness(input: Input): Witness {
    Witness(Some(PrevIdOf(input)), [], None)
  }

  /** The input set by previous ID, and a witness for each input in order. */
  method IndexInputs(inputs: seq<Input>) returns (prevAssets: map<PrevId, Asset>, witnesses: seq<Witness>)
    ensures witnesses == seq(|inputs|, i requires 0 <= i < |inputs| => InputWitness(inputs[i]))
    ensures IndexesInputs(prevAssets, inputs)
  {
    hide PrevIdOf;
    prevAssets, witnesses := map[], [];
    var i := 0;
    while i < |inputs|
      invariant 0 <= i <= |inputs|
      invariant witnesses == seq(i, j requires 0 <= j < i => InputWitness(inputs[j]))
      invariant prevAssets.Keys == set x | x in inputs[..i] :: PrevIdOf(x)
      invariant forall p :: p in prevAssets ==>
        exists x :: x in inputs && PrevIdOf(x) == p && prevAssets[p] == x.asset
    {
      assert inputs[..i + 1] == inputs[..i] + [inputs[i]];
      prevAssets := prevAssets[PrevIdOf(inputs[i]) := inputs[i].asset];
      witnesses := witnesses + [InputWitness(inputs[i])];
      i := i + 1;
    }
    assert inputs[..i] == inputs;
  }

  /** A split with its proof and the root asset attached. */
  function Proven(split: SplitAsset, proof: Proof, rootAsset: Asset): SplitAsset
    requires |split.asset.prevWitnesses| == 1
  {
    split.(asset := split.asset.(prevWitnesses :=
      [split.asset.prevWitnesses[0].(split := Some(SplitCommitment(proof, rootAsset)))]))
  }

  lemma ClearUndoesProven(input: Asset, l: Locator, proof: Proof, rootAsset: Asset)
    ensures ClearSplit(Proven(Unproven(input, l), proof, rootAsset).asset) == SplitOf(input, l)
  {
  }

  ghost function ProvenSplits(input: Asset, ls: seq<Locator>, tree: Tree, rootAsset: Asset): SplitSet
    requires ValidTree(tree)
  {
    map l | l in ls :: Proven(Unproven(input, l), MerkleProof(tree, LocatorHash(l)), rootAsset)
  }

  lemma ProvenAgain(input: Asset, l: Locator, proof: Proof, rootAsset: Asset)
    ensures var s := Proven(Unproven(input, l), proof, rootAsset);
            |s.asset.prevWitnesses| == 1 && Proven(s, proof, rootAsset) == s
  {
  }

  /** Attaches to every split its proof and the root asset. */
  method AttachProofs(input: Asset, unproven: SplitSet, ls: seq<Locator>, tree: Tree, rootAsset: Asset)
    returns (splits: SplitSet)
    requires ValidTree(tree) && unproven == map l | l in ls :: Unproven(input, l)
    ensures splits == ProvenSplits(input, ls, tree, rootAsset)
  {
    hide Unproven, LocatorHash, MerkleProof, Proven, ValidTree;
    splits := unproven;
    var i := 0;
    while i < |ls|
      invariant 0 <= i <= |ls| && splits.Keys == unproven.Keys
      invariant forall l :: l in splits ==>
        splits[l] == if l in ls[..i] then Proven(unproven[l], MerkleProof(tree, LocatorHash(l)), rootAsset)
                     else unproven[l]
    {
      var l := ls[i];
      var proof := MerkleProof(tree, LocatorHash(l));
      ProvenAgain(input, l, proof, rootAsset);
      assert ls[..i + 1] == ls[..i] + [l];
      splits := splits[l := Proven(splits[l], proof, rootAsset)];
      i := i + 1;
    }
    assert ls[..i] == ls;
  }

  /** The asset at the root locator, which spends the inputs and carries the root of the tree. */
  ghost function RootAssetOf(inputs: seq<Input>, root: Locator, tree: Tree): Asset
    requires inputs != [] && ValidTree(tree)
  {
    SplitOf(inputs[0].asset, root).(
      prevWitnesses := seq(|inputs|, i requires 0 <= i < |inputs| => InputWitness(inputs[i])),
      splitRoot := Some(RootOf(tree).AsNode()))
  }

  ghost predicate IndexesInputs(prevAssets: map<PrevId, Asset>, inputs: seq<Input>) {
    && prevAssets.Keys == (set x | x in inputs :: PrevIdOf(x))
    && forall p :: p in prevAssets ==> exists x :: x in inputs && PrevIdOf(x) == p && prevAssets[p] == x.asset
  }

  /** The split commitment that meets a request. */
  ghost predicate IsSplitOf(s: Split, inputs: seq<Input>, root: Locator, external: seq<Locator>)
    requires inputs != []
  {
    var ls, input := external + [root], inputs[0].asset;
    && Placeable(input, ls) && Holds(s.tree, SplitLeaves(input, ls))
    && s.rootAsset == RootAssetOf(inputs, root, s.tree)
    && s.splitAssets == ProvenSplits(input, ls, s.tree, s.rootAsset)
    && IndexesInputs(s.prevAssets, inputs)
  }

  /** What an input becomes at a locator: its keys, amount and version are the locator's, no lock is inherited. */
  ghost predicate BecomesAt(a: Asset, input: Asset, l: Locator) {
    && a.scriptKey == [2] + l.scriptKey[1..] && a.amount == l.amount && a.version == l.assetVersion
    && a.lockTime == 0 && a.relativeLockTime == 0
    && a.genesis == input.genesis && a.groupKey == input.groupKey && a.scriptVersion == input.scriptVersion
    && a.unknownOddTypes == input.unknownOddTypes
  }

  /** A split: besides, no split root, and one witness with the zero previous ID, nothing signed, and the root asset. */
  ghost predicate IsSplitAt(split: SplitAsset, input: Asset, l: Locator, rootAsset: Asset) {
    && split.outputIndex == l.outputIndex && BecomesAt(split.asset, input, l) && split.asset.splitRoot == None
    && |split.asset.prevWitnesses| == 1
    && split.asset.prevWitnesses[0].prevId == Some(PrevId(OutPoint(Zeros(32), 0), Zeros(32), Zeros(33)))
    && split.asset.prevWitnesses[0].txWitness == [] && split.asset.prevWitnesses[0].split.Some?
    && split.asset.prevWitnesses[0].split.value.rootAsset == rootAsset
  }

  /** The root asset: besides, it spends every input, in order, with nothing signed yet. */
  ghost predicate IsRootAt(a: Asset, inputs: seq<Input>, root: Locator)
    requires inputs != []
  {
    && BecomesAt(a, inputs[0].asset, root) && a.splitRoot.Some? && |a.prevWitnesses| == |inputs|
    && forall i :: 0 <= i < |inputs| ==>
         a.prevWitnesses[i] == Witness(
           Some(PrevId(inputs[i].outPoint, AssetId(inputs[i].asset.genesis), inputs[i].asset.scriptKey)), [], None)
  }

  lemma SplitsFollowLocators(s: Split, inputs: seq<Input>, root: Locator, external: seq<Locator>)
    requires inputs != [] && IsSplitOf(s, inputs, root, external)
    ensures s.splitAssets.Keys == set l | l in external + [root]
    ensures forall l :: l in external + [root] ==> IsSplitAt(s.splitAssets[l], inputs[0].asset, l, s.rootAsset)
    ensures IsRootAt(s.rootAsset, inputs, root)
  {
    hide SplitLeaves, LocatorHash, ValidTree, RootOf, MerkleProof, Holds;
    assert ValidTree(s.tree) by { HoldsRoot(s.tree, SplitLeaves(inputs[0].asset, external + [root])); }
  }

  lemma ExternalsNonZero(root: Locator, external: seq<Locator>)
    ensures AllButLastNonZero(external + [root]) ==> forall l :: l in external ==> l.amount != 0
  {
    var ls := external + [root];
    if AllButLastNonZero(ls) {
      forall l | l in external ensures l.amount != 0 {
        var i :| 0 <= i < |external| && external[i] == l;
        assert ls[i] == l;
      }
    }
  }

  /** Which request is refused outright, and with which error; assets of type 1 are collectibles. */
  ghost predicate RefusedWith(e: Error, input: Asset, root: Locator, external: seq<Locator>) {
    var collectible := input.genesis.assetType == 1;
    match e
    case InvalidSplitLocator => external == []
    case NonZeroSplitAmount => external != [] && root.amount != 0 && (collectible || root.scriptKey == NUMS_KEY)
    case InvalidSplitLocatorCount => external != [] && collectible && root.amount == 0 && |external| != 1
    case InvalidScriptKey =>
      external != [] && root.amount == 0 && root.scriptKey != NUMS_KEY && (collectible ==> |external| == 1)
    case _ => false
  }

  /** Splits the inputs over the locators, or refuses. The amounts add up unless the input sum wrapped around. */
  method NewSplitCommitment(inputs: seq<Input>, root: Locator, external: seq<Locator>) returns (r: Result<Split, Error>)
    requires inputs != []
    ensures r.Ok? <==> Allowed(inputs, root, external)
    ensures r.Ok? ==> IsSplitOf(r.value, inputs, root, external)
    ensures r.Ok? ==> r.value.splitAssets.Keys == set l | l in external + [root]
    ensures r.Ok? ==>
              forall l :: l in external + [root] ==>
                IsSplitAt(r.value.splitAssets[l], inputs[0].asset, l, r.value.rootAsset)
    ensures r.Ok? ==> IsRootAt(r.value.rootAsset, inputs, root)
    ensures r.Ok? ==> AmountSum(external + [root]) % U64_LIMIT == InputSum(inputs) % U64_LIMIT
    ensures r.Ok? ==> (AmountSum(external + [root]) == InputSum(inputs) <==> InputSum(inputs) < U64_LIMIT)
    ensures r.Ok? ==> forall l :: l in external ==> l.amount != 0
    ensures r.Ok? ==> (root.amount == 0 <==> root.scriptKey == NUMS_KEY)
    ensures forall e :: RefusedWith(e, inputs[0].asset, root, external) ==> r == Err(e)
    ensures r.Err? ==> RefusedWith(r.error, inputs[0].asset, root, external)
                       || ErrorApplies(r.error, inputs[0].asset, external + [root], InputSum(inputs) % U64_LIMIT)
  {
    hide ErrorApplies, AmountSum, InputSum, Placeable, AllButLastNonZero, IsSplitOf, Holds, SplitLeaves, Unproven,
         IsSplitAt, IsRootAt;
    var total := TotalInput(inputs);
    var input := inputs[0].asset;
    var refusal := Refusal(input, root, external);
    if refusal.Some? { return Err(refusal.value); }
    var ls := external + [root];
    var err, unproven, tree := PlaceSplits(input, ls, total);
    if err.Some? { return Err(err.value); }
    var s := Complete(inputs, root, external, unproven, tree);
    ExternalsNonZero(root, external);
    SplitsFollowLocators(s, inputs, root, external);
    return Ok(s);
  }

  /** Makes the root asset, which carries the root of the tree, and attaches it and the proofs to the splits. */
  method Complete(inputs: seq<Input>, root: Locator, external: seq<Locator>, unproven: SplitSet, tree: Tree)
    returns (s: Split)
    requires inputs != [] && Placeable(inputs[0].asset, external + [root])
    requires Holds(tree, SplitLeaves(inputs[0].asset, external + [root]))
    requires unproven == map l | l in external + [root] :: Unproven(inputs[0].asset, l)
    ensures IsSplitOf(s, inputs, root, external)
  {
    hide SplitLeaves, Placeable, SplitOf, InputWitness, PrevIdOf, RootOf, ProvenSplits;
    var ls, input := external + [root], inputs[0].asset;
    assert root in ls;
    var prevAssets, witnesses := IndexInputs(inputs);
    var rootAsset := unproven[root].asset.(prevWitnesses := witnesses, splitRoot := Some(RootOf(tree).AsNode()));
    var splits := AttachProofs(input, unproven, ls, tree, rootAsset);
    return Split(prevAssets, rootAsset, splits, tree);
  }

  // ----- What a split promises -----

  /** The sum the root asset commits to is what was shared out exactly when no locator replaced another. */
  lemma SplitRootSum(s: Split, inputs: seq<Input>, root: Locator, external: seq<Locator>)
    requires inputs != [] && Allowed(inputs, root, external) && IsSplitOf(s, inputs, root, external)
    ensures s.rootAsset.splitRoot.Some?
    ensures s.rootAsset.splitRoot.value.sum == InputSum(inputs) % U64_LIMIT <==> DistinctHashes(external + [root])
  {
    hide AmountSum, InputSum, Placeable, SplitLeaves, SplitOf, ProvenSplits, ValidTree, Total, Contents, RootOf,
         FullRoot;
    TreeTotal(inputs[0].asset, external + [root]);
    HoldsRoot(s.tree, SplitLeaves(inputs[0].asset, external + [root]));
  }

  /** Three units of an asset, and two locators for one of them each whose keys differ in parity only. */
  const EXAMPLE_INPUT: Input :=
    Input(Asset(0, EMPTY_GENESIS, 3, 0, 0, [], None, 0, BLANK_KEY, None, map[]), OutPoint(Zeros(32), 0))

  function ExampleLocator(key: PubKey): Locator {
    Locator(1, Zeros(32), key, 1, 0)
  }

  function ExampleExternal(x: Digest): seq<Locator> {
    [ExampleLocator([2] + x), ExampleLocator([3] + x)]
  }

  lemma ExampleHasLeaf(key: PubKey)
    ensures Leaf(SplitOf(EXAMPLE_INPUT.asset, ExampleLocator(key))).Some?
  {
    hide Tlv.EncodeFields, AssetFields;
    var a := SplitOf(EXAMPLE_INPUT.asset, ExampleLocator(key));
    assert a.scriptKey[0] != NIL_KEY[0];
    assert EncodeWitness(a.prevWitnesses[0], false).Some?;
    assert a.prevWitnesses[1..] == [];
    assert EncodeWitnessList(a.prevWitnesses[1..], false).Some?;
    assert EncodeWitnessList(a.prevWitnesses, false).Some?;
    assert EncodeTypes(a, false, KNOWN_LEAF_TYPES).Some?;
  }

  lemma ThreeAmounts(a: Locator, b: Locator, c: Locator)
    ensures AmountSum([a, b, c]) == a.amount + b.amount + c.amount
  {
    assert [a, b, c][..2] == [a, b] && [a, b][..1] == [a] && [a][..0] == [];
    assert AmountSum([a]) == a.amount;
    assert AmountSum([a, b]) == a.amount + b.amount;
  }

  lemma OneInput(i: Input)
    ensures InputSum([i]) == i.asset.amount
  {
    assert [i][..0] == [];
  }

  /** This request is met, and the sum its root asset commits to is not the three units it shares out. */
  lemma LocatorsCanReplaceEachOther(x: Digest, key: PubKey)
    requires ParsesAsKey([2] + x) && ParsesAsKey([3] + x) && ParsesAsKey(key) && key != NUMS_KEY
    ensures var inputs, root, external := [EXAMPLE_INPUT], ExampleLocator(key), ExampleExternal(x);
            && Allowed(inputs, root, external) && InputSum(inputs) == 3
            && external[0] != external[1] && !DistinctHashes(external + [root])
            && forall s :: IsSplitOf(s, inputs, root, external) ==>
                 s.rootAsset.splitRoot.Some? && s.rootAsset.splitRoot.value.sum != 3
  {
    hide Leaf, SplitOf, IsSplitOf, AmountSum, InputSum;
    var inputs, root, external := [EXAMPLE_INPUT], ExampleLocator(key), ExampleExternal(x);
    var ls := external + [root];
    assert ([2] + x)[0] != ([3] + x)[0];
    assert XOnly([2] + x) == x && XOnly([3] + x) == x;
    assert ls == [external[0], external[1], root];
    assert LocatorHash(ls[0]) == LocatorHash(ls[1]);
    forall l | l in ls ensures ParsesAsKey(l.scriptKey) && Leaf(SplitOf(inputs[0].asset, l)).Some? {
      ExampleHasLeaf(l.scriptKey);
    }
    ThreeAmounts(external[0], external[1], root);
    OneInput(EXAMPLE_INPUT);
    assert Placeable(inputs[0].asset, ls);
    assert AllButLastNonZero(ls);
    forall s | IsSplitOf(s, inputs, root, external)
      ensures s.rootAsset.splitRoot.Some? && s.rootAsset.splitRoot.value.sum != 3
    {
      SplitRootSum(s, inputs, root, external);
    }
  }

  lemma HoldsRoot(tree: Tree, leaves: Leaves)
    requires Holds(tree, leaves)
    ensures ValidTree(tree) && Total(leaves) < U64_LIMIT
    ensures RootOf(tree) == FullRoot(leaves) && RootOf(tree).Sum() == Total(leaves)
  {
    hide FullRoot, RootOf, Total, Contents;
    RootOfIsFullRoot(tree);
  }

  /** Whether a split, its split commitment cleared, recomputes the root it carries from the proof it carries. */
  ghost predicate ProvesItself(s: Split, l: Locator)
    requires l in s.splitAssets
  {
    var a := s.splitAssets[l].asset;
    && |a.prevWitnesses| == 1 && a.prevWitnesses[0].split.Some? && Leaf(ClearSplit(a)).Some?
    && var carried := a.prevWitnesses[0].split.value;
       var recomputed := ProofRoot(LocatorHash(l), Leaf(ClearSplit(a)).value, carried.proof);
       recomputed.Some? && carried.rootAsset.splitRoot == Some(recomputed.value.AsNode())
  }

  /** What is attached to a split, and what is left when it is cleared. */
  lemma AttachedParts(s: Split, inputs: seq<Input>, root: Locator, external: seq<Locator>, l: Locator)
    requires inputs != [] && IsSplitOf(s, inputs, root, external) && l in external + [root]
    ensures l in s.splitAssets && s.splitAssets[l].outputIndex == l.outputIndex
    ensures var a := s.splitAssets[l].asset;
            && |a.prevWitnesses| == 1 && a.prevWitnesses[0].split.Some? && a.amount == l.amount
            && ClearSplit(a) == SplitOf(inputs[0].asset, l) && Leaf(ClearSplit(a)).Some?
            && ValidTree(s.tree)
            && a.prevWitnesses[0].split.value == SplitCommitment(MerkleProof(s.tree, LocatorHash(l)), s.rootAsset)
            && s.rootAsset.splitRoot == Some(RootOf(s.tree).AsNode())
  {
    hide SplitLeaves, Leaf, LocatorHash, ValidTree, RootOf, MerkleProof;
    var ls := external + [root];
    var i :| 0 <= i < |ls| && ls[i] == l;
    ClearUndoesProven(inputs[0].asset, l, MerkleProof(s.tree, LocatorHash(l)), s.rootAsset);
  }

  /** A split whose leaf stands in the tree proves itself. */
  lemma StandingSplitProves(s: Split, inputs: seq<Input>, root: Locator, external: seq<Locator>, l: Locator)
    requires inputs != [] && IsSplitOf(s, inputs, root, external) && l in external + [root]
    requires var leaves := SplitLeaves(inputs[0].asset, external + [root]);
             Leaf(SplitOf(inputs[0].asset, l)) == Some(LeafAt(leaves, LocatorHash(l)))
    ensures l in s.splitAssets && ProvesItself(s, l)
  {
    hide SplitLeaves, Leaf, LocatorHash, RootOf, FullRoot, MerkleProof, FullProof, ProofRoot, Holds, ClearSplit,
         SplitOf;
    AttachedParts(s, inputs, root, external, l);
    var leaves := SplitLeaves(inputs[0].asset, external + [root]);
    HoldsRoot(s.tree, leaves);
    FullProofComplete(leaves, LocatorHash(l));
    HoldsProof(s.tree, leaves, LocatorHash(l));
  }

  /** The strings hashed when a split of a locator, and the one that stands there, are checked. */
  ghost function HashedForSplit(inputs: seq<Input>, ls: seq<Locator>, l: Locator): set<bytes>
    requires inputs != [] && Placeable(inputs[0].asset, ls) && l in ls
  {
    var leaves, key := SplitLeaves(inputs[0].asset, ls), LocatorHash(l);
    HashedByProof(key, LeafAt(leaves, key), FullProof(leaves, key))
    + HashedByProof(key, Leaf(SplitOf(inputs[0].asset, l)).value, FullProof(leaves, key))
  }

  /** A split proves itself exactly when its own leaf stands in the tree and not that of a later locator. */
  lemma SplitProvesIff(s: Split, inputs: seq<Input>, root: Locator, external: seq<Locator>, l: Locator)
    requires inputs != [] && IsSplitOf(s, inputs, root, external) && l in external + [root]
    requires CollisionFree(HashedForSplit(inputs, external + [root], l))
    ensures l in s.splitAssets
    ensures ProvesItself(s, l)
            <==> Leaf(SplitOf(inputs[0].asset, l))
                 == Some(LeafAt(SplitLeaves(inputs[0].asset, external + [root]), LocatorHash(l)))
  {
    hide SplitLeaves, Leaf, LocatorHash, RootOf, FullRoot, MerkleProof, FullProof, ProofRoot, HashedByProof, Holds,
         ClearSplit, SplitOf;
    AttachedParts(s, inputs, root, external, l);
    var leaves, key := SplitLeaves(inputs[0].asset, external + [root]), LocatorHash(l);
    var leaf := Leaf(SplitOf(inputs[0].asset, l)).value;
    HoldsRoot(s.tree, leaves);
    HoldsProof(s.tree, leaves, key);
    FullProofComplete(leaves, key);
    if leaf == LeafAt(leaves, key) {
      StandingSplitProves(s, inputs, root, external, l);
    } else if ProvesItself(s, l) {
      RootBindsLeaf(key, LeafAt(leaves, key), FullProof(leaves, key), leaf, FullProof(leaves, key));
    }
  }

  /** With distinct hashes every split does. */
  lemma SplitsProve(s: Split, inputs: seq<Input>, root: Locator, external: seq<Locator>, l: Locator)
    requires inputs != [] && IsSplitOf(s, inputs, root, external)
    requires DistinctHashes(external + [root]) && l in external + [root]
    ensures l in s.splitAssets && s.splitAssets[l].outputIndex == l.outputIndex
    ensures s.splitAssets[l].asset.amount == l.amount
    ensures ProvesItself(s, l) && s.splitAssets[l].asset.prevWitnesses[0].split.value.rootAsset == s.rootAsset
  {
    hide SplitLeaves, Leaf, LocatorHash, RootOf, MerkleProof, ProofRoot, Holds, ClearSplit, SplitOf, ProvenSplits;
    var ls := external + [root];
    var i :| 0 <= i < |ls| && ls[i] == l;
    AttachedParts(s, inputs, root, external, l);
    OwnLeaf(inputs[0].asset, ls, i);
    StandingSplitProves(s, inputs, root, external, l);
  }

  lemma HoldsProof(tree: Tree, leaves: Leaves, key: Digest)
    requires Holds(tree, leaves)
    ensures ValidTree(tree) && MerkleProof(tree, key) == FullProof(leaves, key)
  {
    hide FullProof, MerkleProof, Contents, Total;
    MerkleProofIsFull(tree, key);
  }

  /** No other asset can be passed off as the split of a locator, short of a hash collision. */
  lemma SplitRootBinds(s: Split, inputs: seq<Input>, root: Locator, external: seq<Locator>, l: Locator,
                       forged: LeafNode, proof: Proof)
    requires inputs != [] && IsSplitOf(s, inputs, root, external)
    requires DistinctHashes(external + [root]) && l in external + [root]
    requires ProofRoot(LocatorHash(l), forged, proof).Some?
    requires s.rootAsset.splitRoot == Some(ProofRoot(LocatorHash(l), forged, proof).value.AsNode())
    requires var leaves, key := SplitLeaves(inputs[0].asset, external + [root]), LocatorHash(l);
             CollisionFree(HashedByProof(key, LeafAt(leaves, key), FullProof(leaves, key))
                           + HashedByProof(key, forged, proof))
    ensures Leaf(SplitOf(inputs[0].asset, l)) == Some(forged)
  {
    hide SplitLeaves, Leaf, LocatorHash, ValidTree, Total, Contents, RootOf, FullRoot, MerkleProof, FullProof,
         ProofRoot, HashedByProof, Holds;
    var ls, input := external + [root], inputs[0].asset;
    var i :| 0 <= i < |ls| && ls[i] == l;
    var leaves := SplitLeaves(input, ls);
    HoldsRoot(s.tree, leaves);
    OwnLeaf(input, ls, i);
    FullProofComplete(leaves, LocatorHash(l));
    RootBindsLeaf(LocatorHash(l), LeafAt(leaves, LocatorHash(l)), FullProof(leaves, LocatorHash(l)), forged, proof);
  }

  // ----- What a split spends -----

  /** A single input with the zero previous ID, which no real input has. */
  ghost predicate SpendsOnlyZero(inputs: seq<Input>) {
    && |inputs| == 1 && inputs[0].outPoint == OutPoint(Zeros(32), 0)
    && AssetId(inputs[0].asset.genesis) == Zeros(32) && inputs[0].asset.scriptKey == Zeros(33)
  }

  /** The outputs of a split mark no input as spent; its root asset marks every one, unless the zero input is all. */
  lemma SplitMarksInputs(s: Split, inputs: seq<Input>, root: Locator, external: seq<Locator>, l: Locator)
    requires inputs != [] && IsSplitOf(s, inputs, root, external) && l in external + [root]
    ensures l in s.splitAssets && AltLeaves.SpentMarkers(s.splitAssets[l].asset) == Ok([])
    ensures !SpendsOnlyZero(inputs) <==>
            var r := AltLeaves.SpentMarkers(s.rootAsset);
            && r.Ok? && |r.value| == |inputs|
            && forall i :: 0 <= i < |inputs| ==>
                 AltLeaves.Marks(
                   r.value[i],
                   PrevId(inputs[i].outPoint, AssetId(inputs[i].asset.genesis), inputs[i].asset.scriptKey))
  {
    hide AssetId, IsSplitOf, AltLeaves.SpentAsset, AltLeaves.Marks, BecomesAt;
    SplitsFollowLocators(s, inputs, root, external);
    AltLeaves.SpendsNothingIff(s.splitAssets[l].asset);
    AltLeaves.SpendsNothingIff(s.rootAsset);
    forall i | 0 <= i < |inputs|
      ensures var p := PrevId(inputs[i].outPoint, AssetId(inputs[i].asset.genesis), inputs[i].asset.scriptKey);
              s.rootAsset.prevWitnesses[i].prevId == Some(p) && AltLeaves.Marks(AltLeaves.SpentAsset(p), p)
    {
      AltLeaves.SpentAssetMarks(s.rootAsset.prevWitnesses[i].prevId.value);
    }
  }
}
