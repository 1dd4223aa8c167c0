/**
 * The two-level commitment as values: an inner commitment is a map of assets, an outer one a map
 * of inner ones. Trees, roots and leaves are functions of these.
 */
module Commitment {
  import opened Bytes
  import opened Hashing
  import opened SumTree
  import opened TreeProof
  import opened Assets

  datatype Error =
    | NoAssets
    | AssetTypeMismatch
    | AssetGroupKeyMismatch
    | AssetGenesisMismatch
    | AssetDuplicateScriptKey
    | BadLeaf              // unknown asset version or unencodable asset
    | SumOverflow
    | MissingAssetCommitment
    | InvalidTapCommitmentVersion
    | VersionMismatch
    | InvalidAltLeaf
    | DuplicateAltLeafKey
    | MissingAssetProof
    | UnexpectedAssetProof

  type AssetMap = map<Digest, Asset>

  // ----- Maximum versions -----

  ghost predicate IsMax(s: set<nat>, m: nat) {
    (forall x :: x in s ==> x <= m) && (m == 0 || m in s)
  }

  lemma {:induction false} MaxExists(s: set<nat>)
    ensures exists m :: IsMax(s, m)
  {
    if s == {} {
      assert IsMax(s, 0);
    } else {
      var x :| x in s;
      MaxExists(s - {x});
      var m :| IsMax(s - {x}, m);
      assert forall y :: y in s ==> y == x || y in s - {x};
      assert IsMax(s, if x > m then x else m);
    }
  }

  /** The largest member, and 0 of the empty set. */
  ghost function MaxOf(s: set<nat>): (m: nat)
    ensures IsMax(s, m)
  {
    MaxExists(s);
    var m :| IsMax(s, m);
    m
  }

  ghost function AssetVersions(assets: AssetMap): set<nat> {
    set k | k in assets :: assets[k].version
  }

  // ----- Inner commitments -----

  datatype Inner = Inner(version: byte, tapKey: Digest, assetType: byte, assets: AssetMap)

  ghost predicate HaveLeaves(assets: AssetMap) {
    forall k :: k in assets ==> Leaf(assets[k]).Some?
  }

  ghost function LeavesOf(assets: AssetMap): Leaves
    requires HaveLeaves(assets)
  {
    map k | k in assets :: Leaf(assets[k]).value
  }

  /** The asset may be committed to under this key and type. */
  ghost predicate Belongs(a: Asset, tapKey: Digest, assetType: byte) {
    TapCommitmentKey(a) == tapKey && a.genesis.assetType == assetType && Leaf(a).Some?
  }

  ghost predicate WellKeyed(s: Inner) {
    forall k :: k in s.assets ==>
      AssetCommitmentKey(s.assets[k]) == k && Belongs(s.assets[k], s.tapKey, s.assetType)
  }

  /** No asset of a later version has a leaf, so no inner commitment is of one. */
  ghost predicate ValidInner(s: Inner) {
    && WellKeyed(s)
    && HaveLeaves(s.assets)
    && Total(LeavesOf(s.assets)) < U64_LIMIT
    && s.version <= V1
    && (forall k :: k in s.assets ==> s.assets[k].version <= s.version)
  }

  /** The version is the maximum, not merely a bound. */
  ghost predicate Tight(s: Inner) {
    s.version == MaxOf(AssetVersions(s.assets))
  }

  ghost function InnerRoot(s: Inner): Root
    requires HaveLeaves(s.assets)
  {
    FullRoot(LeavesOf(s.assets))
  }

  /** The identifier of an inner commitment within the outer tree. */
  function CommitmentRoot(tapKey: Digest, root: Root): Digest {
    Sha256(CommitmentRootPreimage(tapKey, root))
  }

  function CommitmentRootPreimage(tapKey: Digest, root: Root): bytes {
    tapKey + root.left.hash + root.right.hash + BigEndian(root.Sum(), 8)
  }

  function CommitmentLeaf(version: byte, tapKey: Digest, root: Root): (leaf: LeafNode)
    requires root.Sum() < U64_LIMIT
    ensures leaf.sum == root.Sum() && leaf != EMPTY_LEAF
  {
    LeafNode([version] + CommitmentRoot(tapKey, root) + BigEndian(root.Sum(), 8), root.Sum())
  }

  lemma InnerRootSum(s: Inner)
    requires ValidInner(s)
    ensures InnerRoot(s).Sum() == Total(LeavesOf(s.assets)) < U64_LIMIT
  {
    hide FullNode, Total;
    FullRootSum(LeavesOf(s.assets));
  }

  ghost function InnerLeaf(s: Inner): (leaf: LeafNode)
    requires ValidInner(s)
    ensures leaf != EMPTY_LEAF && leaf.sum == Total(LeavesOf(s.assets))
  {
    InnerRootSum(s);
    CommitmentLeaf(s.version, s.tapKey, InnerRoot(s))
  }

  const EMPTY_ROOT_HASH: Digest := EmptyNode(0).hash

  /** The test the outer commitment uses to prune: the root hash is that of an empty tree. */
  ghost predicate LooksEmpty(s: Inner)
    requires HaveLeaves(s.assets)
  {
    InnerRoot(s).AsNode().hash == EMPTY_ROOT_HASH
  }

  /** Which error, if any, refuses the asset before any tree is touched. */
  function Refusal(tapKey: Digest, assetType: byte, a: Asset): Option<Error> {
    if assetType != a.genesis.assetType then Some(AssetTypeMismatch)
    else if TapCommitmentKey(a) != tapKey then
      Some(if a.groupKey.Some? then AssetGroupKeyMismatch else AssetGenesisMismatch)
    else None
  }

  /** The errors an update of an inner or outer commitment can end in, whatever its version. */
  ghost predicate UpdateError(err: Option<Error>) {
    err.Some? ==>
      err.value in {AssetTypeMismatch, AssetGroupKeyMismatch, AssetGenesisMismatch, BadLeaf, SumOverflow}
  }

  ghost function Max(x: byte, y: byte): byte {
    if x > y then x else y
  }

  /** Insert or replace one asset. The version only ever rises here. */
  ghost function InnerUpsert(s: Inner, a: Asset): Result<Inner, Error>
    requires HaveLeaves(s.assets)
  {
    match Refusal(s.tapKey, s.assetType, a)
    case Some(e) => Err(e)
    case None =>
      if Leaf(a).None? then Err(BadLeaf) else
      var key := AssetCommitmentKey(a);
      if Total(Updated(LeavesOf(s.assets), key, Leaf(a).value)) >= U64_LIMIT then Err(SumOverflow)
      else Ok(s.(assets := s.assets[key := a], version := Max(s.version, a.version)))
  }

  /** Remove one asset; the version becomes the maximum of what is left. */
  ghost function InnerDelete(s: Inner, a: Asset): Result<Inner, Error> {
    if TapCommitmentKey(a) != s.tapKey then
      Err(if a.groupKey.Some? then AssetGroupKeyMismatch else AssetGenesisMismatch)
    else if s.assetType != a.genesis.assetType then Err(AssetTypeMismatch)
    else if s.assets == map[] then Ok(s)
    else
      var rest := s.assets - {AssetCommitmentKey(a)};
      VersionsAreBytes(rest);
      Ok(s.(assets := rest, version := MaxOf(AssetVersions(rest))))
  }

  lemma LeafMeansKnownVersion(a: Asset)
    requires Leaf(a).Some?
    ensures a.version <= V1
  {
  }

  /** Nor do assets with leaves add up to one. */
  lemma LeavesMeanKnownVersions(assets: AssetMap)
    requires HaveLeaves(assets)
    ensures MaxOf(AssetVersions(assets)) <= V1 as nat
  {
    hide Leaf;
    assert IsMax(AssetVersions(assets), MaxOf(AssetVersions(assets)));
    forall k | k in assets ensures assets[k].version <= V1 { LeafMeansKnownVersion(assets[k]); }
  }

  lemma VersionsAreBytes(assets: AssetMap)
    ensures MaxOf(AssetVersions(assets)) < 256
  {
  }

  /** Everything the other commitment holds, on top of what this one holds. */
  ghost function Merged(s: Inner, other: Inner): Inner {
    VersionsAreBytes(other.assets);
    s.(assets := s.assets + other.assets, version := Max(s.version, MaxOf(AssetVersions(other.assets))))
  }

  lemma UpdatedLeaves(assets: AssetMap, key: Digest, a: Asset)
    requires HaveLeaves(assets) && Leaf(a).Some?
    ensures HaveLeaves(assets[key := a])
    ensures LeavesOf(assets[key := a]) == Updated(LeavesOf(assets), key, Leaf(a).value)
  {
    hide Leaf;
    LeafNotEmpty(a);
  }

  lemma RemovedLeaves(assets: AssetMap, key: Digest)
    requires HaveLeaves(assets)
    ensures HaveLeaves(assets - {key})
    ensures LeavesOf(assets - {key}) == Updated(LeavesOf(assets), key, EMPTY_LEAF)
    ensures Total(LeavesOf(assets - {key})) <= Total(LeavesOf(assets))
  {
    hide Leaf, Total;
    assert LeavesOf(assets - {key}) == Updated(LeavesOf(assets), key, EMPTY_LEAF);
    TotalUpdate(LeavesOf(assets), key, EMPTY_LEAF);
  }

  lemma UpsertKeepsValid(s: Inner, a: Asset)
    requires ValidInner(s) && InnerUpsert(s, a).Ok?
    ensures ValidInner(InnerUpsert(s, a).value)
  {
    hide Leaf, Total, TapCommitmentKey, AssetCommitmentKey;
    UpdatedLeaves(s.assets, AssetCommitmentKey(a), a);
    LeafMeansKnownVersion(a);
  }

  lemma DeleteKeepsValid(s: Inner, a: Asset)
    requires ValidInner(s) && InnerDelete(s, a).Ok?
    ensures ValidInner(InnerDelete(s, a).value)
  {
    hide Leaf, Total, TapCommitmentKey, AssetCommitmentKey;
    var s' := InnerDelete(s, a).value;
    if s.assets != map[] {
      RemovedLeaves(s.assets, AssetCommitmentKey(a));
      LeavesMeanKnownVersions(s'.assets);
      forall k | k in s'.assets ensures s'.assets[k].version <= s'.version {
        assert s'.assets[k].version in AssetVersions(s'.assets);
      }
    }
  }

  // ----- Lists of assets -----

  /** The assets of a list by their commitment key; later ones win. */
  ghost function ByKey(assets: seq<Asset>): AssetMap {
    if assets == [] then map[]
    else
      var last := |assets| - 1;
      ByKey(assets[..last])[AssetCommitmentKey(assets[last]) := assets[last]]
  }

  /** Where an entry of the map comes from. */
  lemma {:induction false} ByKeySource(assets: seq<Asset>, k: Digest) returns (i: nat)
    requires k in ByKey(assets)
    ensures i < |assets| && ByKey(assets)[k] == assets[i] && AssetCommitmentKey(assets[i]) == k
  {
    hide AssetCommitmentKey;
    var last := |assets| - 1;
    if k == AssetCommitmentKey(assets[last]) { i := last; } else { i := ByKeySource(assets[..last], k); }
  }

  lemma {:induction false} ByKeyHas(assets: seq<Asset>, i: nat)
    requires i < |assets|
    ensures AssetCommitmentKey(assets[i]) in ByKey(assets)
  {
    hide AssetCommitmentKey;
    if i < |assets| - 1 { ByKeyHas(assets[..|assets| - 1], i); }
  }

  ghost predicate DistinctKeys(assets: seq<Asset>) {
    forall i, j :: 0 <= i < j < |assets| ==> AssetCommitmentKey(assets[i]) != AssetCommitmentKey(assets[j])
  }

  ghost predicate AllLeaves(assets: seq<Asset>) {
    forall i :: 0 <= i < |assets| ==> Leaf(assets[i]).Some?
  }

  lemma ByKeyHasLeaves(assets: seq<Asset>)
    requires AllLeaves(assets)
    ensures HaveLeaves(ByKey(assets))
  {
    hide Leaf;
    forall k | k in ByKey(assets) ensures Leaf(ByKey(assets)[k]).Some? {
      var i := ByKeySource(assets, k);
    }
  }

  lemma ByKeyOfNone(assets: seq<Asset>)
    ensures ByKey(assets[..0]) == map[]
  {
  }

  lemma ByKeyStep(assets: seq<Asset>, i: nat)
    requires i < |assets|
    ensures ByKey(assets[..i + 1]) == ByKey(assets[..i])[AssetCommitmentKey(assets[i]) := assets[i]]
  {
    hide AssetCommitmentKey;
    assert assets[..i + 1][..i] == assets[..i];
  }

  lemma {:induction false} ByKeyAt(assets: seq<Asset>, j: nat)
    requires DistinctKeys(assets) && j < |assets|
    ensures AssetCommitmentKey(assets[j]) in ByKey(assets)
    ensures ByKey(assets)[AssetCommitmentKey(assets[j])] == assets[j]
  {
    hide AssetCommitmentKey;
    ByKeyHas(assets, j);
    var last := |assets| - 1;
    if j < last {
      assert DistinctKeys(assets[..last]);
      ByKeyAt(assets[..last], j);
      assert AssetCommitmentKey(assets[j]) != AssetCommitmentKey(assets[last]);
    }
  }

  // ----- Outer commitments -----

  const V0: byte := 0
  const V1: byte := 1
  const V2: byte := 2

  datatype Outer = Outer(version: byte, inners: map<Digest, Inner>)

  ghost predicate ValidInners(inners: map<Digest, Inner>) {
    forall k :: k in inners ==> ValidInner(inners[k]) && inners[k].tapKey == k
  }

  ghost function OuterLeaves(inners: map<Digest, Inner>): Leaves
    requires ValidInners(inners)
  {
    map k | k in inners :: InnerLeaf(inners[k])
  }

  ghost predicate ValidOuter(s: Outer) {
    ValidInners(s.inners) && Total(OuterLeaves(s.inners)) < U64_LIMIT
  }

  ghost function OuterRoot(s: Outer): Root
    requires ValidInners(s.inners)
  {
    FullRoot(OuterLeaves(s.inners))
  }

  ghost function InnerVersions(inners: map<Digest, Inner>): set<nat> {
    set k | k in inners :: inners[k].version
  }

  lemma InnerVersionsAreBytes(inners: map<Digest, Inner>)
    ensures MaxOf(InnerVersions(inners)) < 256
  {
  }

  /** Only version 2 is sticky, and no contents call for it. */
  lemma ContentsAreOlder(inners: map<Digest, Inner>)
    requires ValidInners(inners)
    ensures MaxOf(InnerVersions(inners)) <= V1 as nat
  {
    hide WellKeyed, HaveLeaves, Total;
    assert IsMax(InnerVersions(inners), MaxOf(InnerVersions(inners)));
  }

  /** Version 2 is sticky, any other version is recomputed from the contents. */
  ghost function UpdatedVersion(version: byte, inners: map<Digest, Inner>): byte {
    InnerVersionsAreBytes(inners);
    if version == V2 then V2 else MaxOf(InnerVersions(inners))
  }

  ghost function WithInners(s: Outer, inners: map<Digest, Inner>): Outer {
    Outer(UpdatedVersion(s.version, inners), inners)
  }

  /** What an upsert leaves under the key: nothing, if the inner tree looks empty. */
  ghost function InnersAfter(inners: map<Digest, Inner>, c: Inner): map<Digest, Inner>
    requires ValidInner(c)
  {
    if LooksEmpty(c) then inners - {c.tapKey} else inners[c.tapKey := c]
  }

  lemma InnersAfterValid(inners: map<Digest, Inner>, c: Inner)
    requires ValidInner(c) && ValidInners(inners - {c.tapKey})
    ensures ValidInners(InnersAfter(inners, c)) && ValidInners(inners[c.tapKey := c])
  {
    hide ValidInner, LooksEmpty;
    forall k | k in inners && k != c.tapKey ensures ValidInner(inners[k]) && inners[k].tapKey == k {
      assert k in inners - {c.tapKey};
    }
  }

  /** Place an inner commitment, or prune its key. Nothing is assumed of what stood there before. */
  ghost function OuterUpsert(s: Outer, c: Inner): Result<Outer, Error>
    requires ValidInner(c) && ValidInners(s.inners - {c.tapKey})
  {
    InnersAfterValid(s.inners, c);
    var inners := InnersAfter(s.inners, c);
    if Total(OuterLeaves(inners)) >= U64_LIMIT then Err(SumOverflow) else Ok(WithInners(s, inners))
  }

  /** How an upsert leaves the outer commitment, and what it reports. */
  ghost predicate UpsertOutcome(before: Outer, c: Inner, after: Outer, err: Option<Error>) {
    && ValidInner(c) && ValidInners(before.inners - {c.tapKey})
    && match OuterUpsert(before, c)
       case Ok(s) => err == None && after == s
       case Err(e) => err == Some(e) && after == before
  }

  ghost function OuterDelete(s: Outer, key: Digest): Outer {
    WithInners(s, s.inners - {key})
  }

  lemma UpdatedOuterLeaves(inners: map<Digest, Inner>, c: Inner)
    requires ValidInners(inners - {c.tapKey}) && ValidInner(c)
    ensures ValidInners(inners[c.tapKey := c])
    ensures OuterLeaves(inners[c.tapKey := c]) == OuterLeaves(inners - {c.tapKey})[c.tapKey := InnerLeaf(c)]
  {
    hide ValidInner, InnerLeaf, LooksEmpty;
    InnersAfterValid(inners, c);
  }

  lemma RemovedOuterLeaves(inners: map<Digest, Inner>, key: Digest)
    requires ValidInners(inners)
    ensures ValidInners(inners - {key})
    ensures OuterLeaves(inners - {key}) == OuterLeaves(inners) - {key}
    ensures Total(OuterLeaves(inners - {key})) <= Total(OuterLeaves(inners))
  {
    hide ValidInner, InnerLeaf, Total;
    assert OuterLeaves(inners - {key}) == Updated(OuterLeaves(inners), key, EMPTY_LEAF);
    TotalUpdate(OuterLeaves(inners), key, EMPTY_LEAF);
  }

  lemma InnersHaveLeaves(s: Inner)
    requires ValidInner(s)
    ensures HaveLeaves(s.assets) && InnerLeaf(s).sum == Total(LeavesOf(s.assets)) < U64_LIMIT
  {
  }

  /** The outer total after one inner commitment has been replaced. */
  lemma ReplacedTotal(inners: map<Digest, Inner>, c: Inner)
    requires ValidInners(inners) && ValidInner(c) && ValidInners(inners[c.tapKey := c])
    ensures Total(OuterLeaves(inners[c.tapKey := c]))
            == Total(OuterLeaves(inners)) - LeafAt(OuterLeaves(inners), c.tapKey).sum + Total(LeavesOf(c.assets))
    ensures LeafAt(OuterLeaves(inners), c.tapKey).sum
            == if c.tapKey in inners then InnerLeaf(inners[c.tapKey]).sum else 0
  {
    hide Leaf, Total, ValidInner, InnerLeaf;
    InnersHaveLeaves(c);
    assert OuterLeaves(inners[c.tapKey := c]) == Updated(OuterLeaves(inners), c.tapKey, InnerLeaf(c));
    TotalUpdate(OuterLeaves(inners), c.tapKey, InnerLeaf(c));
  }

  /** The tree contents an upsert leads to, from contents that agree everywhere else. */
  lemma UpsertedLeaves(contents: Leaves, inners: map<Digest, Inner>, c: Inner)
    requires ValidInner(c) && ValidInners(inners - {c.tapKey})
    requires contents - {c.tapKey} == OuterLeaves(inners - {c.tapKey})
    ensures ValidInners(InnersAfter(inners, c))
    ensures OuterLeaves(InnersAfter(inners, c))
            == Updated(contents, c.tapKey, if LooksEmpty(c) then EMPTY_LEAF else InnerLeaf(c))
  {
    hide ValidInner, InnerLeaf, LooksEmpty;
    InnersAfterValid(inners, c);
    UpdatedOuterLeaves(inners, c);
  }

  /** An empty commitment is always pruned. */
  lemma EmptyLooksEmpty(s: Inner)
    requires s.assets == map[]
    ensures LooksEmpty(s)
  {
    hide FullNode, EmptyNode;
    assert LeavesOf(s.assets) == map[];
    FullNodeEmpty(0);
    FullRootIsNode(map[]);
  }

  /** A commitment that holds an asset is not, unless two hashed strings collide. */
  lemma NonEmptyDoesNotLookEmpty(s: Inner, key: Digest)
    requires ValidInner(s) && key in s.assets
    requires var leaves := LeavesOf(s.assets);
             CollisionFree(HashedByProof(key, leaves[key], FullProof(leaves, key))
                           + HashedByProof(key, EMPTY_LEAF, FullProof(map[], key)))
    ensures !LooksEmpty(s)
  {
    hide FullNode, EmptyNode, FullProof, HashedByProof, ProofRoot, Total, Leaf;
    var leaves := LeavesOf(s.assets);
    LeafNotEmpty(s.assets[key]);
    FullProofComplete(leaves, key);
    assert Total(map[]) == 0 by { TotalOfNothing(); }
    FullProofComplete(map[], key);
    assert LeafAt(map[], key) == EMPTY_LEAF && LeafAt(leaves, key) == leaves[key] != EMPTY_LEAF;
    if LooksEmpty(s) {
      FullNodeEmpty(0);
      FullRootIsNode(map[]);
      RootBindsLeaf(key, leaves[key], FullProof(leaves, key), EMPTY_LEAF, FullProof(map[], key));
    }
  }

  lemma TotalOfNothing()
    ensures Total(map[]) == 0
  {
  }
}
