/** Commitment proofs: the three derivations, their soundness and their completeness. */
module CommitmentProof {
  import opened Bytes
  import opened Hashing
  import opened SumTree
  import opened TreeProof
  import opened Tapscript
  import opened Assets
  import opened Commitment
  import opened AssetCodec

  datatype AssetProof = AssetProof(proof: TreeProof.Proof, version: byte, tapKey: Digest)

  datatype Proof = Proof(assetProof: Option<AssetProof>, tapProof: TreeProof.Proof, tapVersion: byte)

  /** A commitment known by its version and root only. */
  datatype TapRoot = TapRoot(version: byte, root: Root)

  // ----- Tapscript -----

  // SHA-256 of "taproot-assets" and of "taproot-assets:194243"
  const MARKER_TAG: bytes := [0x74, 0x61, 0x70, 0x72, 0x6f, 0x6f, 0x74, 0x2d, 0x61, 0x73, 0x73, 0x65, 0x74, 0x73]
  const MARKER_TAG_V2: bytes := MARKER_TAG + [0x3a, 0x31, 0x39, 0x34, 0x32, 0x34, 0x33]

  function TapLeafScript(c: TapRoot): (r: bytes)
    ensures |r| == if c.version <= V2 then 73 else 0
  {
    var rootHash, rootSum := c.root.AsNode().hash, BigEndian(c.root.Sum(), 8);
    if c.version == V0 || c.version == V1 then [c.version] + Sha256(MARKER_TAG) + rootHash + rootSum
    else if c.version == V2 then Sha256(MARKER_TAG_V2) + [c.version] + rootHash + rootSum
    else []
  }

  function TapscriptRoot(c: TapRoot, sibling: Option<Digest>): Digest {
    var leaf := TapLeafHash(TapLeafScript(c));
    match sibling
    case None => leaf
    case Some(s) => TapBranchHash(leaf, s)
  }

  /** How a script is recognised as that of a commitment. */
  predicate IsCommitmentScript(script: bytes) {
    if |script| != 73 then false
    else if script[0] == V0 || script[0] == V1 then script[1..33] == Sha256(MARKER_TAG)
    else script[..32] == Sha256(MARKER_TAG_V2)
  }

  /** The marker of version 2 does not begin like an older version. */
  ghost predicate MarkersApart() {
    Sha256(MARKER_TAG_V2)[0] > V1
  }

  /** The script of a commitment is recognised exactly when its version is known. */
  lemma ScriptRecognised(c: TapRoot)
    requires MarkersApart()
    ensures IsCommitmentScript(TapLeafScript(c)) <==> c.version <= V2
  {
    hide BigEndian, Branch;
    var script := TapLeafScript(c);
    if c.version <= V1 {
      assert script[1..33] == Sha256(MARKER_TAG);
    } else if c.version == V2 {
      assert script[..32] == Sha256(MARKER_TAG_V2);
    }
  }

  ghost predicate SameCommitment(c: TapRoot, d: TapRoot) {
    c.version == d.version && c.root.AsNode() == d.root.AsNode()
  }

  /** The script determines version, root hash and sum. */
  lemma ScriptBinds(c: TapRoot, d: TapRoot)
    requires MarkersApart() && c.version <= V2 && d.version <= V2
    requires c.root.Sum() < U64_LIMIT && d.root.Sum() < U64_LIMIT
    requires TapLeafScript(c) == TapLeafScript(d)
    ensures SameCommitment(c, d)
  {
    hide BigEndian, Branch;
    var s, s' := TapLeafScript(c), TapLeafScript(d);
    assert s[0] == s'[0];
    assert s[0] == if c.version == V2 then Sha256(MARKER_TAG_V2)[0] else c.version;
    assert s'[0] == if d.version == V2 then Sha256(MARKER_TAG_V2)[0] else d.version;
    var m, m' := c.root.AsNode(), d.root.AsNode();
    assert s[33..65] == m.hash && s'[33..65] == m'.hash;
    assert s[65..] == BigEndian(c.root.Sum(), 8) && s'[65..] == BigEndian(d.root.Sum(), 8);
    U64BytesInjective(c.root.Sum(), d.root.Sum());
  }

  ghost function CommitmentLeafHash(c: TapRoot): Digest {
    TapLeafHash(TapLeafScript(c))
  }

  ghost function HashedByTapscript(c: TapRoot, sibling: Option<Digest>): set<bytes> {
    {TapLeafPreimage(TapLeafScript(c))}
    + match sibling
      case None => {}
      case Some(s) => {TapBranchPreimage(CommitmentLeafHash(c), s)}
  }

  lemma LeafHashBinds(c: TapRoot, d: TapRoot, hashed: set<bytes>)
    requires MarkersApart() && c.version <= V2 && d.version <= V2
    requires c.root.Sum() < U64_LIMIT && d.root.Sum() < U64_LIMIT
    requires CollisionFree(hashed) && CommitmentLeafHash(c) == CommitmentLeafHash(d)
    requires TapLeafPreimage(TapLeafScript(c)) in hashed && TapLeafPreimage(TapLeafScript(d)) in hashed
    ensures SameCommitment(c, d)
  {
    hide TapLeafScript, SameCommitment, LeafData;
    LeafPreimagePinsScript(TapLeafScript(c), TapLeafScript(d));
    ScriptBinds(c, d);
  }

  lemma LeafHashIsNotBranch(c: TapRoot, l: Digest, r: Digest, hashed: set<bytes>)
    requires c.version <= V2 && CollisionFree(hashed)
    requires TapLeafPreimage(TapLeafScript(c)) in hashed && TapBranchPreimage(l, r) in hashed
    ensures CommitmentLeafHash(c) != TapBranchHash(l, r)
  {
    hide TapLeafScript, LeafData, BranchData;
    LeafIsNotBranch(TapLeafScript(c), l, r);
  }

  /**
   * A tapscript root is that of one commitment and one sibling only, unless each commitment stands as
   * the sibling of the other, which the caller has to rule out.
   */
  lemma TapscriptRootBinds(c: TapRoot, s: Option<Digest>, d: TapRoot, s': Option<Digest>)
    requires MarkersApart() && c.version <= V2 && d.version <= V2
    requires c.root.Sum() < U64_LIMIT && d.root.Sum() < U64_LIMIT
    requires CollisionFree(HashedByTapscript(c, s) + HashedByTapscript(d, s'))
    requires TapscriptRoot(c, s) == TapscriptRoot(d, s')
    ensures (SameCommitment(c, d) && s == s') || (s == Some(CommitmentLeafHash(d)) && s' == Some(CommitmentLeafHash(c)))
  {
    hide TapLeafScript, SameCommitment, TapLeafPreimage, TapBranchPreimage, TapLeafHash, TapBranchHash, CollisionFree;
    var hashed := HashedByTapscript(c, s) + HashedByTapscript(d, s');
    if s == None && s' == None {
      LeafHashBinds(c, d, hashed);
    } else if s == None {
      LeafHashIsNotBranch(c, CommitmentLeafHash(d), s'.value, hashed);
    } else if s' == None {
      LeafHashIsNotBranch(d, CommitmentLeafHash(c), s.value, hashed);
    } else {
      BranchesFromPreimages(CommitmentLeafHash(c), s.value, CommitmentLeafHash(d), s'.value, hashed);
      if CommitmentLeafHash(c) == CommitmentLeafHash(d) { LeafHashBinds(c, d, hashed); }
    }
  }

  // ----- The derivations -----

  /** From a leaf at a key of the inner tree, empty or not, to the root of the outer tree. */
  function Derive(p: Proof, key: Digest, leaf: LeafNode): Result<TapRoot, Error> {
    if p.assetProof == None then Err(MissingAssetProof) else
    var ap := p.assetProof.value;
    match ProofRoot(key, leaf, ap.proof)
    case None => Err(SumOverflow)
    case Some(inner) =>
      match ProofRoot(ap.tapKey, CommitmentLeaf(ap.version, ap.tapKey, inner), p.tapProof)
      case None => Err(SumOverflow)
      case Some(outer) => Ok(TapRoot(p.tapVersion, outer))
  }

  function DeriveByAssetInclusion(p: Proof, a: Asset): Result<TapRoot, Error> {
    if p.assetProof == None then Err(MissingAssetProof)
    else if Leaf(a) == None then Err(BadLeaf)
    else Derive(p, AssetCommitmentKey(a), Leaf(a).value)
  }

  function DeriveByAssetExclusion(p: Proof, assetKey: Digest): Result<TapRoot, Error> {
    Derive(p, assetKey, EMPTY_LEAF)
  }

  function DeriveByAssetCommitmentExclusion(p: Proof, tapKey: Digest): Result<TapRoot, Error> {
    if p.assetProof != None then Err(UnexpectedAssetProof) else
    match ProofRoot(tapKey, EMPTY_LEAF, p.tapProof)
    case None => Err(SumOverflow)
    case Some(outer) => Ok(TapRoot(p.tapVersion, outer))
  }

  /** A proof shows one kind of thing only: with an asset proof something under a tap key, without one its absence. */
  lemma OneKindOfProof(p: Proof, a: Asset, assetKey: Digest, tapKey: Digest)
    ensures p.assetProof.None? ==>
              && DeriveByAssetInclusion(p, a) == Err(MissingAssetProof)
              && DeriveByAssetExclusion(p, assetKey) == Err(MissingAssetProof)
    ensures p.assetProof.Some? ==> DeriveByAssetCommitmentExclusion(p, tapKey) == Err(UnexpectedAssetProof)
    ensures DeriveByAssetInclusion(p, a).Ok? ==> DeriveByAssetInclusion(p, a).value.version == p.tapVersion
    ensures DeriveByAssetExclusion(p, assetKey).Ok? ==>
              DeriveByAssetExclusion(p, assetKey).value.version == p.tapVersion
    ensures DeriveByAssetCommitmentExclusion(p, tapKey).Ok? ==>
              DeriveByAssetCommitmentExclusion(p, tapKey).value.version == p.tapVersion
  {
    hide ProofRoot, CommitmentLeaf, Leaf;
  }

  // ----- The strings a derivation hashes -----

  ghost function HashedByDerive(p: Proof, key: Digest, leaf: LeafNode): set<bytes>
    requires Derive(p, key, leaf).Ok?
  {
    var ap := p.assetProof.value;
    var inner := ProofRoot(key, leaf, ap.proof).value;
    HashedByProof(key, leaf, ap.proof) + {CommitmentRootPreimage(ap.tapKey, inner)}
    + HashedByProof(ap.tapKey, CommitmentLeaf(ap.version, ap.tapKey, inner), p.tapProof)
  }

  ghost function HashedByCommitmentExclusion(p: Proof, tapKey: Digest): set<bytes> {
    HashedByProof(tapKey, EMPTY_LEAF, p.tapProof)
  }

  // ----- Soundness -----

  lemma CommitmentLeafInjective(v: byte, v': byte, t: Digest, r: Root, r': Root)
    requires r.Sum() < U64_LIMIT && r'.Sum() < U64_LIMIT
    requires CommitmentLeaf(v, t, r) == CommitmentLeaf(v', t, r')
    requires CollisionFree({CommitmentRootPreimage(t, r), CommitmentRootPreimage(t, r')})
    ensures v == v' && r.AsNode().hash == r'.AsNode().hash
  {
    hide BigEndian;
    var sum, sum' := BigEndian(r.Sum(), 8), BigEndian(r'.Sum(), 8);
    ConcatInjective([v] + CommitmentRoot(t, r), sum, [v'] + CommitmentRoot(t, r'), sum');
    ConcatInjective([v], CommitmentRoot(t, r), [v'], CommitmentRoot(t, r'));
    assert CommitmentRootPreimage(t, r) == CommitmentRootPreimage(t, r');
    ConcatInjective(t + r.left.hash + r.right.hash, sum, t + r'.left.hash + r'.right.hash, sum');
    ConcatInjective(t + r.left.hash, r.right.hash, t + r'.left.hash, r'.right.hash);
    ConcatInjective(t, r.left.hash, t, r'.left.hash);
  }

  /** Under one root and one tap key, an asset key leads to one leaf only. */
  lemma RootBindsAssetLeaf(p: Proof, q: Proof, key: Digest, leaf: LeafNode, leaf': LeafNode)
    requires Derive(p, key, leaf).Ok? && Derive(q, key, leaf').Ok?
    requires p.assetProof.value.tapKey == q.assetProof.value.tapKey
    requires Derive(p, key, leaf).value.root.AsNode().hash == Derive(q, key, leaf').value.root.AsNode().hash
    requires CollisionFree(HashedByDerive(p, key, leaf) + HashedByDerive(q, key, leaf'))
    ensures leaf == leaf' && p.assetProof.value.version == q.assetProof.value.version
  {
    hide ProofRoot, HashedByProof, CommitmentLeaf, Branch;
    var ap, aq := p.assetProof.value, q.assetProof.value;
    var t := ap.tapKey;
    var r, r' := ProofRoot(key, leaf, ap.proof).value, ProofRoot(key, leaf', aq.proof).value;
    var c, c' := CommitmentLeaf(ap.version, t, r), CommitmentLeaf(aq.version, t, r');
    var all := HashedByDerive(p, key, leaf) + HashedByDerive(q, key, leaf');
    CollisionFreeSubset(HashedByProof(t, c, p.tapProof) + HashedByProof(t, c', q.tapProof), all);
    RootBindsLeaf(t, c, p.tapProof, c', q.tapProof);
    CollisionFreeSubset({CommitmentRootPreimage(t, r), CommitmentRootPreimage(t, r')}, all);
    CommitmentLeafInjective(ap.version, aq.version, t, r, r');
    CollisionFreeSubset(HashedByProof(key, leaf, ap.proof) + HashedByProof(key, leaf', aq.proof), all);
    RootBindsLeaf(key, leaf, ap.proof, leaf', aq.proof);
  }

  /** No root both includes an asset and excludes its key under the same tap key. */
  lemma InclusionContradictsAssetExclusion(p: Proof, q: Proof, a: Asset)
    requires DeriveByAssetInclusion(p, a).Ok? && DeriveByAssetExclusion(q, AssetCommitmentKey(a)).Ok?
    requires p.assetProof.value.tapKey == q.assetProof.value.tapKey
    requires CollisionFree(HashedByDerive(p, AssetCommitmentKey(a), Leaf(a).value)
                           + HashedByDerive(q, AssetCommitmentKey(a), EMPTY_LEAF))
    ensures DeriveByAssetInclusion(p, a).value.root.AsNode().hash
            != DeriveByAssetExclusion(q, AssetCommitmentKey(a)).value.root.AsNode().hash
  {
    hide Derive, HashedByDerive, Leaf, Branch;
    LeafNotEmpty(a);
    var key, leaf := AssetCommitmentKey(a), Leaf(a).value;
    if Derive(p, key, leaf).value.root.AsNode().hash == Derive(q, key, EMPTY_LEAF).value.root.AsNode().hash {
      RootBindsAssetLeaf(p, q, key, leaf, EMPTY_LEAF);
    }
  }

  /** No root both holds something under a tap key, or excludes an asset there, and excludes that tap key. */
  lemma DeriveContradictsCommitmentExclusion(p: Proof, q: Proof, key: Digest, leaf: LeafNode)
    requires Derive(p, key, leaf).Ok?
    requires var t := p.assetProof.value.tapKey;
             && DeriveByAssetCommitmentExclusion(q, t).Ok?
             && CollisionFree(HashedByDerive(p, key, leaf) + HashedByCommitmentExclusion(q, t))
    ensures Derive(p, key, leaf).value.root.AsNode().hash
            != DeriveByAssetCommitmentExclusion(q, p.assetProof.value.tapKey).value.root.AsNode().hash
  {
    hide ProofRoot, HashedByProof, CommitmentLeaf, Branch;
    var ap := p.assetProof.value;
    var c := CommitmentLeaf(ap.version, ap.tapKey, ProofRoot(key, leaf, ap.proof).value);
    CollisionFreeSubset(HashedByProof(ap.tapKey, c, p.tapProof) + HashedByProof(ap.tapKey, EMPTY_LEAF, q.tapProof),
                        HashedByDerive(p, key, leaf) + HashedByCommitmentExclusion(q, ap.tapKey));
    if Derive(p, key, leaf).value.root.AsNode().hash
       == DeriveByAssetCommitmentExclusion(q, ap.tapKey).value.root.AsNode().hash {
      RootBindsLeaf(ap.tapKey, c, p.tapProof, EMPTY_LEAF, q.tapProof);
    }
  }

  // ----- Completeness -----

  /** The proof a commitment hands out for a tap key and an asset key. */
  ghost function ProofOf(s: Outer, tapKey: Digest, assetKey: Digest): Proof
    requires ValidOuter(s)
  {
    var tapProof := FullProof(OuterLeaves(s.inners), tapKey);
    if tapKey in s.inners then
      var c := s.inners[tapKey];
      Proof(Some(AssetProof(FullProof(LeavesOf(c.assets), assetKey), c.version, c.tapKey)), tapProof, s.version)
    else
      Proof(None, tapProof, s.version)
  }

  ghost function AsTapRoot(s: Outer): TapRoot
    requires ValidOuter(s)
  {
    TapRoot(s.version, OuterRoot(s))
  }

  /** What the commitment holds at an asset key of an inner commitment. */
  ghost function LeafUnder(s: Outer, tapKey: Digest, assetKey: Digest): LeafNode
    requires ValidOuter(s) && tapKey in s.inners
  {
    LeafAt(LeavesOf(s.inners[tapKey].assets), assetKey)
  }

  lemma DeriveComplete(s: Outer, tapKey: Digest, assetKey: Digest)
    requires ValidOuter(s) && tapKey in s.inners
    ensures Derive(ProofOf(s, tapKey, assetKey), assetKey, LeafUnder(s, tapKey, assetKey)) == Ok(AsTapRoot(s))
  {
    hide ProofRoot, FullProof, FullRoot, Total, Leaf, CommitmentLeaf;
    var c := s.inners[tapKey];
    FullProofComplete(LeavesOf(c.assets), assetKey);
    InnerRootSum(c);
    FullProofComplete(OuterLeaves(s.inners), tapKey);
    assert LeafAt(OuterLeaves(s.inners), tapKey) == InnerLeaf(c);
  }

  /**
   * Whatever is asked for, the proof handed out makes the matching derivation give back the
   * commitment's version and root, and with them its sum and tapscript root.
   */
  lemma ProofComplete(s: Outer, tapKey: Digest, assetKey: Digest)
    requires ValidOuter(s)
    ensures var p := ProofOf(s, tapKey, assetKey);
            if tapKey !in s.inners then DeriveByAssetCommitmentExclusion(p, tapKey) == Ok(AsTapRoot(s))
            else if assetKey !in s.inners[tapKey].assets then DeriveByAssetExclusion(p, assetKey) == Ok(AsTapRoot(s))
            else DeriveByAssetInclusion(p, s.inners[tapKey].assets[assetKey]) == Ok(AsTapRoot(s))
  {
    hide ProofRoot, FullProof, FullRoot, Total, Leaf, CommitmentLeaf, Derive, InnerLeaf;
    if tapKey in s.inners {
      DeriveComplete(s, tapKey, assetKey);
      if assetKey in s.inners[tapKey].assets {
        assert AssetCommitmentKey(s.inners[tapKey].assets[assetKey]) == assetKey;
      }
    } else {
      FullProofComplete(OuterLeaves(s.inners), tapKey);
      assert LeafAt(OuterLeaves(s.inners), tapKey) == EMPTY_LEAF;
    }
  }

  /** The strings hashed when the commitment's own answer for this key is checked. */
  ghost function HashedByOwnProof(s: Outer, tapKey: Digest, assetKey: Digest): set<bytes>
    requires ValidOuter(s)
  {
    if tapKey in s.inners then
      DeriveComplete(s, tapKey, assetKey);
      HashedByDerive(ProofOf(s, tapKey, assetKey), assetKey, LeafUnder(s, tapKey, assetKey))
    else
      HashedByCommitmentExclusion(ProofOf(s, tapKey, assetKey), tapKey)
  }

  /** An inclusion proof that gives a commitment's root is for an asset the commitment holds. */
  lemma InclusionImpliesCommitted(s: Outer, p: Proof, a: Asset)
    requires ValidOuter(s)
    requires DeriveByAssetInclusion(p, a).Ok?
    requires DeriveByAssetInclusion(p, a).value.root.AsNode().hash == OuterRoot(s).AsNode().hash
    requires CollisionFree(HashedByDerive(p, AssetCommitmentKey(a), Leaf(a).value)
                           + HashedByOwnProof(s, p.assetProof.value.tapKey, AssetCommitmentKey(a)))
    ensures var t, k := p.assetProof.value.tapKey, AssetCommitmentKey(a);
            && t in s.inners && k in s.inners[t].assets
            && Leaf(s.inners[t].assets[k]) == Leaf(a)
            && s.inners[t].version == p.assetProof.value.version
  {
    hide Derive, HashedByDerive, ProofRoot, FullProof, FullRoot, Total, Leaf, CommitmentLeaf, InnerLeaf, Branch,
         AssetCommitmentKey;
    var t, k := p.assetProof.value.tapKey, AssetCommitmentKey(a);
    var q := ProofOf(s, t, k);
    LeafNotEmpty(a);
    ProofComplete(s, t, k);
    if t in s.inners {
      DeriveComplete(s, t, k);
      RootBindsAssetLeaf(p, q, k, Leaf(a).value, LeafUnder(s, t, k));
    } else {
      DeriveContradictsCommitmentExclusion(p, q, k, Leaf(a).value);
    }
  }

  /** Every asset held can be decoded from its leaf. */
  ghost predicate AllDecodable(s: Outer) {
    forall t, k :: t in s.inners && k in s.inners[t].assets ==>
      DecodableAsset(s.inners[t].assets[k], s.inners[t].assets[k].version == 1)
  }

  lemma StrippedKeepsTapKey(a: Asset, b: Asset)
    requires Stripped(a, a.version == 1) == Stripped(b, b.version == 1)
    ensures TapCommitmentKey(a) == TapCommitmentKey(b)
  {
    assert Stripped(a, a.version == 1).genesis == a.genesis && Stripped(a, a.version == 1).groupKey == a.groupKey;
    assert Stripped(b, b.version == 1).genesis == b.genesis && Stripped(b, b.version == 1).groupKey == b.groupKey;
  }

  /**
   * An inclusion proof that gives a commitment's root is for an asset the commitment holds: the very asset,
   * up to the witnesses version 1 leaves out, and under its own tap key, which the derivation never looks at.
   */
  lemma InclusionIdentifiesAsset(s: Outer, p: Proof, a: Asset)
    requires ValidOuter(s) && AllDecodable(s) && DecodableAsset(a, a.version == 1)
    requires DeriveByAssetInclusion(p, a).Ok?
    requires DeriveByAssetInclusion(p, a).value.root.AsNode().hash == OuterRoot(s).AsNode().hash
    requires CollisionFree(HashedByDerive(p, AssetCommitmentKey(a), Leaf(a).value)
                           + HashedByOwnProof(s, p.assetProof.value.tapKey, AssetCommitmentKey(a)))
    ensures p.assetProof.value.tapKey == TapCommitmentKey(a)
    ensures var t, k := TapCommitmentKey(a), AssetCommitmentKey(a);
            && t in s.inners && k in s.inners[t].assets
            && var b := s.inners[t].assets[k];
               b.version == a.version && Stripped(b, b.version == 1) == Stripped(a, a.version == 1)
  {
    hide Derive, HashedByDerive, HashedByOwnProof, FullRoot, Total, Leaf, Branch, AssetCommitmentKey,
         TapCommitmentKey, DecodableAsset, Stripped;
    InclusionImpliesCommitted(s, p, a);
    var t, k := p.assetProof.value.tapKey, AssetCommitmentKey(a);
    var b := s.inners[t].assets[k];
    assert Belongs(b, s.inners[t].tapKey, s.inners[t].assetType);
    LeafBindsAsset(a, b);
    StrippedKeepsTapKey(a, b);
  }
}
