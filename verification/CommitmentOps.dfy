/** Whole-commitment operations as values: building from assets, merging, alternative leaves. */
module CommitmentOps {
  import opened Bytes
  import opened Hashing
  import opened SumTree
  import opened Assets
  import opened Commitment

  type Inners = map<Digest, Inner>

  // ----- Building -----

  /** A commitment to one asset. */
  ghost function Single(a: Asset): Inner {
    Inner(a.version, TapCommitmentKey(a), a.genesis.assetType, map[AssetCommitmentKey(a) := a])
  }

  lemma SingleValid(a: Asset)
    requires Leaf(a).Some?
    ensures ValidInner(Single(a)) && Tight(Single(a))
  {
    hide Leaf, Total;
    var s := Single(a);
    var k := AssetCommitmentKey(a);
    assert LeavesOf(s.assets) == map[k := Leaf(a).value];
    assert LeavesOf(s.assets) == Updated(map[], k, Leaf(a).value) by { LeafNotEmpty(a); }
    TotalUpdate(map[], k, Leaf(a).value);
    TotalOfNothing();
    LeafMeansKnownVersion(a);
    assert AssetVersions(s.assets) == {a.version} by {
      assert s.assets[k].version in AssetVersions(s.assets);
    }
    assert IsMax({a.version}, a.version);
  }

  /** Puts an asset into the inner commitment of its tap key, which is made if missing. */
  ghost function AddAsset(inners: Inners, a: Asset): Result<Inners, Error>
    requires ValidInners(inners)
  {
    var t := TapCommitmentKey(a);
    if t in inners then
      match InnerUpsert(inners[t], a)
      case Ok(c) => Ok(inners[t := c])
      case Err(e) => Err(e)
    else if Leaf(a).Some? then Ok(inners[t := Single(a)])
    else Err(BadLeaf)
  }

  lemma AddAssetValid(inners: Inners, a: Asset)
    requires ValidInners(inners) && AddAsset(inners, a).Ok?
    ensures ValidInners(AddAsset(inners, a).value)
  {
    hide ValidInner, Leaf, InnerUpsert;
    var t := TapCommitmentKey(a);
    if t in inners {
      UpsertKeepsValid(inners[t], a);
      UpsertKeepsTapKey(inners[t], a);
    } else {
      SingleValid(a);
    }
  }

  lemma UpsertKeepsTapKey(s: Inner, a: Asset)
    requires ValidInner(s) && InnerUpsert(s, a).Ok?
    ensures InnerUpsert(s, a).value.tapKey == s.tapKey && TapCommitmentKey(a) == s.tapKey
  {
  }

  ghost function Gather(assets: seq<Asset>): (r: Result<Inners, Error>)
    ensures r.Ok? ==> ValidInners(r.value)
  {
    if assets == [] then Ok(map[]) else
    var last := |assets| - 1;
    match Gather(assets[..last])
    case Err(e) => Err(e)
    case Ok(inners) =>
      var r := AddAsset(inners, assets[last]);
      assert r.Ok? ==> ValidInners(r.value) by { if r.Ok? { AddAssetValid(inners, assets[last]); } }
      r
  }

  /** Without a version the maximum of the contents is taken, otherwise any known version stands. */
  ghost function NewOuter(version: Option<byte>, inners: Inners): Result<Outer, Error>
    requires ValidInners(inners)
  {
    InnerVersionsAreBytes(inners);
    if Total(OuterLeaves(inners)) >= U64_LIMIT then Err(SumOverflow) else
    match version
    case None => Ok(Outer(MaxOf(InnerVersions(inners)), inners))
    case Some(v) => if v <= V2 then Ok(Outer(v, inners)) else Err(InvalidTapCommitmentVersion)
  }

  ghost function FromAssets(version: Option<byte>, assets: seq<Asset>): Result<Outer, Error> {
    match Gather(assets)
    case Err(e) => Err(e)
    case Ok(inners) => NewOuter(version, inners)
  }
}
