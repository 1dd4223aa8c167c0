/**
 * Alternative leaves: assets of the empty genesis and zero amount that carry other data, such as
 * the markers of spent inputs, in the inner commitment of the empty genesis.
 */
module AltLeaves {
  import opened Bytes
  import opened Hashing
  import opened SumTree
  import opened TreeProof
  import opened Assets
  import AssetKeys
  import opened Commitment
  import opened CommitmentOps
  import opened CommitmentProof
  import opened History

  const EMPTY_GENESIS_ID: Digest := AssetId(EMPTY_GENESIS)

  predicate ValidAltLeaf(a: Asset) {
    && a.version == 0 && a.genesis == EMPTY_GENESIS && a.amount == 0 && a.lockTime == 0
    && a.relativeLockTime == 0 && a.splitRoot == None && a.groupKey == None && a.scriptKey != NIL_KEY
  }

  lemma AltLeafKeys(a: Asset)
    requires ValidAltLeaf(a)
    ensures TapCommitmentKey(a) == EMPTY_GENESIS_ID && AssetCommitmentKey(a) == Sha256(XOnly(a.scriptKey))
  {
  }

  // ----- The check for valid leaves with unique keys -----

  /** Grows the set of keys leaf by leaf and stops at the first bad or repeated one. */
  function AddLeafKeys(existing: set<Digest>, leaves: seq<Asset>): Result<set<Digest>, Error> {
    if leaves == [] then Ok(existing) else
    var last := |leaves| - 1;
    match AddLeafKeys(existing, leaves[..last])
    case Err(e) => Err(e)
    case Ok(keys) =>
      if !ValidAltLeaf(leaves[last]) then Err(InvalidAltLeaf)
      else if AssetCommitmentKey(leaves[last]) in keys then Err(DuplicateAltLeafKey)
      else Ok(keys + {AssetCommitmentKey(leaves[last])})
  }

  method AddLeafKeysVerifyUnique(existing: set<Digest>, leaves: seq<Asset>) returns (r: Result<set<Digest>, Error>)
    ensures r == AddLeafKeys(existing, leaves)
  {
    hide AssetCommitmentKey, ValidAltLeaf;
    var keys, i := existing, 0;
    assert leaves[..0] == [];
    while i < |leaves|
      invariant 0 <= i <= |leaves|
      invariant AddLeafKeys(existing, leaves[..i]) == Ok(keys)
    {
      assert leaves[..i + 1][..i] == leaves[..i];
      if !ValidAltLeaf(leaves[i]) {
        FirstErrorStands(existing, leaves, i + 1);
        return Err(InvalidAltLeaf);
      }
      var key := AssetCommitmentKey(leaves[i]);
      if key in keys {
        FirstErrorStands(existing, leaves, i + 1);
        return Err(DuplicateAltLeafKey);
      }
      keys := keys + {key};
      i := i + 1;
    }
    assert leaves[..i] == leaves;
    return Ok(keys);
  }

  lemma {:induction false} FirstErrorStands(existing: set<Digest>, leaves: seq<Asset>, i: nat)
    requires i <= |leaves| && AddLeafKeys(existing, leaves[..i]).Err?
    ensures AddLeafKeys(existing, leaves) == AddLeafKeys(existing, leaves[..i])
    decreases |leaves|
  {
    if i == |leaves| {
      assert leaves[..i] == leaves;
    } else {
      var init := leaves[..|leaves| - 1];
      assert init[..i] == leaves[..i];
      FirstErrorStands(existing, init, i);
    }
  }

  ghost function KeysOf(leaves: seq<Asset>): set<Digest> {
    set i | 0 <= i < |leaves| :: AssetCommitmentKey(leaves[i])
  }

  lemma NoKeys()
    ensures KeysOf([]) == {} && DistinctKeys([])
  {
  }

  lemma KeysOfStep(leaves: seq<Asset>)
    requires leaves != []
    ensures var init, key := leaves[..|leaves| - 1], AssetCommitmentKey(leaves[|leaves| - 1]);
            && KeysOf(leaves) == KeysOf(init) + {key}
            && (DistinctKeys(leaves) <==> DistinctKeys(init) && key !in KeysOf(init))
  {
    hide AssetCommitmentKey;
    var last := |leaves| - 1;
    var init := leaves[..last];
    forall i | 0 <= i < last
      ensures AssetCommitmentKey(leaves[i]) in KeysOf(init) && AssetCommitmentKey(leaves[i]) in KeysOf(leaves)
    {
      assert AssetCommitmentKey(init[i]) in KeysOf(init);
    }
    assert AssetCommitmentKey(leaves[last]) in KeysOf(leaves);
    if DistinctKeys(init) && AssetCommitmentKey(leaves[last]) !in KeysOf(init) {
      forall i, j | 0 <= i < j < |leaves| ensures AssetCommitmentKey(leaves[i]) != AssetCommitmentKey(leaves[j]) {
        assert j < last ==> AssetCommitmentKey(init[i]) != AssetCommitmentKey(init[j]);
      }
    }
  }

  /** Accepted exactly when all leaves are valid and all keys, old and new, are different. */
  lemma {:induction false} AddLeafKeysIff(existing: set<Digest>, leaves: seq<Asset>)
    ensures AddLeafKeys(existing, leaves).Ok? <==>
            && (forall i :: 0 <= i < |leaves| ==> ValidAltLeaf(leaves[i]))
            && DistinctKeys(leaves) && KeysOf(leaves) !! existing
    ensures AddLeafKeys(existing, leaves).Ok? ==> AddLeafKeys(existing, leaves).value == existing + KeysOf(leaves)
  {
    hide AssetCommitmentKey, ValidAltLeaf, KeysOf, DistinctKeys;
    if leaves == [] {
      NoKeys();
    } else {
      var last := |leaves| - 1;
      var init := leaves[..last];
      AddLeafKeysIff(existing, init);
      KeysOfStep(leaves);
      assert (forall i :: 0 <= i < |leaves| ==> ValidAltLeaf(leaves[i]))
        <==> (forall i :: 0 <= i < last ==> ValidAltLeaf(init[i])) && ValidAltLeaf(leaves[last]);
    }
  }

  // ----- Merging -----

  ghost function AltAssets(s: Outer): AssetMap {
    if EMPTY_GENESIS_ID in s.inners then s.inners[EMPTY_GENESIS_ID].assets else map[]
  }

  /** The leaves are valid, collide neither with each other nor with those already there, and encode. */
  ghost predicate MergeableAlt(s: Outer, leaves: seq<Asset>) {
    && leaves != [] && AddLeafKeys(AltAssets(s).Keys, leaves).Ok? && AllLeaves(leaves)
    && (EMPTY_GENESIS_ID in s.inners ==> s.inners[EMPTY_GENESIS_ID].assetType == EMPTY_GENESIS.assetType)
  }

  ghost function AltBase(s: Outer, leaves: seq<Asset>): Inner
    requires leaves != []
  {
    if EMPTY_GENESIS_ID in s.inners then s.inners[EMPTY_GENESIS_ID] else Single(leaves[0])
  }

  /** The inner commitment that is placed: everything that was there and the new leaves. */
  ghost function AltAfter(s: Outer, leaves: seq<Asset>): Inner
    requires leaves != []
  {
    AltBase(s, leaves).(assets := AltAssets(s) + ByKey(leaves))
  }

  ghost predicate MergesAlt(s: Outer, leaves: seq<Asset>, s': Outer) {
    MergeableAlt(s, leaves) && Places(s, AltAfter(s, leaves), s')
  }

  ghost function LeafLedger(leaves: seq<Asset>): Ledger {
    Slice(EMPTY_GENESIS_ID, ByKey(leaves))
  }

  lemma AltAfterNotEmpty(s: Outer, leaves: seq<Asset>)
    requires leaves != []
    ensures AltAfter(s, leaves).assets != map[]
  {
    ByKeyHas(leaves, 0);
    assert AssetCommitmentKey(leaves[0]) in AltAfter(s, leaves).assets;
  }

  lemma AltAfterTapKey(s: Outer, leaves: seq<Asset>)
    requires ValidInners(s.inners) && MergeableAlt(s, leaves)
    ensures AltAfter(s, leaves).tapKey == EMPTY_GENESIS_ID
  {
    hide ValidInner, AssetCommitmentKey;
    AddLeafKeysIff(AltAssets(s).Keys, leaves);
    AltLeafKeys(leaves[0]);
  }

  /** Exactly the new leaves are added; no other inner commitment changes. */
  lemma MergeAltAddsExactly(s: Outer, leaves: seq<Asset>, s': Outer)
    requires ValidOuter(s) && MergesAlt(s, leaves, s')
    ensures s'.inners == s.inners[EMPTY_GENESIS_ID := AltAfter(s, leaves)]
    ensures LedgerOf(s'.inners) == LedgerOf(s.inners) + LeafLedger(leaves)
    ensures LedgerOf(s.inners).Keys !! LeafLedger(leaves).Keys
  {
    hide ValidInner, AssetCommitmentKey, ValidAltLeaf, LooksEmpty, Total, OuterLeaves, LedgerOf, ByKey,
         UpdatedVersion;
    AltAfterNotEmpty(s, leaves);
    AltAfterTapKey(s, leaves);
    AddLeafKeysIff(AltAssets(s).Keys, leaves);
    var t := EMPTY_GENESIS_ID;
    var i, j := s.inners, s'.inners;
    forall k | k in ByKey(leaves) ensures k !in AltAssets(s) {
      var n := ByKeySource(leaves, k);
      assert AssetCommitmentKey(leaves[n]) in KeysOf(leaves);
    }
    forall u, k ensures (u, k) in LedgerOf(j) <==> (u, k) in LedgerOf(i) + LeafLedger(leaves)
                ensures (u, k) in LedgerOf(j) ==> LedgerOf(j)[(u, k)] == (LedgerOf(i) + LeafLedger(leaves))[(u, k)]
                ensures (u, k) in LeafLedger(leaves) ==> (u, k) !in LedgerOf(i)
    {
      LedgerAt(i, u, k);
      LedgerAt(j, u, k);
    }
    SameLedger(LedgerOf(j), LedgerOf(i) + LeafLedger(leaves));
  }

  lemma {:induction false} LeavesAmountToNothing(assets: AssetMap)
    requires HaveLeaves(assets)
    requires forall k :: k in assets ==> assets[k].amount == 0
    ensures Total(LeavesOf(assets)) == 0
    decreases assets.Keys
  {
    hide Leaf;
    if assets == map[] {
      assert LeavesOf(assets) == map[];
    } else {
      var k :| k in assets;
      LeavesAmountToNothing(assets - {k});
      TotalRemove(LeavesOf(assets), k);
      assert LeavesOf(assets - {k}) == LeavesOf(assets) - {k};
      LeafNotEmpty(assets[k]);
    }
  }

  /** The root sum does not change. */
  lemma MergeAltKeepsSum(s: Outer, leaves: seq<Asset>, s': Outer)
    requires ValidOuter(s) && ValidOuter(s') && MergesAlt(s, leaves, s')
    ensures OuterRoot(s').Sum() == OuterRoot(s).Sum()
  {
    hide ValidInner, AssetCommitmentKey, LooksEmpty, Total, OuterLeaves, LedgerOf, ByKey, UpdatedVersion, FullRoot,
         Amounts, Leaf;
    MergeAltAddsExactly(s, leaves, s');
    AddLeafKeysIff(AltAssets(s).Keys, leaves);
    ByKeyHasLeaves(leaves);
    forall k | k in ByKey(leaves) ensures ByKey(leaves)[k].amount == 0 {
      var n := ByKeySource(leaves, k);
    }
    LeavesAmountToNothing(ByKey(leaves));
    forall k | k in ByKey(leaves) ensures (EMPTY_GENESIS_ID, k) !in LedgerOf(s.inners) {
      assert (EMPTY_GENESIS_ID, k) in LeafLedger(leaves);
    }
    AmountsOfUnion(LedgerOf(s.inners), EMPTY_GENESIS_ID, ByKey(leaves));
    RootSumIsAmount(s);
    RootSumIsAmount(s');
  }

  // ----- The loop that upserts the leaves one by one -----

  /** The leaves are acceptable so far, and the first `i` of them have been taken in. */
  ghost predicate AltProgress(s: Outer, leaves: seq<Asset>, c: Inner, i: nat) {
    && leaves != [] && i <= |leaves|
    && AddLeafKeys({}, leaves).Ok? && KeysOf(leaves) !! AltAssets(s).Keys
    && c == AltBase(s, leaves).(assets := AltBase(s, leaves).assets + ByKey(leaves[..i]))
    && c.tapKey == EMPTY_GENESIS_ID
    && AllLeaves(leaves[..i])
    && (i > 0 ==> c.assetType == EMPTY_GENESIS.assetType)
  }

  lemma AltStart(s: Outer, leaves: seq<Asset>, start: Inner)
    requires ValidInners(s.inners) && leaves != [] && AddLeafKeys({}, leaves).Ok?
    requires start == AltBase(s, leaves)
    requires forall k :: k in AltAssets(s) ==> k !in AddLeafKeys({}, leaves).value
    ensures AltProgress(s, leaves, start, 0)
  {
    hide ValidInner, AssetCommitmentKey;
    AddLeafKeysIff({}, leaves);
    AltLeafKeys(leaves[0]);
    ByKeyOfNone(leaves);
    assert start.assets + map[] == start.assets;
  }

  lemma UpsertAltLeaf(before: Inner, a: Asset, after: Inner)
    requires HaveLeaves(before.assets) && ValidAltLeaf(a) && InnerUpsert(before, a) == Ok(after)
    ensures after == before.(assets := before.assets[AssetCommitmentKey(a) := a])
    ensures Leaf(a).Some? && before.assetType == EMPTY_GENESIS.assetType
  {
    hide Leaf, Total, AssetCommitmentKey, TapCommitmentKey;
  }

  lemma OneMoreLeaf(leaves: seq<Asset>, i: nat)
    requires i < |leaves| && AllLeaves(leaves[..i]) && Leaf(leaves[i]).Some?
    ensures AllLeaves(leaves[..i + 1])
  {
    hide Leaf;
  }

  lemma AltStep(s: Outer, leaves: seq<Asset>, before: Inner, after: Inner, i: nat)
    requires i < |leaves| && AltProgress(s, leaves, before, i) && ValidInner(before)
    requires InnerUpsert(before, leaves[i]) == Ok(after)
    ensures AltProgress(s, leaves, after, i + 1)
    ensures after.tapKey == before.tapKey
  {
    hide AssetCommitmentKey, ByKey, AddLeafKeys, KeysOf, AltBase, AltAssets, InnerUpsert, Leaf, ValidInner,
         ValidAltLeaf, AllLeaves;
    assert ValidAltLeaf(leaves[i]) by { AddLeafKeysIff({}, leaves); }
    InnersHaveLeaves(before);
    UpsertAltLeaf(before, leaves[i], after);
    ByKeyStep(leaves, i);
    OneMoreLeaf(leaves, i);
    UpdateOverlay(AltBase(s, leaves).assets, ByKey(leaves[..i]), AssetCommitmentKey(leaves[i]), leaves[i]);
  }

  lemma UpdateOverlay(base: AssetMap, m: AssetMap, k: Digest, a: Asset)
    ensures (base + m)[k := a] == base + m[k := a]
  {
  }

  lemma AltDone(s: Outer, leaves: seq<Asset>, c: Inner)
    requires AltProgress(s, leaves, c, |leaves|)
    ensures MergeableAlt(s, leaves) && c == AltAfter(s, leaves) && c.tapKey == EMPTY_GENESIS_ID
  {
    hide AssetCommitmentKey, Leaf;
    AddLeafKeysIff({}, leaves);
    AddLeafKeysIff(AltAssets(s).Keys, leaves);
    assert leaves[..|leaves|] == leaves;
    if EMPTY_GENESIS_ID !in s.inners {
      ByKeyAt(leaves, 0);
      assert AltBase(s, leaves).assets + ByKey(leaves) == map[] + ByKey(leaves);
    }
  }

  /** Each of the checks made before a leaf is taken in refuses only what cannot be merged. */
  lemma AltRefusals(s: Outer, leaves: seq<Asset>)
    requires leaves != []
    ensures AddLeafKeys({}, leaves).Err? ==> !MergeableAlt(s, leaves)
    ensures AddLeafKeys({}, leaves).Ok? && (exists k :: k in AltAssets(s) && k in AddLeafKeys({}, leaves).value) ==>
              !MergeableAlt(s, leaves)
    ensures Leaf(leaves[0]).None? ==> !MergeableAlt(s, leaves)
  {
    hide AssetCommitmentKey, Leaf, ValidAltLeaf, KeysOf;
    AddLeafKeysIff({}, leaves);
    AddLeafKeysIff(AltAssets(s).Keys, leaves);
  }

  /** The first leaf, of the inner commitment that is there or made of it, has the type of the others. */
  lemma AltBaseType(s: Outer, leaves: seq<Asset>)
    requires MergeableAlt(s, leaves)
    ensures AltBase(s, leaves).assetType == EMPTY_GENESIS.assetType
  {
    hide AssetCommitmentKey, TapCommitmentKey;
    AddLeafKeysIff(AltAssets(s).Keys, leaves);
  }

  /** A leaf without amount cannot overflow anything. */
  lemma AltLeafIsTaken(c: Inner, a: Asset)
    requires ValidInner(c) && c.tapKey == EMPTY_GENESIS_ID && c.assetType == EMPTY_GENESIS.assetType
    requires ValidAltLeaf(a) && Leaf(a).Some?
    ensures InnerUpsert(c, a).Ok?
  {
    hide Leaf, Total, AssetCommitmentKey;
    AltLeafKeys(a);
    LeafNotEmpty(a);
    TotalUpdate(LeavesOf(c.assets), AssetCommitmentKey(a), Leaf(a).value);
  }

  lemma AltStepSucceeds(s: Outer, leaves: seq<Asset>, c: Inner, i: nat)
    requires i < |leaves| && AltProgress(s, leaves, c, i) && ValidInner(c) && MergeableAlt(s, leaves)
    ensures HaveLeaves(c.assets) && InnerUpsert(c, leaves[i]).Ok?
  {
    hide AssetCommitmentKey, ByKey, AddLeafKeys, KeysOf, AltBase, AltAssets, InnerUpsert, Leaf, ValidInner,
         ValidAltLeaf;
    AddLeafKeysIff({}, leaves);
    AltBaseType(s, leaves);
    InnersHaveLeaves(c);
    AltLeafIsTaken(c, leaves[i]);
  }

  lemma AltLeavesUnion(there: AssetMap, added: AssetMap)
    requires HaveLeaves(there) && HaveLeaves(added) && forall k :: k in added ==> added[k].amount == 0
    ensures HaveLeaves(there + added) && Total(LeavesOf(there + added)) <= Total(LeavesOf(there))
  {
    hide Leaf, Total;
    LeavesAmountToNothing(added);
    assert LeavesOf(there + added) == LeavesOf(there) + LeavesOf(added);
    TotalOfUnion(LeavesOf(there), LeavesOf(added));
  }

  lemma AltAfterTotal(s: Outer, leaves: seq<Asset>)
    requires ValidInners(s.inners) && MergeableAlt(s, leaves) && ValidInner(AltAfter(s, leaves))
    ensures HaveLeaves(AltAssets(s)) && Total(LeavesOf(AltAfter(s, leaves).assets)) <= Total(LeavesOf(AltAssets(s)))
  {
    hide Leaf, Total, AssetCommitmentKey, ByKey, ValidInner;
    if EMPTY_GENESIS_ID in s.inners { InnersHaveLeaves(s.inners[EMPTY_GENESIS_ID]); }
    AddLeafKeysIff(AltAssets(s).Keys, leaves);
    ByKeyHasLeaves(leaves);
    forall k | k in ByKey(leaves) ensures ByKey(leaves)[k].amount == 0 { var n := ByKeySource(leaves, k); }
    AltLeavesUnion(AltAssets(s), ByKey(leaves));
  }

  /** Nor can the outer commitment overflow. */
  lemma AltPlacementSucceeds(s: Outer, leaves: seq<Asset>)
    requires ValidOuter(s) && MergeableAlt(s, leaves) && ValidInner(AltAfter(s, leaves))
    requires AltAfter(s, leaves).tapKey == EMPTY_GENESIS_ID
    ensures ValidInners(s.inners - {EMPTY_GENESIS_ID}) && OuterUpsert(s, AltAfter(s, leaves)).Ok?
  {
    hide Leaf, Total, AssetCommitmentKey, ByKey, ValidInner, InnerLeaf, OuterLeaves, LooksEmpty, AddLeafKeys,
         AltAfter, UpdatedVersion;
    var c, t := AltAfter(s, leaves), EMPTY_GENESIS_ID;
    RemovedOuterLeaves(s.inners, t);
    UpdatedOuterLeaves(s.inners, c);
    AltAfterTotal(s, leaves);
    InnersHaveLeaves(c);
    if t in s.inners { InnersHaveLeaves(s.inners[t]); } else { NoAltAssets(s); }
    ReplacedTotal(s.inners, c);
    assert Total(OuterLeaves(s.inners[t := c])) < U64_LIMIT;
    assert InnersAfter(s.inners, c) == s.inners[t := c] || InnersAfter(s.inners, c) == s.inners - {t};
  }

  lemma NoAltAssets(s: Outer)
    requires EMPTY_GENESIS_ID !in s.inners
    ensures AltAssets(s) == map[] && LeavesOf(map[]) == map[] && Total(map[]) == 0
  {
  }

  // ----- Trimming -----

  /** A new commitment of the same version to everything but the alternative leaves. */
  ghost function Trimmed(s: Outer): Result<Outer, Error>
    requires ValidOuter(s)
  {
    RemovedOuterLeaves(s.inners, EMPTY_GENESIS_ID);
    NewOuter(Some(s.version), s.inners - {EMPTY_GENESIS_ID})
  }

  lemma MaxWithAlt(inners: Inners, c: Inner)
    requires c.version == 0 && c.tapKey !in inners
    ensures MaxOf(InnerVersions(inners[c.tapKey := c])) == MaxOf(InnerVersions(inners))
  {
    var after := inners[c.tapKey := c];
    forall t | t in inners ensures after[t].version in InnerVersions(after) { }
    forall t | t in inners ensures inners[t].version in InnerVersions(inners) { }
    var m := MaxOf(InnerVersions(inners));
    if m != 0 {
      var t :| t in inners && inners[t].version == m;
      assert after[t].version in InnerVersions(after);
    }
    assert IsMax(InnerVersions(after), m);
  }

  /**
   * Trimming undoes a merge into a commitment without alternative leaves: the tree root comes
   * back always, the version and with it the tapscript root exactly when the version was 2 or
   * the maximum of the contents.
   */
  lemma TrimUndoesMerge(s: Outer, leaves: seq<Asset>, s': Outer)
    requires ValidOuter(s) && ValidOuter(s') && MergesAlt(s, leaves, s')
    requires EMPTY_GENESIS_ID !in s.inners
    ensures Trimmed(s').Ok? && Trimmed(s').value.inners == s.inners
    ensures OuterRoot(Trimmed(s').value) == OuterRoot(s)
    ensures Trimmed(s').value == s <==> s.version == V2 || s.version == MaxOf(InnerVersions(s.inners))
  {
    hide ValidInner, AssetCommitmentKey, LooksEmpty, Total, OuterLeaves, LedgerOf, ByKey, FullRoot, Leaf, MaxOf;
    AltAfterNotEmpty(s, leaves);
    MergeAltAddsExactly(s, leaves, s');
    AltAfterTapKey(s, leaves);
    AddLeafKeysIff(AltAssets(s).Keys, leaves);
    assert s'.inners - {EMPTY_GENESIS_ID} == s.inners;
    MaxWithAlt(s.inners, AltAfter(s, leaves));
    ContentsAreOlder(s.inners);
  }

  // ----- Markers of spent inputs -----

  /** The x coordinate of the burn key: the NUMS key tweaked with the serialized previous ID. */
  const BurnKeyX: bytes -> Digest

  const ZERO_PREV_ID := PrevId(OutPoint(Zeros(32), 0), Zeros(32), NIL_KEY)

  function BurnData(p: PrevId): bytes {
    WireOutPoint(p.outPoint) + p.id + XOnly(p.scriptKey)
  }

  function DeriveBurnKey(p: PrevId): PubKey {
    [2] + BurnKeyX(BurnData(p))
  }

  /** The minimal alternative leaf that marks an input as spent. */
  function SpentAsset(p: PrevId): Asset {
    Asset(0, EMPTY_GENESIS, 0, 0, 0, [], None, 0, DeriveBurnKey(p), None, map[])
  }

  predicate HasGenesisWitness(a: Asset) {
    && |a.prevWitnesses| == 1
    && var w := a.prevWitnesses[0];
       w.prevId == Some(ZERO_PREV_ID) && w.txWitness == [] && w.split == None
  }

  predicate HasGenesisWitnessForGroup(a: Asset) {
    && a.groupKey.Some? && |a.prevWitnesses| == 1
    && var w := a.prevWitnesses[0];
       w.prevId == Some(ZERO_PREV_ID) && w.txWitness != [] && w.split == None
  }

  predicate HasSplitCommitmentWitness(a: Asset) {
    && |a.prevWitnesses| == 1
    && var w := a.prevWitnesses[0];
       w.prevId.Some? && w.txWitness == [] && w.split.Some?
  }

  predicate IsTransferRoot(a: Asset) {
    !HasGenesisWitness(a) && !HasGenesisWitnessForGroup(a) && !HasSplitCommitmentWitness(a)
  }

  datatype StxoError = NoWitnesses | NoPrevId

  /** A fresh mint, a fresh mint into a group, or an output of a split. */
  ghost predicate SpendsNothing(a: Asset) {
    && |a.prevWitnesses| == 1 && a.prevWitnesses[0].prevId.Some?
    && var w := a.prevWitnesses[0];
       var zero := w.prevId.value == PrevId(OutPoint(Zeros(32), 0), Zeros(32), Zeros(33));
       || (zero && w.txWitness == [] && w.split == None)
       || (zero && w.txWitness != [] && w.split == None && a.groupKey.Some?)
       || (w.txWitness == [] && w.split.Some?)
  }

  /** The minimal leaf that marks an input: nothing but a key derived from the input, of even parity. */
  ghost predicate Marks(marker: Asset, input: PrevId) {
    && marker.scriptKey == [2] + BurnKeyX(WireOutPoint(input.outPoint) + input.id + XOnly(input.scriptKey))
    && marker.version == 0 && marker.genesis == EMPTY_GENESIS && marker.amount == 0
    && marker.lockTime == 0 && marker.relativeLockTime == 0 && marker.scriptVersion == 0
    && marker.prevWitnesses == [] && marker.splitRoot == None && marker.groupKey == None
    && marker.unknownOddTypes == map[]
  }

  lemma SpendsNothingIff(a: Asset)
    ensures SpendsNothing(a) <==> !IsTransferRoot(a)
  {
  }

  lemma SpentAssetMarks(input: PrevId)
    ensures Marks(SpentAsset(input), input)
  {
  }

  /** One marker per witness, in order, nothing for an asset that spends nothing, or an error. */
  method CollectSTXO(a: Asset) returns (r: Result<seq<Asset>, StxoError>)
    ensures r == SpentMarkers(a)
    ensures r == Ok([]) <==> SpendsNothing(a)
    ensures a.prevWitnesses == [] ==> r == Err(NoWitnesses)
    ensures a.prevWitnesses != [] ==>
              (r == Err(NoPrevId) <==> exists i :: 0 <= i < |a.prevWitnesses| && a.prevWitnesses[i].prevId == None)
    ensures r.Ok? && r.value != [] ==>
              && |r.value| == |a.prevWitnesses|
              && forall i :: 0 <= i < |r.value| ==>
                   a.prevWitnesses[i].prevId.Some? && Marks(r.value[i], a.prevWitnesses[i].prevId.value)
  {
    hide SpentAsset, Marks;
    SpendsNothingIff(a);
    if !IsTransferRoot(a) { return Ok([]); }
    if a.prevWitnesses == [] { return Err(NoWitnesses); }
    var markers := [];
    var i := 0;
    while i < |a.prevWitnesses|
      invariant 0 <= i <= |a.prevWitnesses| && |markers| == i
      invariant forall j :: 0 <= j < i ==>
        a.prevWitnesses[j].prevId.Some? && markers[j] == SpentAsset(a.prevWitnesses[j].prevId.value)
    {
      if a.prevWitnesses[i].prevId == None { return Err(NoPrevId); }
      markers := markers + [SpentAsset(a.prevWitnesses[i].prevId.value)];
      i := i + 1;
    }
    assert markers == SpentMarkers(a).value;
    forall j | 0 <= j < |markers| ensures Marks(markers[j], a.prevWitnesses[j].prevId.value) {
      SpentAssetMarks(a.prevWitnesses[j].prevId.value);
    }
    return Ok(markers);
  }

  ghost predicate AllPrevIds(a: Asset) {
    forall i :: 0 <= i < |a.prevWitnesses| ==> a.prevWitnesses[i].prevId.Some?
  }

  ghost function SpentMarkers(a: Asset): Result<seq<Asset>, StxoError> {
    if !IsTransferRoot(a) then Ok([])
    else if a.prevWitnesses == [] then Err(NoWitnesses)
    else if !AllPrevIds(a) then Err(NoPrevId)
    else Ok(seq(|a.prevWitnesses|,
                i requires 0 <= i < |a.prevWitnesses| && AllPrevIds(a) => SpentAsset(a.prevWitnesses[i].prevId.value)))
  }

  function MarkerKey(p: PrevId): Digest {
    Sha256(XOnly(DeriveBurnKey(p)))
  }

  lemma MarkerIsAltLeaf(p: PrevId)
    ensures ValidAltLeaf(SpentAsset(p)) && AssetCommitmentKey(SpentAsset(p)) == MarkerKey(p)
  {
    assert DeriveBurnKey(p)[0] != NIL_KEY[0];
  }

  /** The same input, up to the parity of the script key. */
  ghost predicate SameInput(p: PrevId, q: PrevId) {
    p.outPoint == q.outPoint && p.id == q.id && XOnly(p.scriptKey) == XOnly(q.scriptKey)
  }

  /** Burn keys and their hashes do not collide on these inputs. */
  ghost predicate MarkersInjective(ps: set<PrevId>) {
    forall p, q :: p in ps && q in ps && MarkerKey(p) == MarkerKey(q) ==> BurnData(p) == BurnData(q)
  }

  lemma BurnDataInjective(p: PrevId, q: PrevId)
    ensures BurnData(p) == BurnData(q) <==> SameInput(p, q)
  {
    hide BigEndian;
    if BurnData(p) == BurnData(q) {
      ConcatInjective(WireOutPoint(p.outPoint) + p.id, XOnly(p.scriptKey),
                      WireOutPoint(q.outPoint) + q.id, XOnly(q.scriptKey));
      ConcatInjective(WireOutPoint(p.outPoint), p.id, WireOutPoint(q.outPoint), q.id);
      AssetKeys.WireOutPointInjective(p.outPoint, q.outPoint);
    }
  }

  ghost function PrevIds(a: Asset): set<PrevId> {
    set i | 0 <= i < |a.prevWitnesses| && a.prevWitnesses[i].prevId.Some? :: a.prevWitnesses[i].prevId.value
  }

  ghost predicate DistinctInputs(a: Asset) {
    forall i, j ::
      0 <= i < j < |a.prevWitnesses| && a.prevWitnesses[i].prevId.Some? && a.prevWitnesses[j].prevId.Some? ==>
      !SameInput(a.prevWitnesses[i].prevId.value, a.prevWitnesses[j].prevId.value)
  }

  /** The markers of a transfer root are valid alternative leaves exactly when its inputs differ. */
  lemma MarkersValidIff(a: Asset)
    requires SpentMarkers(a).Ok? && IsTransferRoot(a) && MarkersInjective(PrevIds(a))
    ensures AddLeafKeys({}, SpentMarkers(a).value).Ok? <==> DistinctInputs(a)
  {
    hide MarkerKey, BurnData, SpentAsset, AssetCommitmentKey, ValidAltLeaf, SameInput;
    var markers := SpentMarkers(a).value;
    AddLeafKeysIff({}, markers);
    forall i | 0 <= i < |markers|
      ensures ValidAltLeaf(markers[i]) && AssetCommitmentKey(markers[i]) == MarkerKey(a.prevWitnesses[i].prevId.value)
    {
      MarkerIsAltLeaf(a.prevWitnesses[i].prevId.value);
    }
    forall i, j | 0 <= i < j < |markers|
      ensures AssetCommitmentKey(markers[i]) == AssetCommitmentKey(markers[j])
              <==> SameInput(a.prevWitnesses[i].prevId.value, a.prevWitnesses[j].prevId.value)
    {
      var p, q := a.prevWitnesses[i].prevId.value, a.prevWitnesses[j].prevId.value;
      assert p in PrevIds(a) && q in PrevIds(a);
      BurnDataInjective(p, q);
      SameDataSameKey(p, q);
    }
  }

  lemma SameDataSameKey(p: PrevId, q: PrevId)
    ensures BurnData(p) == BurnData(q) ==> MarkerKey(p) == MarkerKey(q)
  {
  }

  /**
   * After a merge every leaf merged is provably included, and every alternative leaf key that
   * is neither old nor new is provably excluded.
   */
  lemma MergedLeavesAreProvable(s: Outer, leaves: seq<Asset>, s': Outer, key: Digest)
    requires ValidOuter(s) && ValidOuter(s') && MergesAlt(s, leaves, s')
    ensures var p := ProofOf(s', EMPTY_GENESIS_ID, key);
            && (forall i :: 0 <= i < |leaves| && AssetCommitmentKey(leaves[i]) == key ==>
                  DeriveByAssetInclusion(p, leaves[i]) == Ok(AsTapRoot(s')))
            && (key !in AltAssets(s) && key !in KeysOf(leaves) ==> DeriveByAssetExclusion(p, key) == Ok(AsTapRoot(s')))
  {
    hide ValidInner, AssetCommitmentKey, LooksEmpty, Total, OuterLeaves, LedgerOf, ByKey, Leaf, Derive, ProofOf,
         UpdatedVersion, FullRoot, DeriveByAssetInclusion, DeriveByAssetExclusion, ValidAltLeaf;
    MergeAltAddsExactly(s, leaves, s');
    AddLeafKeysIff(AltAssets(s).Keys, leaves);
    ProofComplete(s', EMPTY_GENESIS_ID, key);
    forall i | 0 <= i < |leaves| && AssetCommitmentKey(leaves[i]) == key
      ensures key in s'.inners[EMPTY_GENESIS_ID].assets && s'.inners[EMPTY_GENESIS_ID].assets[key] == leaves[i]
    {
      ByKeyAt(leaves, i);
    }
    if key in ByKey(leaves) {
      var n := ByKeySource(leaves, key);
      assert AssetCommitmentKey(leaves[n]) in KeysOf(leaves);
    }
  }

  ghost predicate Spends(a: Asset, input: PrevId) {
    exists p :: p in PrevIds(a) && SameInput(p, input)
  }

  lemma SameInputSameMarker(p: PrevId, q: PrevId)
    requires SameInput(p, q)
    ensures SpentAsset(p) == SpentAsset(q) && MarkerKey(p) == MarkerKey(q)
  {
    BurnDataInjective(p, q);
  }

  lemma UnspentHasNoMarker(a: Asset, input: PrevId)
    requires SpentMarkers(a).Ok? && IsTransferRoot(a) && MarkersInjective(PrevIds(a) + {input}) && !Spends(a, input)
    ensures MarkerKey(input) !in KeysOf(SpentMarkers(a).value)
  {
    hide MarkerKey, BurnData, SpentAsset, AssetCommitmentKey, SameInput, ValidAltLeaf;
    var markers := SpentMarkers(a).value;
    forall i | 0 <= i < |markers| ensures AssetCommitmentKey(markers[i]) != MarkerKey(input) {
      var p := a.prevWitnesses[i].prevId.value;
      assert p in PrevIds(a);
      MarkerIsAltLeaf(p);
      BurnDataInjective(p, input);
    }
  }

  /**
   * Spent inputs: once the markers of an asset are merged, each input it spends has an inclusion
   * proof of its marker, and any other input that had no marker before has an exclusion proof.
   */
  lemma SpentInputsAreProvable(s: Outer, a: Asset, s': Outer, input: PrevId)
    requires ValidOuter(s) && ValidOuter(s') && SpentMarkers(a).Ok? && MergesAlt(s, SpentMarkers(a).value, s')
    requires IsTransferRoot(a) && MarkersInjective(PrevIds(a) + {input})
    ensures var p := ProofOf(s', EMPTY_GENESIS_ID, MarkerKey(input));
            if Spends(a, input) then DeriveByAssetInclusion(p, SpentAsset(input)) == Ok(AsTapRoot(s'))
            else MarkerKey(input) !in AltAssets(s) ==> DeriveByAssetExclusion(p, MarkerKey(input)) == Ok(AsTapRoot(s'))
  {
    hide ValidInner, AssetCommitmentKey, LooksEmpty, Total, OuterLeaves, LedgerOf, ByKey, Leaf, Derive, ProofOf,
         SameInput, UpdatedVersion, FullRoot, DeriveByAssetInclusion, DeriveByAssetExclusion, ValidAltLeaf, MarkerKey,
         SpentAsset;
    var markers := SpentMarkers(a).value;
    MergedLeavesAreProvable(s, markers, s', MarkerKey(input));
    if Spends(a, input) {
      var p :| p in PrevIds(a) && SameInput(p, input);
      SameInputSameMarker(p, input);
      MarkerIsAltLeaf(input);
      var i :| 0 <= i < |a.prevWitnesses| && a.prevWitnesses[i].prevId == Some(p);
      assert markers[i] == SpentAsset(input);
    } else {
      UnspentHasNoMarker(a, input);
    }
  }
}
