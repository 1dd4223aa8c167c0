/** The inner commitment as the program keeps it: fields updated in place, tree and map in step. */
module AssetCommitments {
  import opened Bytes
  import opened Hashing
  import opened SumTree
  import opened TreeProof
  import opened Assets
  import opened Commitment
  import opened CommitmentOps

  /** The descriptor of the raw key behind a group key. It is known beside an asset, not part of its encoding. */
  type RawKey = bytes

  /**
   * The assets share type, group or ID, and tap key with the first of them. Two group keys are the same
   * only if their raw keys are; for assets without a group raw keys do not matter.
   */
  ghost predicate Related(assets: seq<Asset>, rawKeys: seq<RawKey>)
    requires |rawKeys| == |assets|
  {
    assets != [] &&
    forall i :: 0 <= i < |assets| ==>
      && assets[i].genesis.assetType == assets[0].genesis.assetType
      && assets[i].groupKey == assets[0].groupKey
      && (assets[0].groupKey.Some? ==> rawKeys[i] == rawKeys[0])
      && (assets[0].groupKey == None ==> AssetId(assets[i].genesis) == AssetId(assets[0].genesis))
  }

  /** Exactly the lists a commitment can be made from. */
  ghost predicate Committable(assets: seq<Asset>, rawKeys: seq<RawKey>)
    requires |rawKeys| == |assets|
  {
    Related(assets, rawKeys) && DistinctKeys(assets) && TreeFits(assets)
  }

  /** Every asset has a leaf, and the total stays in range. */
  ghost predicate TreeFits(assets: seq<Asset>) {
    && AllLeaves(assets)
    && (ByKeyHasLeaves(assets); Total(LeavesOf(ByKey(assets))) < U64_LIMIT)
  }

  ghost function NewInner(assets: seq<Asset>): Inner
    requires assets != []
  {
    VersionsAreBytes(ByKey(assets));
    Inner(MaxOf(AssetVersions(ByKey(assets))), TapCommitmentKey(assets[0]), assets[0].genesis.assetType, ByKey(assets))
  }

  lemma ListMaximum(assets: seq<Asset>, m: byte)
    requires DistinctKeys(assets)
    requires forall j :: 0 <= j < |assets| ==> assets[j].version <= m
    requires m == 0 || exists j :: 0 <= j < |assets| && assets[j].version == m
    ensures m == MaxOf(AssetVersions(ByKey(assets)))
  {
    hide AssetCommitmentKey;
    var byKey := ByKey(assets);
    if m != 0 {
      var j :| 0 <= j < |assets| && assets[j].version == m;
      ByKeyAt(assets, j);
      assert byKey[AssetCommitmentKey(assets[j])].version in AssetVersions(byKey);
    }
    forall k | k in byKey ensures byKey[k].version <= m {
      var i := ByKeySource(assets, k);
    }
    assert IsMax(AssetVersions(byKey), m);
  }

  /** A prefix whose total overflows shows that the whole list cannot be committed to. */
  lemma PartOverflows(assets: seq<Asset>, i: nat)
    requires DistinctKeys(assets) && i <= |assets| && AllLeaves(assets[..i])
    requires HaveLeaves(ByKey(assets[..i])) && Total(LeavesOf(ByKey(assets[..i]))) >= U64_LIMIT
    ensures !TreeFits(assets)
  {
    hide Leaf, AssetCommitmentKey, Total, ByKey;
    if TreeFits(assets) {
      ByKeyHasLeaves(assets);
      var part, whole := ByKey(assets[..i]), ByKey(assets);
      forall k | k in part ensures k in whole && whole[k] == part[k] {
        var j := ByKeySource(assets[..i], k);
        ByKeyAt(assets, j);
      }
      var l := LeavesOf(whole);
      assert LeavesOf(part) == l - (l.Keys - part.Keys);
      TotalOfPart(l, l.Keys - part.Keys);
    }
  }

  lemma NewInnerValid(assets: seq<Asset>, rawKeys: seq<RawKey>)
    requires |rawKeys| == |assets| && Committable(assets, rawKeys)
    ensures ValidInner(NewInner(assets)) && Tight(NewInner(assets))
  {
    hide Leaf, AssetCommitmentKey, Total, TapCommitmentKey;
    ByKeyHasLeaves(assets);
    var s := NewInner(assets);
    LeavesMeanKnownVersions(s.assets);
    forall k | k in s.assets
      ensures AssetCommitmentKey(s.assets[k]) == k && Belongs(s.assets[k], s.tapKey, s.assetType)
              && s.assets[k].version <= s.version
    {
      var i := ByKeySource(assets, k);
      RelatedTapKeys(assets, rawKeys, i);
      assert s.assets[k].version in AssetVersions(s.assets);
    }
  }

  lemma NewInnerOfOne(a: Asset, rawKey: RawKey)
    ensures NewInner([a]) == Single(a)
    ensures Committable([a], [rawKey]) <==> Leaf(a).Some?
  {
    hide AssetCommitmentKey, TapCommitmentKey, Leaf, Total;
    var k := AssetCommitmentKey(a);
    assert [a][..0] == [];
    assert ByKey([a]) == map[k := a];
    assert AssetVersions(map[k := a]) == {a.version as nat} by {
      assert map[k := a][k].version in AssetVersions(map[k := a]);
    }
    assert IsMax({a.version as nat}, a.version as nat);
    if Leaf(a).Some? {
      SingleValid(a);
      assert AllLeaves([a]);
    } else {
      assert !AllLeaves([a]);
    }
  }

  lemma RelatedTapKeys(assets: seq<Asset>, rawKeys: seq<RawKey>, i: nat)
    requires |rawKeys| == |assets| && Related(assets, rawKeys) && i < |assets|
    ensures TapCommitmentKey(assets[i]) == TapCommitmentKey(assets[0])
  {
  }

  /** What is wrong with a list of assets when this error is returned for it, in the order of the checks. */
  ghost predicate ErrorApplies(e: Error, assets: seq<Asset>, rawKeys: seq<RawKey>)
    requires |rawKeys| == |assets|
  {
    if assets == [] then e == NoAssets
    else if !Related(assets, rawKeys) then MismatchApplies(e, assets, rawKeys)
    else if !DistinctKeys(assets) then e == AssetDuplicateScriptKey
    else e == SumOverflow || (e == BadLeaf && !AllLeaves(assets))
  }

  ghost predicate MismatchApplies(e: Error, assets: seq<Asset>, rawKeys: seq<RawKey>)
    requires |rawKeys| == |assets| > 0
  {
    match e
    case AssetTypeMismatch =>
      exists i :: 0 <= i < |assets| && assets[i].genesis.assetType != assets[0].genesis.assetType
    case AssetGroupKeyMismatch =>
      exists i :: 0 <= i < |assets| && (assets[i].groupKey != assets[0].groupKey || rawKeys[i] != rawKeys[0])
    case AssetGenesisMismatch =>
      assets[0].groupKey == None
      && exists i :: 0 <= i < |assets| && AssetId(assets[i].genesis) != AssetId(assets[0].genesis)
    case _ => false
  }

  /** Tree and root are those of the assets. */
  ghost predicate Consistent(s: Inner, tree: Tree, treeRoot: Root) {
    && ValidInner(s)
    && ValidTree(tree) && Contents(tree) == LeavesOf(s.assets)
    && treeRoot == RootOf(tree)
  }

  /** What the outer commitment may rely on: a valid value and its root. */
  lemma ConsistentRoot(s: Inner, tree: Tree, treeRoot: Root)
    requires Consistent(s, tree, treeRoot)
    ensures ValidInner(s) && treeRoot == InnerRoot(s) && treeRoot.Sum() < U64_LIMIT
  {
    hide RootOf, FullRoot, Total, Contents;
    RootOfIsFullRoot(tree);
  }

  class AssetCommitment {
    var version: byte
    var tapKey: Digest
    var assetType: byte
    var treeRoot: Root
    var tree: Tree
    var assets: AssetMap

    ghost function View(): Inner
      reads this
    {
      Inner(version, tapKey, assetType, assets)
    }

    ghost predicate Valid()
      reads this
    {
      Consistent(View(), tree, treeRoot)
    }

    constructor (version: byte, tapKey: Digest, assetType: byte, assets: AssetMap, tree: Tree)
      requires ValidInner(Inner(version, tapKey, assetType, assets))
      requires ValidTree(tree) && Contents(tree) == LeavesOf(assets)
      ensures Valid() && View() == Inner(version, tapKey, assetType, assets)
    {
      this.version, this.tapKey, this.assetType := version, tapKey, assetType;
      this.assets, this.tree := assets, tree;
      this.treeRoot := RootOf(tree);
    }

    /** Made from related assets with distinct keys; refused for every other list. */
    static method New(assets: seq<Asset>, rawKeys: seq<RawKey>) returns (r: Result<AssetCommitment, Error>)
      requires |rawKeys| == |assets|
      ensures r.Ok? <==> Committable(assets, rawKeys)
      ensures r.Ok? ==> fresh(r.value) && r.value.Valid() && r.value.View() == NewInner(assets)
      ensures r.Err? ==> ErrorApplies(r.error, assets, rawKeys)
    {
      hide TapCommitmentKey, AssetCommitmentKey, Contents, ByKey, DistinctKeys, TreeFits, MaxOf, ValidInner;
      if assets == [] { return Err(NoAssets); }
      var parsed := ParseCommon(assets, rawKeys);
      if parsed.Err? { return Err(parsed.error); }
      var (version, byKey) := parsed.value;
      var tree := BuildTree(assets);
      if tree.Err? { return Err(tree.error); }
      NewInnerValid(assets, rawKeys);
      var first := assets[0];
      var c := new AssetCommitment(version, TapCommitmentKey(first), first.genesis.assetType, byKey, tree.value);
      return Ok(c);
    }

    /** Inserts the leaves of the assets into a new tree. */
    static method BuildTree(assets: seq<Asset>) returns (r: Result<Tree, Error>)
      requires DistinctKeys(assets)
      ensures r.Ok? <==> TreeFits(assets)
      ensures r.Err? ==> r.error == SumOverflow || (r.error == BadLeaf && !AllLeaves(assets))
      ensures r.Ok? ==>
                HaveLeaves(ByKey(assets)) && ValidTree(r.value) && Contents(r.value) == LeavesOf(ByKey(assets))
    {
      hide Leaf, AssetCommitmentKey, Contents, Total, Insert, ByKey, DistinctKeys, Placed;
      NewTreeIsEmpty();
      var tree := NEW_TREE;
      var i := 0;
      ByKeyOfNone(assets);
      assert LeavesOf(map[]) == map[];
      while i < |assets|
        invariant 0 <= i <= |assets|
        invariant AllLeaves(assets[..i])
        invariant ValidTree(tree) && HaveLeaves(ByKey(assets[..i])) && Contents(tree) == LeavesOf(ByKey(assets[..i]))
      {
        var leaf := Leaf(assets[i]);
        if leaf == None { return Err(BadLeaf); }
        var key := AssetCommitmentKey(assets[i]);
        ByKeyStep(assets, i);
        UpdatedLeaves(ByKey(assets[..i]), key, assets[i]);
        InsertSpec(tree, key, leaf.value);
        var inserted := Insert(tree, key, leaf.value);
        if inserted == None {
          PartOverflows(assets, i + 1);
          return Err(SumOverflow);
        }
        tree := inserted.value;
        i := i + 1;
      }
      assert assets[..i] == assets;
      return Ok(tree);
    }

    /** The shared properties are checked first, then the keys, then the maximum version is taken. */
    static method ParseCommon(assets: seq<Asset>, rawKeys: seq<RawKey>) returns (r: Result<(byte, AssetMap), Error>)
      requires assets != [] && |rawKeys| == |assets|
      ensures r.Ok? <==> Related(assets, rawKeys) && DistinctKeys(assets)
      ensures r.Ok? ==> r.value == (NewInner(assets).version, ByKey(assets))
      ensures r.Err? ==> ErrorApplies(r.error, assets, rawKeys)
    {
      hide Related, DistinctKeys, ByKey, MaxOf, AssetVersions;
      var mismatch := FirstMismatch(assets, rawKeys);
      if mismatch.Some? { return Err(mismatch.value); }
      var byKey := IndexByKey(assets);
      if byKey == None { return Err(AssetDuplicateScriptKey); }
      var version := MaxListVersion(assets);
      return Ok((version, byKey.value));
    }

    static method FirstMismatch(assets: seq<Asset>, rawKeys: seq<RawKey>) returns (r: Option<Error>)
      requires assets != [] && |rawKeys| == |assets|
      ensures r == None <==> Related(assets, rawKeys)
      ensures r.Some? ==> MismatchApplies(r.value, assets, rawKeys)
    {
      hide AssetId;
      var i := 0;
      while i < |assets|
        invariant 0 <= i <= |assets|
        invariant forall j :: 0 <= j < i ==>
          && assets[j].genesis.assetType == assets[0].genesis.assetType
          && assets[j].groupKey == assets[0].groupKey
          && (assets[0].groupKey.Some? ==> rawKeys[j] == rawKeys[0])
          && (assets[0].groupKey == None ==> AssetId(assets[j].genesis) == AssetId(assets[0].genesis))
      {
        if assets[0].genesis.assetType != assets[i].genesis.assetType { return Some(AssetTypeMismatch); }
        if assets[0].groupKey != assets[i].groupKey { return Some(AssetGroupKeyMismatch); }
        if assets[0].groupKey.Some? && rawKeys[0] != rawKeys[i] { return Some(AssetGroupKeyMismatch); }
        if assets[0].groupKey == None && AssetId(assets[0].genesis) != AssetId(assets[i].genesis) {
          return Some(AssetGenesisMismatch);
        }
        i := i + 1;
      }
      return None;
    }

    static method IndexByKey(assets: seq<Asset>) returns (r: Option<AssetMap>)
      ensures r.Some? <==> DistinctKeys(assets)
      ensures r.Some? ==> r.value == ByKey(assets)
    {
      hide AssetCommitmentKey, ByKey;
      var byKey: AssetMap := map[];
      var i := 0;
      ByKeyOfNone(assets);
      while i < |assets|
        invariant 0 <= i <= |assets|
        invariant byKey == ByKey(assets[..i]) && DistinctKeys(assets[..i])
      {
        var key := AssetCommitmentKey(assets[i]);
        if key in byKey {
          ghost var j := ByKeySource(assets[..i], key);
          assert AssetCommitmentKey(assets[j]) == AssetCommitmentKey(assets[i]);
          return None;
        }
        forall j | 0 <= j < i ensures AssetCommitmentKey(assets[j]) != key { ByKeyHas(assets[..i], j); }
        ByKeyStep(assets, i);
        byKey := byKey[key := assets[i]];
        i := i + 1;
      }
      assert assets[..i] == assets;
      return Some(byKey);
    }

    static method MaxListVersion(assets: seq<Asset>) returns (version: byte)
      requires DistinctKeys(assets)
      ensures version == MaxOf(AssetVersions(ByKey(assets)))
    {
      hide AssetCommitmentKey, ByKey;
      version := 0;
      var i := 0;
      while i < |assets|
        invariant 0 <= i <= |assets|
        invariant forall j :: 0 <= j < i ==> assets[j].version <= version
        invariant version == 0 || exists j :: 0 <= j < i && assets[j].version == version
      {
        if assets[i].version > version { version := assets[i].version; }
        i := i + 1;
      }
      ListMaximum(assets, version);
    }

    /** The leaf that stands for this commitment in the outer tree. */
    method TapCommitmentLeaf() returns (leaf: LeafNode)
      requires Valid()
      ensures ValidInner(View()) && leaf == InnerLeaf(View())
    {
      hide Consistent, RootOf, FullRoot, Total, CommitmentLeaf, ValidInner;
      ConsistentRoot(View(), tree, treeRoot);
      leaf := CommitmentLeaf(version, tapKey, treeRoot);
    }

    method Upsert(newAsset: Asset) returns (err: Option<Error>)
      requires Valid()
      modifies this
      ensures Valid()
      ensures newAsset.genesis.assetType != old(assetType) ==> err == Some(AssetTypeMismatch)
      ensures newAsset.genesis.assetType == old(assetType) && TapCommitmentKey(newAsset) != old(tapKey) ==>
                err == Some(if newAsset.groupKey.Some? then AssetGroupKeyMismatch else AssetGenesisMismatch)
      ensures match InnerUpsert(old(View()), newAsset)
              case Ok(s) => err == None && View() == s
              case Err(e) => err == Some(e) && unchanged(this)
    {
      hide Leaf, Insert, RootOf, Contents, Total, TapCommitmentKey, AssetCommitmentKey, ValidTree;
      var refusal := Refusal(tapKey, assetType, newAsset);
      if refusal.Some? { return refusal; }
      var key := AssetCommitmentKey(newAsset);
      var leaf := Leaf(newAsset);
      if leaf == None { return Some(BadLeaf); }
      InsertSpec(tree, key, leaf.value);
      UpdatedLeaves(assets, key, newAsset);
      var inserted := Insert(tree, key, leaf.value);
      if inserted == None { return Some(SumOverflow); }
      ValidTreeShape(inserted.value);
      UpsertKeepsValid(View(), newAsset);
      tree := inserted.value;
      treeRoot := RootOf(tree);
      assets := assets[key := newAsset];
      if newAsset.version > version { version := newAsset.version; }
      return None;
    }

    method Delete(oldAsset: Asset) returns (err: Option<Error>)
      requires Valid()
      modifies this
      ensures Valid()
      ensures TapCommitmentKey(oldAsset) != old(tapKey) ==>
                err == Some(if oldAsset.groupKey.Some? then AssetGroupKeyMismatch else AssetGenesisMismatch)
      ensures TapCommitmentKey(oldAsset) == old(tapKey) && oldAsset.genesis.assetType != old(assetType) ==>
                err == Some(AssetTypeMismatch)
      ensures match InnerDelete(old(View()), oldAsset)
              case Ok(s) => err == None && View() == s
              case Err(e) => err == Some(e) && unchanged(this)
    {
      hide Leaf, Insert, RootOf, Contents, Total, TapCommitmentKey, AssetCommitmentKey, ValidTree;
      if TapCommitmentKey(oldAsset) != tapKey {
        return Some(if oldAsset.groupKey.Some? then AssetGroupKeyMismatch else AssetGenesisMismatch);
      }
      if assetType != oldAsset.genesis.assetType { return Some(AssetTypeMismatch); }
      if assets == map[] { return None; }
      var key := AssetCommitmentKey(oldAsset);
      InsertSpec(tree, key, EMPTY_LEAF);
      DeleteSucceeds(tree, key);
      RemovedLeaves(assets, key);
      DeleteKeepsValid(View(), oldAsset);
      var deleted := Insert(tree, key, EMPTY_LEAF).value;
      ValidTreeShape(deleted);
      tree := deleted;
      treeRoot := RootOf(tree);
      assets := assets - {key};
      version := MaxVersion(assets);
      return None;
    }

    /** The largest version among the assets, visited in any order. */
    static method MaxVersion(assets: AssetMap) returns (m: byte)
      ensures m == MaxOf(AssetVersions(assets))
    {
      m := 0;
      var todo := assets.Keys;
      while todo != {}
        invariant todo <= assets.Keys
        invariant forall k :: k in assets && k !in todo ==> assets[k].version <= m
        invariant m == 0 || m in AssetVersions(assets)
        decreases todo
      {
        var k :| k in todo;
        if assets[k].version > m { m := assets[k].version; }
        assert assets[k].version in AssetVersions(assets);
        todo := todo - {k};
      }
      assert IsMax(AssetVersions(assets), m);
    }

    /** A copy of the map and a proof, for a present or an absent key. */
    method AssetProof(key: Digest) returns (a: Option<Asset>, proof: Proof)
      requires Valid()
      ensures a == if key in assets then Some(assets[key]) else None
      ensures proof == FullProof(LeavesOf(assets), key)
    {
      hide Contents, FullProof, Total;
      MerkleProofIsFull(tree, key);
      proof := MerkleProof(tree, key);
      a := if key in assets then Some(assets[key]) else None;
    }

    /**
     * Upserts the other commitment's assets one by one, in any order. On failure some of them
     * may already have been taken over.
     */
    method Merge(other: AssetCommitment) returns (err: Option<Error>)
      requires Valid() && other.Valid()
      modifies this
      ensures Valid() && tapKey == old(tapKey) && assetType == old(assetType)
      ensures err == None ==> View() == Merged(old(View()), old(other.View()))
      ensures Between(assets, old(assets), old(other.assets))
      ensures MergeFits(old(View()), old(other.View())) ==> err == None
      ensures UpdateError(err)
    {
      hide ValidInner, InnerUpsert, MergeState, Merged, MergeFits, Between, ValidTree, Contents, RootOf, UpdateError;
      NoError();
      if assetType != other.assetType {
        MergeRefused(View(), other.View());
        return Some(AssetTypeMismatch);
      }
      var theirs := other.assets;
      var todo := theirs.Keys;
      MergeStart(View(), theirs);
      while todo != {}
        invariant Valid() && todo <= theirs.Keys
        invariant MergeState(View(), old(View()), theirs, todo)
        decreases todo
      {
        var k :| k in todo;
        ghost var before, wasTodo := View(), todo;
        UpsertErrors(before, theirs[k]);
        err := Upsert(theirs[k]);
        if err != None {
          MergeFailure(before, old(View()), old(other.View()), todo, k);
          MergeBetween(View(), old(View()), theirs, todo);
          return;
        }
        todo := todo - {k};
        assert todo + {k} == wasTodo;
        MergeStep(before, View(), old(View()), old(other.View()), todo, k);
      }
      MergeBetween(View(), old(View()), theirs, todo);
      MergeDone(View(), old(View()), old(other.View()));
      return None;
    }
  }

  lemma ValidTreeShape(t: Tree)
    requires ValidTree(t)
    ensures t.Fork? && Placed(t, 0) && Total(Contents(t)) < U64_LIMIT
  {
  }

  // ----- The loop of Merge -----

  lemma NoError()
    ensures UpdateError(None) && UpdateError(Some(AssetTypeMismatch)) && UpdateError(Some(SumOverflow))
  {
  }

  lemma UpsertErrors(s: Inner, a: Asset)
    requires ValidInner(s)
    ensures InnerUpsert(s, a).Err? ==> UpdateError(Some(InnerUpsert(s, a).error))
  {
    hide Leaf, Total, TapCommitmentKey, AssetCommitmentKey;
  }

  /** `now` is `start` with the assets outside `todo` taken over. */
  ghost predicate MergeState(now: Inner, start: Inner, theirs: AssetMap, todo: set<Digest>) {
    && now.tapKey == start.tapKey && now.assetType == start.assetType
    && now.assets == start.assets + (theirs - todo)
    && start.version <= now.version
    && (forall k :: k in theirs && k !in todo ==> theirs[k].version <= now.version)
    && (now.version == start.version || exists k :: k in theirs && k !in todo && theirs[k].version == now.version)
  }

  lemma MergeStart(start: Inner, theirs: AssetMap)
    ensures MergeState(start, start, theirs, theirs.Keys)
  {
    assert theirs - theirs.Keys == map[];
  }

  /** Nothing lost, nothing new: each asset is one of ours or one of theirs. */
  ghost predicate Between(assets: AssetMap, ours: AssetMap, theirs: AssetMap) {
    && ours.Keys <= assets.Keys
    && forall k :: k in assets ==> (k in ours && assets[k] == ours[k]) || (k in theirs && assets[k] == theirs[k])
  }

  lemma MergeBetween(now: Inner, start: Inner, theirs: AssetMap, todo: set<Digest>)
    requires MergeState(now, start, theirs, todo)
    ensures Between(now.assets, start.assets, theirs)
    ensures now.tapKey == start.tapKey && now.assetType == start.assetType
  {
  }

  /** The commitments match and their totals together stay in range. */
  ghost predicate MergeFits(s: Inner, other: Inner)
    requires ValidInner(s) && ValidInner(other)
  {
    && s.assetType == other.assetType && s.tapKey == other.tapKey
    && Total(LeavesOf(s.assets)) + Total(LeavesOf(other.assets)) < U64_LIMIT
  }

  lemma MergeRefused(s: Inner, other: Inner)
    requires ValidInner(s) && ValidInner(other) && s.assetType != other.assetType
    ensures !MergeFits(s, other) && Between(s.assets, s.assets, other.assets)
  {
  }

  lemma MergeStep(before: Inner, after: Inner, start: Inner, other: Inner, todo: set<Digest>, k: Digest)
    requires ValidInner(other) && ValidInner(before)
    requires k in other.assets && k !in todo
    requires MergeState(before, start, other.assets, todo + {k})
    requires InnerUpsert(before, other.assets[k]) == Ok(after)
    ensures MergeState(after, start, other.assets, todo)
  {
    hide Leaf, Total, TapCommitmentKey, AssetCommitmentKey;
    assert AssetCommitmentKey(other.assets[k]) == k;
    OneMoreTaken(start.assets, other.assets, todo, k);
    if after.version != start.version {
      if after.version == before.version {
        var j :| j in other.assets && j !in todo + {k} && other.assets[j].version == before.version;
        assert j in other.assets && j !in todo && other.assets[j].version == after.version;
      } else {
        assert k in other.assets && k !in todo && other.assets[k].version == after.version;
      }
    }
  }

  lemma OneMoreTaken(ours: AssetMap, theirs: AssetMap, todo: set<Digest>, k: Digest)
    requires k in theirs && k !in todo
    ensures ours + (theirs - todo) == (ours + (theirs - (todo + {k})))[k := theirs[k]]
  {
    assert theirs - todo == (theirs - (todo + {k}))[k := theirs[k]];
  }

  lemma TakenLeaves(ours: AssetMap, theirs: AssetMap, todo: set<Digest>)
    requires HaveLeaves(ours) && HaveLeaves(theirs)
    ensures HaveLeaves(ours + (theirs - todo))
    ensures LeavesOf(ours + (theirs - todo)) == LeavesOf(ours) + (LeavesOf(theirs) - todo)
  {
    hide Leaf;
  }

  lemma MergeDone(now: Inner, start: Inner, other: Inner)
    requires MergeState(now, start, other.assets, {})
    ensures now == Merged(start, other)
  {
    assert other.assets - {} == other.assets;
    var versions := AssetVersions(other.assets);
    assert IsMax(versions, MaxOf(versions));
    assert forall k :: k in other.assets ==> other.assets[k].version in versions;
    if now.version != start.version {
      var k :| k in other.assets && other.assets[k].version == now.version;
    }
  }

  /** An upsert of a matching asset can only fail when the two totals together overflow. */
  lemma MergeFailure(before: Inner, start: Inner, other: Inner, todo: set<Digest>, k: Digest)
    requires ValidInner(start) && ValidInner(other) && ValidInner(before)
    requires k in todo && k in other.assets
    requires MergeState(before, start, other.assets, todo)
    requires InnerUpsert(before, other.assets[k]).Err?
    ensures !MergeFits(start, other)
  {
    hide Leaf, Total, TapCommitmentKey, AssetCommitmentKey;
    var a := other.assets[k];
    assert AssetCommitmentKey(a) == k && Belongs(a, other.tapKey, other.assetType);
    if start.assetType == other.assetType && start.tapKey == other.tapKey {
      UpdatedLeaves(before.assets, k, a);
      var rest := todo - {k};
      assert rest + {k} == todo;
      OneMoreTaken(start.assets, other.assets, rest, k);
      TakenLeaves(start.assets, other.assets, rest);
      var l, m := LeavesOf(start.assets), LeavesOf(other.assets);
      TotalOfUnion(l, m - rest);
      TotalOfPart(m, rest);
    }
  }
}
