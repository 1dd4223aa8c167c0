/**
 * History independence: whatever run of updates led to it, a commitment is determined by the
 * assets that survived, its root is the one a fresh commitment to them has, and its root sum is
 * their total amount.
 */
module History {
  import opened Bytes
  import opened Hashing
  import opened SumTree
  import opened TreeProof
  import opened Tlv
  import opened Assets
  import opened Commitment
  import opened CommitmentOps

  /** The committed assets by tap key and asset key. */
  type Ledger = map<(Digest, Digest), Asset>

  ghost function LedgerOf(inners: Inners): Ledger {
    map t, k | t in inners && k in inners[t].assets :: (t, k) := inners[t].assets[k]
  }

  function Place(a: Asset): (Digest, Digest) {
    (TapCommitmentKey(a), AssetCommitmentKey(a))
  }

  /** No empty inner commitment, and every inner version is the maximum of its assets. */
  ghost predicate Canonical(inners: Inners) {
    && ValidInners(inners)
    && forall t :: t in inners ==> inners[t].assets != map[] && Tight(inners[t])
  }

  // ----- A canonical commitment is determined by its ledger -----

  lemma LedgerAt(inners: Inners, t: Digest, k: Digest)
    ensures (t, k) in LedgerOf(inners) <==> t in inners && k in inners[t].assets
    ensures (t, k) in LedgerOf(inners) ==> LedgerOf(inners)[(t, k)] == inners[t].assets[k]
  {
  }

  lemma SameLedgerSameAssets(i: Inners, j: Inners, t: Digest)
    requires LedgerOf(i) == LedgerOf(j) && t in i && i[t].assets != map[]
    ensures t in j && i[t].assets == j[t].assets
  {
    hide LedgerOf;
    var k :| k in i[t].assets;
    LedgerAt(i, t, k);
    LedgerAt(j, t, k);
    forall m ensures m in i[t].assets <==> m in j[t].assets
             ensures m in i[t].assets ==> i[t].assets[m] == j[t].assets[m]
    {
      LedgerAt(i, t, m);
      LedgerAt(j, t, m);
    }
  }

  lemma SameLedgerSameInner(i: Inners, j: Inners, t: Digest)
    requires Canonical(i) && Canonical(j) && LedgerOf(i) == LedgerOf(j) && t in i
    ensures t in j && i[t] == j[t]
  {
    hide Leaf, Total, TapCommitmentKey, AssetCommitmentKey, MaxOf, LedgerOf;
    SameLedgerSameAssets(i, j, t);
    var k :| k in i[t].assets;
    assert Belongs(i[t].assets[k], i[t].tapKey, i[t].assetType) && Belongs(j[t].assets[k], j[t].tapKey, j[t].assetType);
  }

  lemma LedgerDetermines(i: Inners, j: Inners)
    requires Canonical(i) && Canonical(j) && LedgerOf(i) == LedgerOf(j)
    ensures i == j
  {
    hide Canonical, LedgerOf;
    forall t | t in i ensures t in j && i[t] == j[t] { SameLedgerSameInner(i, j, t); }
    forall t | t in j ensures t in i { SameLedgerSameInner(j, i, t); }
  }

  // ----- Versions -----

  lemma MaxOfWith(s: set<nat>, x: nat)
    ensures MaxOf(s + {x}) == if x > MaxOf(s) then x else MaxOf(s)
  {
    var m := if x > MaxOf(s) then x else MaxOf(s);
    assert IsMax(s + {x}, m) && IsMax(s + {x}, MaxOf(s + {x}));
  }

  lemma VersionsWith(assets: AssetMap, k: Digest, a: Asset)
    ensures AssetVersions(assets[k := a]) == AssetVersions(assets - {k}) + {a.version as nat}
  {
    var after, rest := assets[k := a], assets - {k};
    forall v ensures v in AssetVersions(after) <==> v in AssetVersions(rest) + {a.version as nat} {
      if v in AssetVersions(after) {
        var j :| j in after && after[j].version == v;
        assert j == k || j in rest;
      }
      if v in AssetVersions(rest) {
        var j :| j in rest && rest[j].version == v;
        assert after[j].version == v;
      }
      if v == a.version { assert after[k].version == v; }
    }
  }

  lemma MaxWithout(assets: AssetMap, k: Digest)
    ensures MaxOf(AssetVersions(assets - {k})) <= MaxOf(AssetVersions(assets))
  {
    forall j | j in assets - {k} ensures assets[j].version in AssetVersions(assets) { }
  }

  /** Replacing an asset keeps the version exact unless it removes the last one of the top version. */
  lemma UpsertTightIff(s: Inner, a: Asset)
    requires ValidInner(s) && Tight(s) && InnerUpsert(s, a).Ok?
    ensures Tight(InnerUpsert(s, a).value)
            <==> a.version >= s.version || s.version in AssetVersions(s.assets - {AssetCommitmentKey(a)})
  {
    hide Leaf, Total, TapCommitmentKey, AssetCommitmentKey;
    var k := AssetCommitmentKey(a);
    var rest := AssetVersions(s.assets - {k});
    VersionsWith(s.assets, k, a);
    MaxOfWith(rest, a.version as nat);
    MaxWithout(s.assets, k);
    assert IsMax(rest, MaxOf(rest));
  }

  lemma DeleteTight(s: Inner, a: Asset)
    requires Tight(s) && InnerDelete(s, a).Ok?
    ensures Tight(InnerDelete(s, a).value)
  {
  }

  /** A version 1 asset and the same asset at version 0. */
  const NEWER := Asset(1, EMPTY_GENESIS, 5, 0, 0, [], None, 0, BLANK_KEY, None, map[])
  const OLDER := NEWER.(version := 0)

  /**
   * Replacing the only version 1 asset by a version 0 one leaves a commitment to the same assets
   * whose leaf differs from that of a fresh one.
   */
  lemma LowerVersionLeavesATrace()
    ensures ValidInner(Single(NEWER)) && InnerUpsert(Single(NEWER), OLDER).Ok?
    ensures var s := InnerUpsert(Single(NEWER), OLDER).value;
            && ValidInner(s) && ValidInner(Single(OLDER))
            && s.assets == Single(OLDER).assets && InnerLeaf(s) != InnerLeaf(Single(OLDER))
  {
    hide Total, FullRoot, EncodeFields, AssetFields;
    assert Leaf(NEWER).Some? && Leaf(OLDER).Some? by { ExamplesHaveLeaves(); }
    hide Leaf;
    SingleValid(NEWER);
    SingleValid(OLDER);
    var k := AssetCommitmentKey(NEWER);
    assert k == AssetCommitmentKey(OLDER) && TapCommitmentKey(NEWER) == TapCommitmentKey(OLDER);
    LeafNotEmpty(NEWER);
    LeafNotEmpty(OLDER);
    UpdatedLeaves(Single(NEWER).assets, k, OLDER);
    assert Single(NEWER).assets[k := OLDER] == Single(OLDER).assets;
    var s := InnerUpsert(Single(NEWER), OLDER).value;
    UpsertKeepsValid(Single(NEWER), OLDER);
    assert InnerLeaf(s).value[0] == 1 && InnerLeaf(Single(OLDER)).value[0] == 0;
  }

  lemma ExamplesHaveLeaves()
    ensures Leaf(NEWER).Some? && Leaf(OLDER).Some?
  {
    hide EncodeFields, AssetFields;
    assert BLANK_KEY[0] != NIL_KEY[0];
    assert EncodeWitnessList(NEWER.prevWitnesses, true) == Some([]);
    assert EncodeWitnessList(OLDER.prevWitnesses, false) == Some([]);
    assert EncodeTypes(NEWER, true, KNOWN_LEAF_TYPES).Some?;
    assert EncodeTypes(OLDER, false, KNOWN_LEAF_TYPES).Some?;
  }

  lemma MergeTightIff(s: Inner, o: Inner)
    requires ValidInner(s) && Tight(s) && ValidInner(o) && Tight(o)
    ensures Tight(Merged(s, o))
            <==> o.version >= s.version || s.version in AssetVersions(s.assets - o.assets.Keys)
  {
    hide Leaf, Total, TapCommitmentKey, AssetCommitmentKey;
    var kept, union := AssetVersions(s.assets - o.assets.Keys), AssetVersions(s.assets + o.assets);
    forall v ensures v in union <==> v in kept || v in AssetVersions(o.assets) {
      if v in union {
        var k :| k in s.assets + o.assets && (s.assets + o.assets)[k].version == v;
        if k in o.assets {
          assert o.assets[k].version == v;
        } else {
          assert (s.assets - o.assets.Keys)[k].version == v;
        }
      }
      if v in kept {
        var k :| k in s.assets - o.assets.Keys && (s.assets - o.assets.Keys)[k].version == v;
        assert (s.assets + o.assets)[k].version == v;
      }
      if v in AssetVersions(o.assets) {
        var k :| k in o.assets && o.assets[k].version == v;
        assert (s.assets + o.assets)[k].version == v;
      }
    }
    forall v | v in kept ensures v <= s.version {
      var k :| k in s.assets - o.assets.Keys && (s.assets - o.assets.Keys)[k].version == v;
      assert s.assets[k].version == v;
    }
    assert IsMax(union, MaxOf(union)) && IsMax(AssetVersions(o.assets), o.version);
  }

  // ----- Updates -----

  /** The inner commitment updates of a client, each followed by the upsert into the outer one. */
  datatype Op =
    | Put(asset: Asset)
    | Remove(asset: Asset)
    | Drop(tapKey: Digest)
    | MergeIn(other: Outer)

  /** The inner commitment that is placed when an asset is put. */
  ghost function PutInner(s: Outer, a: Asset): Result<Inner, Error>
    requires ValidInners(s.inners)
  {
    var t := TapCommitmentKey(a);
    if t in s.inners then InnerUpsert(s.inners[t], a)
    else if Leaf(a).Some? then Ok(Single(a)) else Err(BadLeaf)
  }

  ghost predicate Places(s: Outer, c: Inner, s': Outer) {
    && ValidInner(c) && ValidInners(s.inners - {c.tapKey}) && OuterUpsert(s, c) == Ok(s')
    && (c.assets != map[] ==> !LooksEmpty(c))
  }

  ghost function MergedAt(i: Inners, j: Inners, t: Digest): Inner
    requires t in i || t in j
  {
    if t !in j then i[t] else if t !in i then j[t] else Merged(i[t], j[t])
  }

  /** What a merge leaves under a key that it visits, unless that is empty, and what was there elsewhere. */
  ghost function MergedInners(i: Inners, j: Inners): Inners {
    map t | t in i.Keys + j.Keys && (t in j ==> MergedAt(i, j, t).assets != map[]) :: MergedAt(i, j, t)
  }

  /** A successful update; no non-empty inner tree has the hash of the empty one. */
  ghost predicate Step(s: Outer, op: Op, s': Outer) {
    && ValidOuter(s) && ValidOuter(s')
    && match op
       case Put(a) => PutInner(s, a).Ok? && Places(s, PutInner(s, a).value, s')
       case Remove(a) =>
         var t := TapCommitmentKey(a);
         && t in s.inners && InnerDelete(s.inners[t], a).Ok?
         && Places(s, InnerDelete(s.inners[t], a).value, s')
       case Drop(t) => s' == OuterDelete(s, t)
       case MergeIn(o) => s' == if o.inners == map[] then s else WithInners(s, MergedInners(s.inners, o.inners))
  }

  /** No update replaces the last asset of an inner commitment's top version by lower ones. */
  ghost predicate NoDowngrade(s: Outer, op: Op) {
    match op
    case Put(a) =>
      var t := TapCommitmentKey(a);
      t in s.inners ==>
        a.version >= s.inners[t].version
        || s.inners[t].version in AssetVersions(s.inners[t].assets - {AssetCommitmentKey(a)})
    case MergeIn(o) =>
      forall t :: t in s.inners && t in o.inners ==>
        o.inners[t].version >= s.inners[t].version
        || s.inners[t].version in AssetVersions(s.inners[t].assets - o.inners[t].assets.Keys)
    case _ => true
  }

  ghost function LedgerStep(m: Ledger, op: Op): Ledger {
    match op
    case Put(a) => m[Place(a) := a]
    case Remove(a) => m - {Place(a)}
    case Drop(t) => map p | p in m && p.0 != t :: m[p]
    case MergeIn(o) => m + LedgerOf(o.inners)
  }

  /** Canonical, and of the version its contents call for. */
  ghost predicate CanonicalOuter(s: Outer) {
    ValidOuter(s) && Canonical(s.inners) && (s.version == V2 || s.version == MaxOf(InnerVersions(s.inners)))
  }

  lemma PlacedCanonical(s: Outer, c: Inner, s': Outer)
    requires Canonical(s.inners) && Places(s, c, s') && Tight(c)
    ensures Canonical(s'.inners)
  {
    hide ValidInner, Tight, Total, LooksEmpty, OuterLeaves, UpdatedVersion;
    PlacedInners(s, c, s');
  }

  ghost function AssetsUnder(i: Inners, t: Digest): AssetMap {
    if t in i then i[t].assets else map[]
  }

  lemma PutLedger(i: Inners, j: Inners, c: Inner, a: Asset)
    requires ValidInners(i) && c.tapKey == TapCommitmentKey(a)
    requires c.assets == AssetsUnder(i, c.tapKey)[AssetCommitmentKey(a) := a]
    requires j == i[c.tapKey := c]
    ensures LedgerOf(j) == LedgerOf(i)[Place(a) := a]
  {
    hide ValidInner, TapCommitmentKey, AssetCommitmentKey, LedgerOf;
    forall t, k ensures (t, k) in LedgerOf(j) <==> (t, k) in LedgerOf(i)[Place(a) := a]
                ensures (t, k) in LedgerOf(j) ==> LedgerOf(j)[(t, k)] == LedgerOf(i)[Place(a) := a][(t, k)]
    {
      LedgerAt(i, t, k);
      LedgerAt(j, t, k);
    }
    SameLedger(LedgerOf(j), LedgerOf(i)[Place(a) := a]);
  }

  lemma RemoveLedger(i: Inners, j: Inners, c: Inner, a: Asset)
    requires c.tapKey == TapCommitmentKey(a) && c.tapKey in i
    requires c.assets == i[c.tapKey].assets - {AssetCommitmentKey(a)}
    requires j == if c.assets == map[] then i - {c.tapKey} else i[c.tapKey := c]
    ensures LedgerOf(j) == LedgerOf(i) - {Place(a)}
  {
    hide TapCommitmentKey, AssetCommitmentKey, LedgerOf;
    forall t, k ensures (t, k) in LedgerOf(j) <==> (t, k) in LedgerOf(i) - {Place(a)}
                ensures (t, k) in LedgerOf(j) ==> LedgerOf(j)[(t, k)] == LedgerOf(i)[(t, k)]
    {
      LedgerAt(i, t, k);
      LedgerAt(j, t, k);
      if t == c.tapKey { assert k in i[t].assets && k != AssetCommitmentKey(a) ==> k in c.assets; }
    }
    SameLedger(LedgerOf(j), LedgerOf(i) - {Place(a)});
  }

  lemma SameLedger(m: Ledger, n: Ledger)
    requires forall t, k :: (t, k) in m <==> (t, k) in n
    requires forall t, k :: (t, k) in m ==> m[(t, k)] == n[(t, k)]
    ensures m == n
  {
    forall p ensures p in m <==> p in n
             ensures p in m ==> m[p] == n[p]
    {
      var (t, k) := p;
      assert (t, k) in m <==> (t, k) in n;
    }
  }

  lemma DropAt(m: Ledger, t: Digest, u: Digest, k: Digest)
    ensures (u, k) in LedgerStep(m, Drop(t)) <==> (u, k) in m && u != t
    ensures (u, k) in LedgerStep(m, Drop(t)) ==> LedgerStep(m, Drop(t))[(u, k)] == m[(u, k)]
  {
  }

  lemma DropLedger(i: Inners, t: Digest)
    ensures LedgerOf(i - {t}) == LedgerStep(LedgerOf(i), Drop(t))
  {
    hide LedgerOf, LedgerStep;
    var after := LedgerStep(LedgerOf(i), Drop(t));
    forall u, k ensures (u, k) in LedgerOf(i - {t}) <==> (u, k) in after
                ensures (u, k) in LedgerOf(i - {t}) ==> LedgerOf(i - {t})[(u, k)] == after[(u, k)]
    {
      LedgerAt(i, u, k);
      LedgerAt(i - {t}, u, k);
      DropAt(LedgerOf(i), t, u, k);
    }
    SameLedger(LedgerOf(i - {t}), after);
  }

  lemma MergeLedger(i: Inners, j: Inners)
    ensures LedgerOf(MergedInners(i, j)) == LedgerOf(i) + LedgerOf(j)
  {
    hide LedgerOf;
    var m := MergedInners(i, j);
    forall t, k ensures (t, k) in LedgerOf(m) <==> (t, k) in LedgerOf(i) + LedgerOf(j)
                ensures (t, k) in LedgerOf(m) ==> LedgerOf(m)[(t, k)] == (LedgerOf(i) + LedgerOf(j))[(t, k)]
    {
      LedgerAt(i, t, k);
      LedgerAt(j, t, k);
      LedgerAt(m, t, k);
    }
    SameLedger(LedgerOf(m), LedgerOf(i) + LedgerOf(j));
  }

  /** What a placement leaves under the keys, canonical or not. */
  lemma PlacedInners(s: Outer, c: Inner, s': Outer)
    requires Places(s, c, s')
    ensures s'.inners == if c.assets == map[] then s.inners - {c.tapKey} else s.inners[c.tapKey := c]
  {
    hide ValidInner, Total, LooksEmpty, OuterLeaves, UpdatedVersion;
    if c.assets == map[] { EmptyLooksEmpty(c); }
  }

  lemma PutInnerAssets(s: Outer, a: Asset)
    requires ValidInners(s.inners) && PutInner(s, a).Ok?
    ensures var c := PutInner(s, a).value;
            && c.tapKey == TapCommitmentKey(a) && c.assets != map[]
            && c.assets == AssetsUnder(s.inners, c.tapKey)[AssetCommitmentKey(a) := a]
  {
    hide Total, Leaf, MaxOf, TapCommitmentKey, AssetCommitmentKey;
    assert AssetCommitmentKey(a) in PutInner(s, a).value.assets;
  }

  /** Every successful update does to the ledger what it says, downgrade or not. */
  lemma StepLedger(s: Outer, op: Op, s': Outer)
    requires Step(s, op, s')
    ensures LedgerOf(s'.inners) == LedgerStep(LedgerOf(s.inners), op)
  {
    hide ValidInner, Total, LooksEmpty, OuterLeaves, LedgerOf, MaxOf, InnerUpsert, InnerDelete, Leaf,
         TapCommitmentKey, AssetCommitmentKey, UpdatedVersion, OuterUpsert;
    match op
    case Put(a) =>
      var c := PutInner(s, a).value;
      PutInnerAssets(s, a);
      PlacedInners(s, c, s');
      PutLedger(s.inners, s'.inners, c, a);
    case Remove(a) =>
      var t := TapCommitmentKey(a);
      var c := InnerDelete(s.inners[t], a).value;
      DeletedAssets(s.inners[t], a);
      PlacedInners(s, c, s');
      RemoveLedger(s.inners, s'.inners, c, a);
    case Drop(t) =>
      DropLedger(s.inners, t);
    case MergeIn(o) =>
      MergeLedger(s.inners, o.inners);
      if o.inners == map[] { EmptyLedger(o.inners); }
  }

  /** Without a downgrade it also keeps the commitment canonical. */
  lemma StepKeepsCanonical(s: Outer, op: Op, s': Outer)
    requires CanonicalOuter(s) && Step(s, op, s') && NoDowngrade(s, op)
    requires op.MergeIn? ==> Canonical(op.other.inners)
    ensures CanonicalOuter(s')
  {
    hide ValidInner, Tight, Total, LooksEmpty, OuterLeaves, LedgerOf, MaxOf, InnerUpsert, InnerDelete, Leaf,
         TapCommitmentKey, AssetCommitmentKey;
    match op
    case Put(a) =>
      PutInnerTight(s, a);
      PlacedCanonical(s, PutInner(s, a).value, s');
    case Remove(a) =>
      var t := TapCommitmentKey(a);
      DeleteTight(s.inners[t], a);
      DeletedAssets(s.inners[t], a);
      PlacedCanonical(s, InnerDelete(s.inners[t], a).value, s');
    case Drop(t) =>
    case MergeIn(o) =>
      if o.inners != map[] { MergedCanonical(s.inners, o.inners, s'.inners); }
  }

  lemma PutInnerTight(s: Outer, a: Asset)
    requires Canonical(s.inners) && PutInner(s, a).Ok? && NoDowngrade(s, Put(a))
    ensures var c := PutInner(s, a).value;
            Tight(c) && c.tapKey == TapCommitmentKey(a) && c.assets != map[]
  {
    hide Total, Leaf, MaxOf, TapCommitmentKey, AssetCommitmentKey, InnerUpsert, Tight;
    PutInnerAssets(s, a);
    var t := TapCommitmentKey(a);
    if t in s.inners { UpsertTightIff(s.inners[t], a); } else { SingleValid(a); }
  }

  lemma DeletedAssets(s: Inner, a: Asset)
    requires InnerDelete(s, a).Ok?
    ensures var c := InnerDelete(s, a).value;
            c.tapKey == s.tapKey == TapCommitmentKey(a) && c.assets == s.assets - {AssetCommitmentKey(a)}
  {
  }

  lemma MergedCanonical(i: Inners, j: Inners, m: Inners)
    requires Canonical(i) && Canonical(j) && m == MergedInners(i, j) && ValidInners(m)
    requires forall t :: t in i && t in j ==>
               j[t].version >= i[t].version || i[t].version in AssetVersions(i[t].assets - j[t].assets.Keys)
    ensures Canonical(m)
  {
    hide ValidInner, Tight, Total, MaxOf, AssetVersions;
    forall t | t in m ensures m[t].assets != map[] && Tight(m[t]) {
      if t in i && t in j {
        MergeTightIff(i[t], j[t]);
        var k :| k in j[t].assets;
        assert k in m[t].assets;
      }
    }
  }

  // ----- Amounts -----

  ghost function Amounts(m: Ledger): nat {
    if m == map[] then 0 else var p :| p in m; m[p].amount + Amounts(m - {p})
  }

  lemma {:induction false} AmountsRemove(m: Ledger, p: (Digest, Digest))
    requires p in m
    ensures Amounts(m) == m[p].amount + Amounts(m - {p})
    decreases m.Keys
  {
    var q :| q in m && Amounts(m) == m[q].amount + Amounts(m - {q});
    if q != p {
      AmountsRemove(m - {q}, p);
      AmountsRemove(m - {p}, q);
      assert m - {q} - {p} == m - {p} - {q};
    }
  }

  /** The part of a ledger under one tap key. */
  ghost function Slice(t: Digest, assets: AssetMap): Ledger {
    map k | k in assets :: (t, k) := assets[k]
  }

  lemma SliceStep(m: Ledger, t: Digest, assets: AssetMap, k: Digest)
    requires k in assets && forall j :: j in assets ==> (t, j) !in m
    ensures var union := m + Slice(t, assets);
            && (t, k) in union && union[(t, k)] == assets[k]
            && union - {(t, k)} == m + Slice(t, assets - {k})
  {
    assert Slice(t, assets)[(t, k)] == assets[k];
    assert Slice(t, assets - {k}) == Slice(t, assets) - {(t, k)};
  }

  lemma {:induction false} AmountsOfUnion(m: Ledger, t: Digest, assets: AssetMap)
    requires HaveLeaves(assets)
    requires forall k :: k in assets ==> (t, k) !in m
    ensures Amounts(m + Slice(t, assets)) == Amounts(m) + Total(LeavesOf(assets))
    decreases assets.Keys
  {
    hide Leaf, Amounts, Total, Slice;
    if assets == map[] {
      assert m + Slice(t, assets) == m by { EmptySlice(t); }
      assert LeavesOf(assets) == map[];
      TotalOfNothing();
    } else {
      var k :| k in assets;
      AmountsOfUnion(m, t, assets - {k});
      SliceStep(m, t, assets, k);
      AmountsRemove(m + Slice(t, assets), (t, k));
      TotalRemove(LeavesOf(assets), k);
      assert LeavesOf(assets - {k}) == LeavesOf(assets) - {k};
      LeafNotEmpty(assets[k]);
    }
  }

  lemma EmptySlice(t: Digest)
    ensures Slice(t, map[]) == map[]
  {
  }

  lemma {:induction false} OuterTotal(inners: Inners)
    requires ValidInners(inners)
    ensures Total(OuterLeaves(inners)) == Amounts(LedgerOf(inners))
    decreases inners.Keys
  {
    hide ValidInner, InnerLeaf, LedgerOf, Total, Amounts, Leaf;
    if inners == map[] {
      assert OuterLeaves(inners) == map[];
      assert LedgerOf(inners) == map[] by { EmptyLedger(inners); }
      EmptyAmounts();
      TotalOfNothing();
    } else {
      var t :| t in inners;
      var rest := inners - {t};
      OuterTotal(rest);
      RemovedOuterLeaves(inners, t);
      TotalRemove(OuterLeaves(inners), t);
      assert OuterLeaves(rest) == OuterLeaves(inners) - {t};
      LedgerSplits(inners, t);
      assert ValidInner(inners[t]);
      InnersHaveLeaves(inners[t]);
      AmountsOfUnion(LedgerOf(rest), t, inners[t].assets);
    }
  }

  lemma EmptyLedger(inners: Inners)
    requires inners == map[]
    ensures LedgerOf(inners) == map[]
  {
  }

  lemma EmptyAmounts()
    ensures Amounts(map[]) == 0
  {
  }

  lemma LedgerSplits(inners: Inners, t: Digest)
    requires t in inners
    ensures LedgerOf(inners) == LedgerOf(inners - {t}) + Slice(t, inners[t].assets)
    ensures forall k :: k in inners[t].assets ==> (t, k) !in LedgerOf(inners - {t})
  {
    hide LedgerOf;
    forall u, k ensures (u, k) in LedgerOf(inners) <==> (u, k) in LedgerOf(inners - {t}) + Slice(t, inners[t].assets)
                ensures (u, k) in LedgerOf(inners) ==>
                  LedgerOf(inners)[(u, k)] == (LedgerOf(inners - {t}) + Slice(t, inners[t].assets))[(u, k)]
                ensures u == t ==> (u, k) !in LedgerOf(inners - {t})
    {
      LedgerAt(inners, u, k);
      LedgerAt(inners - {t}, u, k);
    }
    SameLedger(LedgerOf(inners), LedgerOf(inners - {t}) + Slice(t, inners[t].assets));
  }

  /** The root sum of a valid commitment is the total amount of the committed assets. */
  lemma RootSumIsAmount(s: Outer)
    requires ValidOuter(s)
    ensures OuterRoot(s).Sum() == Amounts(LedgerOf(s.inners)) < U64_LIMIT
  {
    hide FullRoot, Total, OuterLeaves, LedgerOf, Amounts;
    OuterTotal(s.inners);
    FullRootSum(OuterLeaves(s.inners));
  }

  // ----- Building from the survivors -----

  /** The list holds the assets of the ledger, each once, in any order. */
  ghost predicate Lists(assets: seq<Asset>, m: Ledger) {
    && (forall i :: 0 <= i < |assets| ==> Place(assets[i]) in m && m[Place(assets[i])] == assets[i])
    && (forall i, j :: 0 <= i < j < |assets| ==> Place(assets[i]) != Place(assets[j]))
    && (forall p :: p in m ==> exists i :: 0 <= i < |assets| && Place(assets[i]) == p)
  }

  ghost function LedgerOfList(assets: seq<Asset>): Ledger {
    if assets == [] then map[]
    else LedgerOfList(assets[..|assets| - 1])[Place(assets[|assets| - 1]) := assets[|assets| - 1]]
  }

  /** Parts of the inner commitments of `whole`. */
  ghost predicate PartOf(part: Inners, whole: Inners) {
    forall t :: t in part ==> t in whole && InnerPartOf(part[t], whole[t])
  }

  lemma PartTotal(part: AssetMap, whole: AssetMap)
    requires HaveLeaves(whole)
    requires forall k :: k in part ==> k in whole && part[k] == whole[k]
    ensures HaveLeaves(part) && Total(LeavesOf(part)) <= Total(LeavesOf(whole))
  {
    hide Leaf, Total;
    var l := LeavesOf(whole);
    assert LeavesOf(part) == l - (l.Keys - part.Keys);
    TotalOfPart(l, l.Keys - part.Keys);
  }

  lemma NotYetListed(assets: seq<Asset>, p: (Digest, Digest))
    ensures p in LedgerOfList(assets) ==> exists i :: 0 <= i < |assets| && Place(assets[i]) == p
  {
    hide Place;
    if p in LedgerOfList(assets) && p != Place(assets[|assets| - 1]) {
      NotYetListed(assets[..|assets| - 1], p);
      var i :| 0 <= i < |assets| - 1 && Place(assets[..|assets| - 1][i]) == p;
      assert Place(assets[i]) == p;
    }
  }

  ghost predicate InnerPartOf(part: Inner, whole: Inner) {
    && part.assetType == whole.assetType && part.tapKey == whole.tapKey
    && forall k :: k in part.assets ==> k in whole.assets && part.assets[k] == whole.assets[k]
  }

  lemma AddToInner(part: Inner, whole: Inner, a: Asset)
    requires ValidInner(part) && ValidInner(whole) && InnerPartOf(part, whole) && Tight(part) && part.assets != map[]
    requires var k := AssetCommitmentKey(a); k in whole.assets && whole.assets[k] == a && k !in part.assets
    ensures InnerUpsert(part, a).Ok?
    ensures var c := InnerUpsert(part, a).value;
            && ValidInner(c) && Tight(c) && c.assets != map[] && InnerPartOf(c, whole)
            && c.assets == part.assets[AssetCommitmentKey(a) := a] && TapCommitmentKey(a) == c.tapKey
  {
    hide Leaf, Total, TapCommitmentKey, AssetCommitmentKey, MaxOf, Tight;
    var k := AssetCommitmentKey(a);
    assert Belongs(a, whole.tapKey, whole.assetType);
    UpdatedLeaves(part.assets, k, a);
    PartTotal(part.assets[k := a], whole.assets);
    UpsertKeepsValid(part, a);
    NewKeyKeepsTight(part, a);
  }

  lemma SingleInner(whole: Inner, a: Asset)
    requires ValidInner(whole)
    requires var k := AssetCommitmentKey(a); k in whole.assets && whole.assets[k] == a
    ensures Leaf(a).Some? && ValidInner(Single(a)) && Tight(Single(a)) && Single(a).assets != map[]
    ensures InnerPartOf(Single(a), whole)
  {
    hide Leaf, Total, TapCommitmentKey, AssetCommitmentKey, MaxOf, Tight;
    assert Belongs(a, whole.tapKey, whole.assetType);
    SingleValid(a);
    assert AssetCommitmentKey(a) in Single(a).assets;
  }

  /** One more asset of a larger canonical commitment can always be added, and keeps the rest canonical. */
  lemma AddSurvivor(part: Inners, whole: Inners, a: Asset)
    requires Canonical(part) && Canonical(whole) && PartOf(part, whole)
    requires Place(a) in LedgerOf(whole) && LedgerOf(whole)[Place(a)] == a && Place(a) !in LedgerOf(part)
    ensures AddAsset(part, a).Ok?
    ensures var r := AddAsset(part, a).value;
            Canonical(r) && PartOf(r, whole) && LedgerOf(r) == LedgerOf(part)[Place(a) := a]
  {
    hide ValidInner, InnerPartOf, InnerUpsert, Single, Leaf, TapCommitmentKey, AssetCommitmentKey, LedgerOf, Tight;
    var t, k := TapCommitmentKey(a), AssetCommitmentKey(a);
    LedgerAt(whole, t, k);
    LedgerAt(part, t, k);
    if t in part { AddToInner(part[t], whole[t], a); } else { SingleInner(whole[t], a); SingleAssets(a); }
    var r := AddAsset(part, a).value;
    PutLedger(part, r, r[t], a);
  }

  lemma SingleAssets(a: Asset)
    ensures Single(a).assets == map[AssetCommitmentKey(a) := a] && Single(a).tapKey == TapCommitmentKey(a)
  {
  }

  lemma NewKeyKeepsTight(s: Inner, a: Asset)
    requires ValidInner(s) && Tight(s) && s.assets != map[] && InnerUpsert(s, a).Ok?
    requires AssetCommitmentKey(a) !in s.assets
    ensures Tight(InnerUpsert(s, a).value) && InnerUpsert(s, a).value.assets != map[]
  {
    hide Leaf, Total, TapCommitmentKey, AssetCommitmentKey, MaxOf;
    UpsertTightIff(s, a);
    assert s.assets - {AssetCommitmentKey(a)} == s.assets;
    assert IsMax(AssetVersions(s.assets), s.version);
    assert AssetCommitmentKey(a) in InnerUpsert(s, a).value.assets;
  }

  lemma {:induction false} GatherSurvivors(assets: seq<Asset>, whole: Inners)
    requires Canonical(whole)
    requires forall i :: 0 <= i < |assets| ==>
               Place(assets[i]) in LedgerOf(whole) && LedgerOf(whole)[Place(assets[i])] == assets[i]
    requires forall i, j :: 0 <= i < j < |assets| ==> Place(assets[i]) != Place(assets[j])
    ensures Gather(assets).Ok?
    ensures var r := Gather(assets).value;
            Canonical(r) && PartOf(r, whole) && LedgerOf(r) == LedgerOfList(assets)
  {
    hide LedgerOf, AddAsset, Place, Tight, ValidInner;
    if assets == [] {
      EmptyLedger(map[]);
    } else {
      var last := |assets| - 1;
      GatherSurvivors(assets[..last], whole);
      NotYetListed(assets[..last], Place(assets[last]));
      AddSurvivor(Gather(assets[..last]).value, whole, assets[last]);
    }
  }

  lemma {:induction false} ListedLedger(assets: seq<Asset>, p: (Digest, Digest))
    requires forall i, j :: 0 <= i < j < |assets| ==> Place(assets[i]) != Place(assets[j])
    ensures forall i :: 0 <= i < |assets| && Place(assets[i]) == p ==>
              p in LedgerOfList(assets) && LedgerOfList(assets)[p] == assets[i]
  {
    hide Place;
    if assets != [] {
      var last := |assets| - 1;
      ListedLedger(assets[..last], p);
      forall i | 0 <= i < |assets| && Place(assets[i]) == p
        ensures p in LedgerOfList(assets) && LedgerOfList(assets)[p] == assets[i]
      {
        if i < last { assert assets[..last][i] == assets[i]; }
      }
    }
  }

  lemma ListIsLedger(assets: seq<Asset>, m: Ledger)
    requires Lists(assets, m)
    ensures LedgerOfList(assets) == m
  {
    hide Place;
    forall p ensures p in LedgerOfList(assets) <==> p in m
             ensures p in m ==> LedgerOfList(assets)[p] == m[p]
    {
      NotYetListed(assets, p);
      ListedLedger(assets, p);
    }
  }

  /** Version 2 has to be asked for, any other follows from the contents. */
  ghost function VersionAskedFor(s: Outer): Option<byte> {
    if s.version == V2 then Some(V2) else None
  }

  /** A fresh commitment to the survivors, listed in any order, is the very same commitment. */
  lemma FreshCommitmentIsSame(s: Outer, assets: seq<Asset>)
    requires CanonicalOuter(s) && Lists(assets, LedgerOf(s.inners))
    ensures FromAssets(VersionAskedFor(s), assets) == Ok(s)
  {
    hide LedgerOf, Canonical, Total, OuterLeaves, MaxOf;
    GatherSurvivors(assets, s.inners);
    ListIsLedger(assets, LedgerOf(s.inners));
    LedgerDetermines(Gather(assets).value, s.inners);
  }

  lemma AddedCanonical(part: Inners, a: Asset)
    requires Canonical(part) && Place(a) !in LedgerOf(part) && AddAsset(part, a).Ok?
    ensures Canonical(AddAsset(part, a).value) && LedgerOf(AddAsset(part, a).value) == LedgerOf(part)[Place(a) := a]
  {
    hide ValidInner, InnerUpsert, Single, Leaf, TapCommitmentKey, AssetCommitmentKey, LedgerOf, Tight;
    var t, k := TapCommitmentKey(a), AssetCommitmentKey(a);
    LedgerAt(part, t, k);
    var r := AddAsset(part, a).value;
    AddAssetValid(part, a);
    if t in part { NewKeyKeepsTight(part[t], a); } else { SingleValid(a); SingleAssets(a); }
    AddedAssets(part, a);
    assert k in r[t].assets;
    assert Tight(r[t]);
    forall u | u in r && u != t ensures r[u] == part[u] { }
    PutLedger(part, r, r[t], a);
  }

  lemma AddedAssets(part: Inners, a: Asset)
    requires ValidInners(part) && AddAsset(part, a).Ok?
    ensures var r, t := AddAsset(part, a).value, TapCommitmentKey(a);
            && t in r && r == part[t := r[t]] && r[t].tapKey == t
            && r[t].assets == AssetsUnder(part, t)[AssetCommitmentKey(a) := a]
  {
    hide Total, Leaf, MaxOf, TapCommitmentKey, AssetCommitmentKey;
  }

  /** A commitment made from a list without repetition is always canonical. */
  lemma {:induction false} GatherCanonical(assets: seq<Asset>)
    requires forall i, j :: 0 <= i < j < |assets| ==> Place(assets[i]) != Place(assets[j])
    requires Gather(assets).Ok?
    ensures Canonical(Gather(assets).value) && LedgerOf(Gather(assets).value) == LedgerOfList(assets)
  {
    hide LedgerOf, AddAsset, Place, Tight, ValidInner;
    if assets == [] {
      EmptyLedger(map[]);
    } else {
      var last := |assets| - 1;
      GatherCanonical(assets[..last]);
      NotYetListed(assets[..last], Place(assets[last]));
      AddedCanonical(Gather(assets[..last]).value, assets[last]);
    }
  }

  /** A fresh commitment to the assets of a commitment is that commitment exactly when it is canonical. */
  lemma FreshIffCanonical(s: Outer, assets: seq<Asset>)
    requires ValidOuter(s) && Lists(assets, LedgerOf(s.inners))
    ensures FromAssets(VersionAskedFor(s), assets) == Ok(s) <==> CanonicalOuter(s)
  {
    hide LedgerOf, Canonical, Total, OuterLeaves, MaxOf, Place;
    if CanonicalOuter(s) {
      FreshCommitmentIsSame(s, assets);
    } else if Gather(assets).Ok? {
      GatherCanonical(assets);
    }
  }

  // ----- Runs -----

  ghost predicate Run(states: seq<Outer>, ops: seq<Op>) {
    |states| == |ops| + 1 && forall i :: 0 <= i < |ops| ==> Step(states[i], ops[i], states[i + 1])
  }

  /** No update downgrades, and what is merged in is canonical. */
  ghost predicate Clean(states: seq<Outer>, ops: seq<Op>)
    requires |states| == |ops| + 1
  {
    forall i :: 0 <= i < |ops| ==>
      NoDowngrade(states[i], ops[i]) && (ops[i].MergeIn? ==> Canonical(ops[i].other.inners))
  }

  ghost function LedgerRun(m: Ledger, ops: seq<Op>): Ledger {
    if ops == [] then m else LedgerStep(LedgerRun(m, ops[..|ops| - 1]), ops[|ops| - 1])
  }

  /** After any run of updates the commitment holds what a plain map would hold, and its root sum is the map's total. */
  lemma {:induction false} ContentsAfterRun(states: seq<Outer>, ops: seq<Op>)
    requires Run(states, ops) && ValidOuter(states[0])
    ensures var last := states[|ops|];
            var survivors := LedgerRun(LedgerOf(states[0].inners), ops);
            ValidOuter(last) && LedgerOf(last.inners) == survivors && OuterRoot(last).Sum() == Amounts(survivors)
  {
    hide Step, LedgerOf, LedgerStep, Amounts, FullRoot, ValidOuter;
    var last := states[|ops|];
    if ops != [] {
      var n := |ops| - 1;
      ContentsAfterRun(states[..|ops|], ops[..n]);
      assert states[..|ops|][n] == states[n];
      StepLedger(states[n], ops[n], last);
      StepIsValid(states[n], ops[n], last);
    }
    RootSumIsAmount(last);
  }

  lemma StepIsValid(s: Outer, op: Op, s': Outer)
    requires Step(s, op, s')
    ensures ValidOuter(s) && ValidOuter(s')
  {
  }

  lemma {:induction false} CleanRunsStayCanonical(states: seq<Outer>, ops: seq<Op>)
    requires Run(states, ops) && Clean(states, ops) && CanonicalOuter(states[0])
    ensures CanonicalOuter(states[|ops|])
  {
    hide Step, NoDowngrade, CanonicalOuter, Canonical;
    if ops != [] {
      var n := |ops| - 1;
      CleanRunsStayCanonical(states[..|ops|], ops[..n]);
      assert states[..|ops|][n] == states[n];
      StepKeepsCanonical(states[n], ops[n], states[|ops|]);
    }
  }

  /**
   * After any run of updates the commitment holds what a plain map would hold and sums to it. A fresh
   * commitment to the survivors, in any order, has the same state and root exactly when the commitment is
   * canonical, and that it is after every run without a downgrade.
   */
  lemma HistoryIndependence(states: seq<Outer>, ops: seq<Op>)
    requires Run(states, ops) && ValidOuter(states[0])
    ensures var last := states[|ops|];
            var survivors := LedgerRun(LedgerOf(states[0].inners), ops);
            && ValidOuter(last) && LedgerOf(last.inners) == survivors
            && OuterRoot(last).Sum() == Amounts(survivors)
            && (CanonicalOuter(states[0]) && Clean(states, ops) ==> CanonicalOuter(last))
            && forall assets :: Lists(assets, survivors) ==>
                 (FromAssets(VersionAskedFor(last), assets) == Ok(last) <==> CanonicalOuter(last))
  {
    hide Run, Clean, LedgerOf, LedgerRun, CanonicalOuter, Amounts, Lists, FromAssets, FullRoot, ValidOuter;
    RunLength(states, ops);
    ContentsAfterRun(states, ops);
    var last := states[|ops|];
    if CanonicalOuter(states[0]) && Clean(states, ops) { CleanRunsStayCanonical(states, ops); }
    forall assets | Lists(assets, LedgerOf(last.inners))
      ensures FromAssets(VersionAskedFor(last), assets) == Ok(last) <==> CanonicalOuter(last)
    {
      FreshIffCanonical(last, assets);
    }
  }

  lemma RunLength(states: seq<Outer>, ops: seq<Op>)
    requires Run(states, ops)
    ensures |states| == |ops| + 1
  {
  }
}
