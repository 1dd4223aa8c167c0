/** Commitments made from lists of assets, and from another commitment without its alternative leaves. */
module CommitmentBuild {
  import opened Bytes
  import opened Hashing
  import opened SumTree
  import opened Assets
  import opened Commitment
  import opened CommitmentOps
  import opened AssetCommitments
  import opened TapCommitments
  import opened AltLeaves
  import opened History

  lemma ListAppend(cs: seq<AssetCommitment>, c: AssetCommitment)
    ensures ListViews(cs + [c]) == ListViews(cs) + [c.View()]
  {
  }

  lemma CollectAppend(views: seq<Inner>, v: Inner)
    ensures Collect(views + [v]) == CollectNext(Collect(views), v)
  {
    assert (views + [v])[..|views|] == views;
  }

  lemma DistinctAppend(views: seq<Inner>, v: Inner)
    requires DistinctTapKeys(views) && v.tapKey !in Collect(views)
    ensures DistinctTapKeys(views + [v])
  {
    hide Collect;
    forall i | 0 <= i < |views| ensures views[i].tapKey != v.tapKey { CollectDistinct(views, views[i].tapKey); }
  }

  /** The commitments of a map as a list, in any order. */
  method Values(m: Commitments) returns (cs: seq<AssetCommitment>)
    requires AllValid(m)
    ensures forall i :: 0 <= i < |cs| ==> cs[i] in m.Values && cs[i].Valid()
    ensures DistinctTapKeys(ListViews(cs)) && Collect(ListViews(cs)) == Views(m)
  {
    hide Consistent, Collect, DistinctTapKeys, ListViews;
    cs := [];
    var todo := m.Keys;
    NoneListed();
    assert m - m.Keys == map[];
    while todo != {}
      invariant todo <= m.Keys
      invariant forall i :: 0 <= i < |cs| ==> cs[i] in m.Values && cs[i].Valid()
      invariant DistinctTapKeys(ListViews(cs)) && Collect(ListViews(cs)) == Views(m - todo)
      decreases todo
    {
      var k :| k in todo;
      ghost var views := ListViews(cs);
      ListAppend(cs, m[k]);
      CollectAppend(views, m[k].View());
      DistinctAppend(views, m[k].View());
      cs := cs + [m[k]];
      todo := todo - {k};
      assert Views(m - todo) == CollectNext(Collect(views), m[k].View());
    }
    assert m - {} == m;
  }

  lemma NoneListed()
    ensures ListViews([]) == [] && Collect([]) == map[] && DistinctTapKeys([])
  {
  }

  lemma GatherStep(assets: seq<Asset>, i: nat)
    requires i < |assets|
    ensures Gather(assets[..0]) == Ok(map[])
    ensures Gather(assets[..i]).Err? ==> Gather(assets[..i + 1]).Err?
    ensures Gather(assets[..i]).Ok? ==> Gather(assets[..i + 1]) == AddAsset(Gather(assets[..i]).value, assets[i])
  {
    hide AddAsset, ValidInners;
    assert assets[..i + 1][..i] == assets[..i];
  }

  lemma {:induction false} GatherFails(assets: seq<Asset>, i: nat)
    requires i <= |assets| && Gather(assets[..i]).Err?
    ensures Gather(assets).Err?
    decreases |assets| - i
  {
    hide Gather;
    if i < |assets| {
      GatherStep(assets, i);
      GatherFails(assets, i + 1);
    } else {
      assert assets[..i] == assets;
    }
  }

  /** Sorts assets into fresh inner commitments by tap key. */
  method GatherAssets(assets: seq<Asset>) returns (r: Result<Commitments, Error>)
    ensures r.Ok? <==> Gather(assets).Ok?
    ensures r.Ok? ==> AllValid(r.value) && fresh(r.value.Values) && Views(r.value) == Gather(assets).value
  {
    hide Consistent, Gather, AddAsset, Committable, NewInner, ValidInners;
    var m: Commitments := map[];
    var i := 0;
    assert Gather(assets[..0]) == Ok(map[]) by { assert assets[..0] == []; GatherNothing(); }
    while i < |assets|
      invariant 0 <= i <= |assets|
      invariant AllValid(m) && fresh(m.Values) && Gather(assets[..i]) == Ok(Views(m))
    {
      GatherStep(assets, i);
      var err;
      err, m := AddOne(m, assets[i]);
      if err != None {
        GatherFails(assets, i + 1);
        return Err(err.value);
      }
      i := i + 1;
    }
    assert assets[..i] == assets;
    return Ok(m);
  }

  lemma GatherNothing()
    ensures Gather([]) == Ok(map[])
  {
  }

  method AddOne(m: Commitments, a: Asset) returns (err: Option<Error>, m': Commitments)
    requires AllValid(m)
    modifies m.Values
    ensures old(ValidInners(Views(m)))
    ensures match old(AddAsset(Views(m), a))
            case Ok(inners) => err == None && AllValid(m') && Views(m') == inners
            case Err(e) => err.Some?
    ensures err == None ==> forall c :: c in m'.Values ==> c in m.Values || fresh(c)
  {
    hide Consistent, InnerUpsert, Leaf, Committable, NewInner, TapCommitmentKey, AssetCommitmentKey, ValidInner;
    AllValidViews(m);
    var t := TapCommitmentKey(a);
    m' := m;
    if t in m {
      ConsistentRoot(m[t].View(), m[t].tree, m[t].treeRoot);
      assert HaveLeaves(m[t].View().assets) by { ValidHasLeaves(m[t].View()); }
      if InnerUpsert(m[t].View(), a).Ok? { UpsertKeepsTapKey(m[t].View(), a); }
      err := m[t].Upsert(a);
      return;
    }
    var r := AssetCommitment.New([a], [[]]);
    NewInnerOfOne(a, []);
    if r.Err? { return Some(r.error), m; }
    err, m' := None, m[t := r.value];
  }

  lemma AllValidViews(m: Commitments)
    requires AllValid(m)
    ensures ValidInners(Views(m))
  {
    hide Consistent, ValidInner;
    forall k | k in m ensures ValidInner(m[k].View()) { ConsistentRoot(m[k].View(), m[k].tree, m[k].treeRoot); }
  }

  /** A commitment to a list of assets. */
  method FromAssets(version: Option<byte>, assets: seq<Asset>) returns (r: Result<TapCommitment, Error>)
    ensures match CommitmentOps.FromAssets(version, assets)
            case Ok(s) => r.Ok? && fresh(r.value) && r.value.Valid() && r.value.View() == s
            case Err(e) => r.Err?
  {
    hide Consistent, Gather, NewOuter, Collect, ListViews, DistinctTapKeys;
    var gathered := GatherAssets(assets);
    if gathered.Err? { return Err(gathered.error); }
    var cs := Values(gathered.value);
    r := TapCommitment.New(version, cs);
  }

  /** A new commitment without the alternative leaves, and those leaves. The given one is not changed. */
  method TrimAltLeaves(c: TapCommitment) returns (r: Result<TapCommitment, Error>, alt: AssetMap)
    requires c.Valid()
    modifies c.commitments.Values
    ensures unchanged(c.commitments.Values)
    ensures alt == if EMPTY_GENESIS_ID in c.commitments then c.commitments[EMPTY_GENESIS_ID].assets else map[]
    ensures ValidInners(c.View().inners - {EMPTY_GENESIS_ID})
    ensures match NewOuter(Some(c.version), c.View().inners - {EMPTY_GENESIS_ID})
            case Ok(s) => r.Ok? && fresh(r.value) && r.value.Valid() && r.value.View() == s
            case Err(e) => r == Err(e)
  {
    hide Consistent, NewOuter, Collect, ListViews, DistinctTapKeys, InStep, ValidInner;
    alt := if EMPTY_GENESIS_ID in c.commitments then c.commitments[EMPTY_GENESIS_ID].assets else map[];
    var rest := c.commitments - {EMPTY_GENESIS_ID};
    assert Views(rest) == Views(c.commitments) - {EMPTY_GENESIS_ID};
    var cs := Values(rest);
    r := TapCommitment.New(Some(c.version), cs);
  }

  // ----- What the methods report, as updates of a run -----

  /** What an update of one asset makes of the inner commitment it belongs to. */
  ghost function UpdatedInner(s: Outer, op: Op): Result<Inner, Error>
    requires ValidInners(s.inners)
  {
    match op
    case Put(a) => PutInner(s, a)
    case Remove(a) =>
      if TapCommitmentKey(a) in s.inners then InnerDelete(s.inners[TapCommitmentKey(a)], a)
      else Err(MissingAssetCommitment)
    case _ => Err(MissingAssetCommitment)
  }

  /**
   * Changing one asset of an inner commitment, in place, and then upserting it is one update of the run
   * that the history result is about. `between` is the outer commitment while it is out of step.
   */
  lemma ReupsertIsAnUpdate(s: Outer, op: Op, between: Outer, s': Outer)
    requires ValidOuter(s) && ValidOuter(s') && UpdatedInner(s, op).Ok?
    requires var c := UpdatedInner(s, op).value;
             && between.version == s.version && between.inners - {c.tapKey} == s.inners - {c.tapKey}
             && UpsertOutcome(between, c, s', None)
             && (c.assets != map[] ==> !LooksEmpty(c))
    ensures History.Step(s, op, s')
  {
    hide Total, ValidInner, LooksEmpty, OuterLeaves, MaxOf, InnerUpsert, InnerDelete, TapCommitmentKey;
    var c := UpdatedInner(s, op).value;
    SameOutcome(s, between, c, s', None);
  }

  lemma MergedIsJoined(i: Inners, j: Inners, t: Digest)
    requires t in j && j[t].tapKey == t
    ensures MergedAt(i, j, t) == Joined(i, j[t])
  {
  }

  /** No joined commitment that holds an asset has the root hash of the empty tree. */
  ghost predicate NoLookalikes(s: Outer, o: Outer) {
    forall t :: t in o.inners ==>
      var joined := Joined(s.inners, o.inners[t]);
      ValidInner(joined) && joined.assets != map[] ==> !LooksEmpty(joined)
  }

  /** What the merge method reports is the merge that the history results are about, canonical or not. */
  lemma MergeIsAnUpdate(s: Outer, o: Outer, s': Outer)
    requires ValidOuter(s) && ValidOuter(o) && ValidOuter(s') && MergeOutcome(s, o, s') && NoLookalikes(s, o)
    ensures History.Step(s, MergeIn(o), s')
    ensures LedgerOf(s'.inners) == LedgerOf(s.inners) + LedgerOf(o.inners)
  {
    hide Total, ValidInner, LooksEmpty, OuterLeaves, MaxOf, Joined, MergedAt, LedgerOf;
    if o.inners != map[] {
      forall t ensures SameUnder(MergedInners(s.inners, o.inners), s'.inners, t) {
        if t in o.inners {
          MergedIsJoined(s.inners, o.inners, t);
          assert MergedUnder(s.inners, o.inners, s'.inners, t);
          var joined := Joined(s.inners, o.inners[t]);
          if joined.assets == map[] { EmptyLooksEmpty(joined); }
        } else {
          MergedElsewhere(s.inners, o.inners, t);
          assert SameUnder(s.inners, s'.inners, t);
        }
      }
      SameEverywhere(MergedInners(s.inners, o.inners), s'.inners);
    }
    StepLedger(s, MergeIn(o), s');
  }

  lemma SameEverywhere(i: Inners, j: Inners)
    requires forall t :: SameUnder(i, j, t)
    ensures i == j
  {
    forall t ensures t in i <==> t in j
             ensures t in i ==> i[t] == j[t]
    {
      assert SameUnder(i, j, t);
    }
  }

  lemma ValidHasLeaves(s: Inner)
    requires ValidInner(s)
    ensures HaveLeaves(s.assets)
  {
  }

  lemma MergedElsewhere(i: Inners, j: Inners, t: Digest)
    requires t !in j
    ensures t in i ==> MergedAt(i, j, t) == i[t]
  {
  }
}
