/** The outer commitment as the program keeps it: references to inner commitments it does not own. */
module TapCommitments {
  import opened Bytes
  import opened Hashing
  import opened SumTree
  import opened TreeProof
  import opened Assets
  import opened Commitment
  import opened AssetCommitments
  import opened CommitmentOps
  import opened AltLeaves
  import CommitmentProof

  type Commitments = map<Digest, AssetCommitment>

  ghost function Views(cs: Commitments): map<Digest, Inner>
    reads cs.Values
  {
    map k | k in cs :: cs[k].View()
  }

  ghost predicate AllValid(cs: Commitments)
    reads cs.Values
  {
    forall k :: k in cs ==> cs[k].Valid() && cs[k].tapKey == k
  }

  ghost predicate InStep(inners: map<Digest, Inner>, tree: Tree, treeRoot: Root) {
    && ValidInners(inners)
    && ValidTree(tree) && Contents(tree) == OuterLeaves(inners)
    && treeRoot == RootOf(tree)
  }

  ghost predicate InStepExcept(inners: map<Digest, Inner>, key: Digest, tree: Tree, treeRoot: Root) {
    && ValidInners(inners - {key})
    && ValidTree(tree) && Contents(tree) - {key} == OuterLeaves(inners - {key})
    && treeRoot == RootOf(tree)
  }

  lemma InStepRoot(inners: map<Digest, Inner>, tree: Tree, treeRoot: Root)
    requires InStep(inners, tree, treeRoot)
    ensures forall v :: ValidOuter(Outer(v, inners)) && OuterRoot(Outer(v, inners)) == treeRoot
  {
    hide RootOf, FullRoot, Total, Contents, OuterLeaves;
    RootOfIsFullRoot(tree);
  }

  lemma InStepMeansExcept(inners: map<Digest, Inner>, key: Digest, tree: Tree, treeRoot: Root)
    requires InStep(inners, tree, treeRoot)
    ensures InStepExcept(inners, key, tree, treeRoot)
  {
    hide RootOf, Total, Contents, InnerLeaf, ValidInner, ValidTree;
    RemovedOuterLeaves(inners, key);
  }

  lemma ValidTreeOf(inners: map<Digest, Inner>, key: Digest, tree: Tree, treeRoot: Root)
    requires InStepExcept(inners, key, tree, treeRoot)
    ensures ValidTree(tree) && ValidInners(inners - {key})
  {
  }

  lemma LooksEmptyTest(s: Inner, looksEmpty: bool)
    requires ValidInner(s) && looksEmpty == (InnerRoot(s).AsNode().hash == EMPTY_ROOT_HASH)
    ensures looksEmpty == LooksEmpty(s)
  {
  }

  /** The tree update of an upsert, against the value-level outcome. */
  lemma UpsertTree(s: Outer, c: Inner, tree: Tree, treeRoot: Root, newLeaf: LeafNode)
    requires InStepExcept(s.inners, c.tapKey, tree, treeRoot) && ValidInner(c)
    requires newLeaf == if LooksEmpty(c) then EMPTY_LEAF else InnerLeaf(c)
    ensures ValidTree(tree)
    ensures var inners := InnersAfter(s.inners, c);
            match Insert(tree, c.tapKey, newLeaf)
            case None => UpsertOutcome(s, c, s, Some(SumOverflow))
            case Some(t) => Carries(t, inners) && UpsertOutcome(s, c, WithInners(s, inners), None)
  {
    hide Insert, RootOf, Contents, Total, OuterLeaves, InnerLeaf, ValidInner, MaxOf, InnerRoot, LooksEmpty,
         UpdatedVersion;
    UpsertedLeaves(Contents(tree), s.inners, c);
    InsertSpec(tree, c.tapKey, newLeaf);
  }

  lemma DeleteTree(inners: map<Digest, Inner>, key: Digest, tree: Tree, treeRoot: Root)
    requires InStepExcept(inners, key, tree, treeRoot) && ValidTree(tree)
    ensures Insert(tree, key, EMPTY_LEAF).Some?
    ensures var t := Insert(tree, key, EMPTY_LEAF).value;
            Carries(t, inners - {key})
  {
    hide Insert, RootOf, Contents, Total, OuterLeaves, InnerLeaf, ValidInner;
    InsertSpec(tree, key, EMPTY_LEAF);
    DeleteSucceeds(tree, key);
  }

  lemma AllValidAfter(cs: Commitments, cs': Commitments, c: AssetCommitment)
    requires AllValid(cs - {c.tapKey}) && c.Valid()
    requires cs' == cs - {c.tapKey} || cs' == cs[c.tapKey := c]
    ensures AllValid(cs')
  {
    hide Consistent;
    forall k | k in cs' && k != c.tapKey ensures cs'[k].Valid() && cs'[k].tapKey == k {
      assert k in cs - {c.tapKey};
    }
  }

  lemma ViewsAfter(cs: Commitments, c: AssetCommitment, looksEmpty: bool)
    requires ValidInner(c.View()) && looksEmpty == LooksEmpty(c.View())
    ensures Views(if looksEmpty then cs - {c.tapKey} else cs[c.tapKey := c]) == InnersAfter(Views(cs), c.View())
  {
    hide ValidInner, LooksEmpty;
  }

  lemma ExceptDependsOnOthers(i: map<Digest, Inner>, j: map<Digest, Inner>, key: Digest, tree: Tree, treeRoot: Root)
    requires InStepExcept(i, key, tree, treeRoot) && i - {key} == j - {key}
    ensures InStepExcept(j, key, tree, treeRoot)
  {
  }

  /** An upsert does not depend on what stood under its key. */
  lemma SameOutcome(s: Outer, s': Outer, c: Inner, after: Outer, err: Option<Error>)
    requires s.version == s'.version && s.inners - {c.tapKey} == s'.inners - {c.tapKey}
    requires UpsertOutcome(s', c, after, err) && err == None
    ensures UpsertOutcome(s, c, after, err)
  {
    hide ValidInner, LooksEmpty, OuterLeaves, Total, UpdatedVersion;
    InnersAfterValid(s.inners, c);
    assert InnersAfter(s.inners, c) == InnersAfter(s'.inners, c) by {
      assert s.inners[c.tapKey := c] == (s.inners - {c.tapKey})[c.tapKey := c];
      assert s'.inners[c.tapKey := c] == (s'.inners - {c.tapKey})[c.tapKey := c];
    }
  }

  /** Nor does whether it succeeds. */
  lemma SameSuccess(s: Outer, s': Outer, c: Inner, after: Outer, err: Option<Error>)
    requires s.inners - {c.tapKey} == s'.inners - {c.tapKey} && UpsertOutcome(s', c, after, err)
    ensures err == None <==> OuterUpsert(s, c).Ok?
  {
    hide ValidInner, LooksEmpty, OuterLeaves, Total, UpdatedVersion;
    InnersAfterValid(s.inners, c);
    assert InnersAfter(s.inners, c) == InnersAfter(s'.inners, c) by {
      assert s.inners[c.tapKey := c] == (s.inners - {c.tapKey})[c.tapKey := c];
      assert s'.inners[c.tapKey := c] == (s'.inners - {c.tapKey})[c.tapKey := c];
    }
  }

  /** Placing a commitment without looking at whether it is empty. */
  lemma PlaceTree(inners: map<Digest, Inner>, c: Inner, tree: Tree)
    requires ValidTree(tree) && InStepExcept(inners, c.tapKey, tree, RootOf(tree)) && ValidInner(c)
    ensures ValidInners(inners[c.tapKey := c])
    ensures match Insert(tree, c.tapKey, InnerLeaf(c))
            case None => Total(OuterLeaves(inners[c.tapKey := c])) >= U64_LIMIT
            case Some(t) => ValidTree(t) && InStep(inners[c.tapKey := c], t, RootOf(t))
  {
    hide Insert, RootOf, Contents, Total, OuterLeaves, InnerLeaf, ValidInner, LooksEmpty;
    UpdatedOuterLeaves(inners, c);
    InnersAfterValid(inners, c);
    InsertSpec(tree, c.tapKey, InnerLeaf(c));
    assert (Contents(tree) - {c.tapKey})[c.tapKey := InnerLeaf(c)] == Contents(tree)[c.tapKey := InnerLeaf(c)];
  }

  /** A tree that holds the leaves of these commitments. */
  ghost predicate Carries(tree: Tree, inners: map<Digest, Inner>) {
    ValidTree(tree) && InStep(inners, tree, RootOf(tree))
  }

  ghost predicate TooLarge(inners: map<Digest, Inner>) {
    ValidInners(inners) && Total(OuterLeaves(inners)) >= U64_LIMIT
  }

  /** Placing one more commitment, whatever stood under its key. */
  lemma CarriesNext(tree: Tree, inners: map<Digest, Inner>, after: map<Digest, Inner>, c: Inner)
    requires Carries(tree, inners) && ValidInner(c)
    requires c.tapKey in after && after[c.tapKey] == c && inners - {c.tapKey} == after - {c.tapKey}
    ensures ValidTree(tree)
    ensures match Insert(tree, c.tapKey, InnerLeaf(c))
            case None => TooLarge(after)
            case Some(t) => Carries(t, after)
  {
    hide Insert, RootOf, Contents, Total, OuterLeaves, InnerLeaf, ValidInner, InStep, InStepExcept;
    InStepMeansExcept(inners, c.tapKey, tree, RootOf(tree));
    ExceptDependsOnOthers(inners, after, c.tapKey, tree, RootOf(tree));
    assert after[c.tapKey := c] == after;
    PlaceTree(after, c, tree);
  }

  // ----- Merging -----

  /** The two maps agree on every other key. */
  ghost predicate SameElsewhere(m: Commitments, n: Commitments, key: Digest) {
    m - {key} == n - {key}
  }

  lemma SameAsBefore(m: Commitments, key: Digest)
    ensures SameElsewhere(m, m, key)
  {
  }

  /** An inner commitment on top of what stands under its tap key. */
  ghost function Joined(inners: map<Digest, Inner>, c: Inner): Inner {
    if c.tapKey in inners then Merged(inners[c.tapKey], c) else c
  }

  /** Under a key that has been merged stands the merged commitment, unless it looks empty. */
  ghost predicate MergedUnder(start: map<Digest, Inner>, theirs: map<Digest, Inner>, now: map<Digest, Inner>, t: Digest)
    requires t in theirs
  {
    var c := Joined(start, theirs[t]);
    ValidInner(c) && (if LooksEmpty(c) then t !in now else t in now && now[t] == c)
  }

  /** The keys outside `todo` have been merged; nothing else has changed. */
  ghost predicate MergeProgress(start: Outer, theirs: map<Digest, Inner>, now: Outer, todo: set<Digest>) {
    && (forall t :: t in theirs && t !in todo ==> MergedUnder(start.inners, theirs, now.inners, t))
    && (forall t :: t !in theirs || t in todo ==> SameUnder(start.inners, now.inners, t))
    && now.version == if todo == theirs.Keys then start.version else UpdatedVersion(start.version, now.inners)
  }

  ghost predicate SameUnder(i: map<Digest, Inner>, j: map<Digest, Inner>, t: Digest) {
    (t in i <==> t in j) && (t in i ==> i[t] == j[t])
  }

  ghost predicate MergeOutcome(start: Outer, other: Outer, now: Outer) {
    if other.inners == map[] then now == start else MergeProgress(start, other.inners, now, {})
  }

  lemma JoinStart(start: Outer, theirs: map<Digest, Inner>)
    ensures MergeProgress(start, theirs, start, theirs.Keys)
  {
    hide ValidInner, LooksEmpty;
  }

  lemma PlacedUnder(s: Outer, c: Inner, s': Outer, t: Digest)
    requires UpsertOutcome(s, c, s', None)
    ensures t != c.tapKey ==> SameUnder(s.inners, s'.inners, t)
    ensures ValidInner(c)
    ensures if LooksEmpty(c) then c.tapKey !in s'.inners else c.tapKey in s'.inners && s'.inners[c.tapKey] == c
    ensures s'.version == UpdatedVersion(s.version, s'.inners)
  {
    hide ValidInner, LooksEmpty, OuterLeaves, Total, UpdatedVersion;
  }

  lemma JoinStep(start: Outer, theirs: map<Digest, Inner>, now: Outer, next: Outer, todo: set<Digest>, t: Digest)
    requires MergeProgress(start, theirs, now, todo) && t in todo && todo <= theirs.Keys
    requires theirs[t].tapKey == t && ValidInners(now.inners)
    requires UpsertOutcome(now, Joined(now.inners, theirs[t]), next, None)
    ensures MergeProgress(start, theirs, next, todo - {t})
  {
    hide ValidInner, LooksEmpty, UpsertOutcome, MaxOf, Merged;
    var c := Joined(now.inners, theirs[t]);
    assert SameUnder(start.inners, now.inners, t);
    assert c == Joined(start.inners, theirs[t]);
    assert c.tapKey == t by { JoinedTapKey(now.inners, theirs[t]); }
    forall u ensures u in theirs && u !in todo - {t} ==> MergedUnder(start.inners, theirs, next.inners, u)
             ensures u !in theirs || u in todo - {t} ==> SameUnder(start.inners, next.inners, u)
    {
      PlacedUnder(now, c, next, u);
    }
    PlacedUnder(now, c, next, t);
    ContentsAreOlder(now.inners);
  }

  /** The key still holds what it held, if it holds anything. */
  ghost predicate KeptUnder(m: Commitments, ours: Commitments, k: Digest) {
    k in m ==> k in ours && m[k] == ours[k]
  }

  lemma KeptAtFirst(m: Commitments)
    ensures forall k :: KeptUnder(m, m, k)
  {
  }

  lemma KeptMeans(m: Commitments, ours: Commitments, k: Digest)
    requires KeptUnder(m, ours, k)
    ensures k in m ==> m[k] in ours.Values
  {
  }

  lemma KeptStep(m: Commitments, m': Commitments, ours: Commitments, k: Digest)
    requires SameElsewhere(m', m, k)
    ensures forall j :: j != k && KeptUnder(m, ours, j) ==> KeptUnder(m', ours, j)
  {
    forall j | j != k && KeptUnder(m, ours, j) ensures KeptUnder(m', ours, j) {
      assert j in m' ==> j in m' - {k};
    }
  }

  ghost predicate Shows(c: AssetCommitment, view: Inner, k: Digest)
    reads c
  {
    c.Valid() && c.tapKey == k && c.View() == view
  }

  lemma JoinedTapKey(inners: map<Digest, Inner>, c: Inner)
    requires c.tapKey in inners ==> inners[c.tapKey].tapKey == c.tapKey
    ensures Joined(inners, c).tapKey == c.tapKey
  {
  }

  // ----- When a merge succeeds -----

  /** The types match and the totals together stay in range. */
  ghost predicate OneFits(s: Outer, c: Inner)
    requires ValidInners(s.inners) && ValidInner(c)
  {
    && (c.tapKey in s.inners ==> s.inners[c.tapKey].assetType == c.assetType)
    && Total(OuterLeaves(s.inners)) + InnerLeaf(c).sum < U64_LIMIT
  }

  lemma PartOfOuterTotal(inners: map<Digest, Inner>, t: Digest)
    requires ValidInners(inners) && t in inners
    ensures InnerLeaf(inners[t]).sum <= Total(OuterLeaves(inners))
  {
    hide Total, ValidInner, InnerLeaf;
    TotalRemove(OuterLeaves(inners), t);
  }

  lemma OneFitsInner(s: Outer, c: Inner)
    requires ValidInners(s.inners) && ValidInner(c) && c.tapKey in s.inners && OneFits(s, c)
    ensures ValidInner(s.inners[c.tapKey]) && MergeFits(s.inners[c.tapKey], c)
  {
    hide Total, ValidInner, InnerLeaf, OuterLeaves;
    PartOfOuterTotal(s.inners, c.tapKey);
    InnersHaveLeaves(c);
    InnersHaveLeaves(s.inners[c.tapKey]);
  }

  lemma JoinedTotal(inners: map<Digest, Inner>, c: Inner)
    requires ValidInners(inners) && ValidInner(c) && ValidInner(Joined(inners, c))
    ensures InnerLeaf(Joined(inners, c)).sum
            <= (if c.tapKey in inners then InnerLeaf(inners[c.tapKey]).sum else 0) + InnerLeaf(c).sum
  {
    hide Total, ValidInner, InnerLeaf, Leaf;
    var joined := Joined(inners, c);
    InnersHaveLeaves(c);
    InnersHaveLeaves(joined);
    if c.tapKey in inners {
      var ours := inners[c.tapKey];
      InnersHaveLeaves(ours);
      assert LeavesOf(joined.assets) == LeavesOf(ours.assets) + LeavesOf(c.assets);
      TotalOfUnion(LeavesOf(ours.assets), LeavesOf(c.assets));
    }
  }

  /** Placing the joined commitment adds no more than the total of what was joined in. */
  lemma JoinedPlacement(s: Outer, c: Inner)
    requires ValidOuter(s) && ValidInner(c) && ValidInner(Joined(s.inners, c)) && Joined(s.inners, c).tapKey == c.tapKey
    ensures ValidInners(s.inners - {c.tapKey}) && ValidInners(InnersAfter(s.inners, Joined(s.inners, c)))
    ensures Total(OuterLeaves(InnersAfter(s.inners, Joined(s.inners, c))))
            <= Total(OuterLeaves(s.inners)) + InnerLeaf(c).sum
    ensures OneFits(s, c) ==> OuterUpsert(s, Joined(s.inners, c)).Ok?
  {
    hide Total, ValidInner, InnerLeaf, OuterLeaves, LooksEmpty, Joined, UpdatedVersion;
    var joined, t := Joined(s.inners, c), c.tapKey;
    RemovedOuterLeaves(s.inners, t);
    UpdatedOuterLeaves(s.inners, joined);
    ReplacedTotal(s.inners, joined);
    JoinedTotal(s.inners, c);
    InnersHaveLeaves(joined);
    assert InnersAfter(s.inners, joined) == s.inners[t := joined] || InnersAfter(s.inners, joined) == s.inners - {t};
  }

  /** The leaves of the commitments still to be merged. */
  ghost function Remaining(theirs: map<Digest, Inner>, todo: set<Digest>): Leaves
    requires ValidInners(theirs)
  {
    map k | k in OuterLeaves(theirs) && k in todo :: OuterLeaves(theirs)[k]
  }

  /** What is there and what is still to come stay in range, and their types match. */
  ghost predicate AllFits(now: Outer, theirs: map<Digest, Inner>, todo: set<Digest>) {
    && ValidInners(now.inners) && ValidInners(theirs)
    && Total(OuterLeaves(now.inners)) + Total(Remaining(theirs, todo)) < U64_LIMIT
    && forall t :: t in todo && t in now.inners && t in theirs ==> now.inners[t].assetType == theirs[t].assetType
  }

  /** Exactly what the caller can see of two commitments: matching types and totals that together stay in range. */
  ghost predicate OuterMergeFits(s: Outer, other: Outer) {
    && ValidInners(s.inners) && ValidInners(other.inners)
    && Total(OuterLeaves(s.inners)) + Total(OuterLeaves(other.inners)) < U64_LIMIT
    && forall t :: t in s.inners && t in other.inners ==> s.inners[t].assetType == other.inners[t].assetType
  }

  lemma AllFitsAtFirst(s: Outer, theirs: map<Digest, Inner>)
    requires OuterMergeFits(s, Outer(V0, theirs))
    ensures AllFits(s, theirs, theirs.Keys)
  {
    hide Total, ValidInner, InnerLeaf;
    assert Remaining(theirs, theirs.Keys) == OuterLeaves(theirs);
  }

  lemma SameInnersFit(s: Outer, other: Outer)
    requires OuterMergeFits(s, other)
    ensures AllFits(s, other.inners, other.inners.Keys)
  {
    hide Total, ValidInner, InnerLeaf, OuterLeaves;
    AllFitsAtFirst(s, other.inners);
  }

  lemma NextFits(now: Outer, theirs: map<Digest, Inner>, todo: set<Digest>, t: Digest)
    requires AllFits(now, theirs, todo) && t in todo && t in theirs
    ensures OneFits(now, theirs[t])
    ensures Total(Remaining(theirs, todo)) == InnerLeaf(theirs[t]).sum + Total(Remaining(theirs, todo - {t}))
  {
    hide Total, ValidInner, InnerLeaf;
    var rest := Remaining(theirs, todo);
    assert t in rest && rest[t] == InnerLeaf(theirs[t]);
    TotalRemove(rest, t);
    assert rest - {t} == Remaining(theirs, todo - {t});
  }

  lemma StillFits(now: Outer, theirs: map<Digest, Inner>, next: Outer, todo: set<Digest>, t: Digest)
    requires AllFits(now, theirs, todo) && t in todo && t in theirs && ValidOuter(now)
    requires UpsertOutcome(now, Joined(now.inners, theirs[t]), next, None)
    ensures AllFits(next, theirs, todo - {t})
  {
    hide Total, ValidInner, InnerLeaf, OuterLeaves, Remaining, Joined, LooksEmpty, UpdatedVersion;
    NextFits(now, theirs, todo, t);
    assert Joined(now.inners, theirs[t]).tapKey == t by { JoinedTapKey(now.inners, theirs[t]); }
    JoinedPlacement(now, theirs[t]);
  }

  // ----- Building from a list of inner commitments -----

  ghost function ListViews(cs: seq<AssetCommitment>): seq<Inner>
    reads cs
  {
    seq(|cs|, i requires 0 <= i < |cs| reads cs => cs[i].View())
  }

  /** One more inner commitment, merged into that of its tap key if there is one. */
  ghost function CollectNext(inners: map<Digest, Inner>, c: Inner): map<Digest, Inner> {
    inners[c.tapKey := Joined(inners, c)]
  }

  /** The inner commitments of a list by tap key, those of one tap key merged in order. */
  ghost function Collect(views: seq<Inner>): map<Digest, Inner> {
    if views == [] then map[] else CollectNext(Collect(views[..|views| - 1]), views[|views| - 1])
  }

  lemma CollectStep(views: seq<Inner>, i: nat)
    requires i < |views|
    ensures Collect(views[..i + 1]) == CollectNext(Collect(views[..i]), views[i])
  {
    assert views[..i + 1][..i] == views[..i];
  }

  lemma NextLeaf(inners: map<Digest, Inner>, c: Inner)
    ensures c.tapKey in CollectNext(inners, c) && CollectNext(inners, c) - {c.tapKey} == inners - {c.tapKey}
  {
  }

  lemma ViewAt(m: Commitments, t: Digest)
    requires AllValid(m) && t in m
    ensures m[t].Valid() && m[t].tapKey == t && t in Views(m) && Views(m)[t] == m[t].View()
  {
  }

  lemma NoViews(cs: seq<AssetCommitment>)
    ensures AllValid(map[]) && Views(map[]) == map[] && DrawnFrom(map[], cs, 0)
  {
  }

  /** The listed commitments are sound and still belong to the tap keys they had. */
  ghost predicate AllListed(cs: seq<AssetCommitment>, views: seq<Inner>)
    reads cs
  {
    |cs| == |views| && forall i :: 0 <= i < |cs| ==> cs[i].Valid() && cs[i].tapKey == views[i].tapKey
  }

  /** The commitments from `i` on are still what was listed. */
  ghost predicate LaterShow(cs: seq<AssetCommitment>, views: seq<Inner>, i: nat)
    reads cs
  {
    |views| == |cs| && forall j :: i <= j < |cs| ==> cs[j].View() == views[j]
  }

  lemma AllShow(cs: seq<AssetCommitment>, views: seq<Inner>)
    requires ListViews(cs) == views
    ensures LaterShow(cs, views, 0)
  {
  }

  lemma ShownAt(cs: seq<AssetCommitment>, views: seq<Inner>, i: nat)
    requires i < |cs|
    ensures LaterShow(cs, views, i) ==> |views| == |cs| && cs[i].View() == views[i]
  {
  }

  lemma ListedAt(cs: seq<AssetCommitment>, views: seq<Inner>, i: nat)
    requires AllListed(cs, views) && i < |cs|
    ensures |views| == |cs| && cs[i].Valid() && cs[i].tapKey == views[i].tapKey
  {
  }

  ghost predicate Under(m: Commitments, t: Digest, c: AssetCommitment) {
    t in m && m[t] == c
  }

  /** The map holds only commitments from the beginning of the list. */
  ghost predicate DrawnFrom(m: Commitments, cs: seq<AssetCommitment>, n: nat)
    requires n <= |cs|
  {
    forall k :: k in m ==> exists j :: 0 <= j < n && cs[j] == m[k]
  }

  lemma NotDrawnYet(m: Commitments, cs: seq<AssetCommitment>, i: nat)
    requires i < |cs| && DrawnFrom(m, cs, i)
    ensures forall k :: k in m ==> m[k] in cs
    ensures NoAlias(cs) ==> forall j :: i <= j < |cs| ==> cs[j] !in m.Values
  {
  }

  lemma DrawnStep(m: Commitments, m': Commitments, cs: seq<AssetCommitment>, i: nat, t: Digest)
    requires i < |cs| && DrawnFrom(m, cs, i)
    requires m' == m || m' == m[t := cs[i]]
    ensures DrawnFrom(m', cs, i + 1)
  {
    forall k | k in m' ensures exists j :: 0 <= j < i + 1 && cs[j] == m'[k] {
      if k in m && m'[k] == m[k] { var j :| 0 <= j < i && cs[j] == m[k]; }
    }
  }

  lemma ViewKeys(m: Commitments)
    ensures Views(m).Keys == m.Keys
  {
  }

  /** One more commitment fits: its type matches and the totals together stay in range. */
  ghost predicate NextWouldFit(inners: map<Digest, Inner>, c: Inner) {
    ValidInners(inners) && ValidInner(c) && OneFits(Outer(V0, inners), c)
  }

  lemma NextTotal(inners: map<Digest, Inner>, c: Inner)
    requires ValidInners(inners) && ValidInner(c) && ValidInners(CollectNext(inners, c))
    ensures Total(OuterLeaves(CollectNext(inners, c))) <= Total(OuterLeaves(inners)) + InnerLeaf(c).sum
  {
    hide Total, ValidInner, InnerLeaf, OuterLeaves, Joined;
    var joined := Joined(inners, c);
    assert joined.tapKey == c.tapKey by { JoinedTapKey(inners, c); }
    assert CollectNext(inners, c)[c.tapKey] == joined;
    ReplacedTotal(inners, joined);
    JoinedTotal(inners, c);
    InnersHaveLeaves(joined);
  }

  lemma FittingNext(inners: map<Digest, Inner>, c: Inner)
    requires NextWouldFit(inners, c)
    ensures c.tapKey in inners ==> ValidInner(inners[c.tapKey]) && ValidInner(c) && MergeFits(inners[c.tapKey], c)
    ensures !TooLarge(CollectNext(inners, c))
  {
    hide Total, ValidInner, InnerLeaf, OuterLeaves, CollectNext, MergeFits;
    if c.tapKey in inners { OneFitsInner(Outer(V0, inners), c); }
    if ValidInners(CollectNext(inners, c)) { NextTotal(inners, c); }
  }

  ghost function ListTotal(views: seq<Inner>): nat
    requires ValidViews(views)
  {
    if views == [] then 0 else ListTotal(views[..|views| - 1]) + InnerLeaf(views[|views| - 1]).sum
  }

  /** Commitments of one tap key are of one type, and all totals together stay in range. */
  ghost predicate ListFits(views: seq<Inner>) {
    && ValidViews(views) && ListTotal(views) < U64_LIMIT
    && forall i, j :: 0 <= i < j < |views| && views[i].tapKey == views[j].tapKey ==>
         views[i].assetType == views[j].assetType
  }

  lemma ListTotalStep(views: seq<Inner>, i: nat)
    requires ValidViews(views) && i < |views|
    ensures ValidViews(views[..i]) && ValidViews(views[..i + 1])
    ensures ListTotal(views[..i + 1]) == ListTotal(views[..i]) + InnerLeaf(views[i]).sum
  {
    hide ValidInner, InnerLeaf;
    assert views[..i + 1][..i] == views[..i];
  }

  lemma {:induction false} ListTotalGrows(views: seq<Inner>, i: nat)
    requires ValidViews(views) && i <= |views|
    ensures ValidViews(views[..i]) && ListTotal(views[..i]) <= ListTotal(views)
    decreases |views| - i
  {
    hide ValidInner, InnerLeaf;
    if i < |views| {
      ListTotalStep(views, i);
      ListTotalGrows(views, i + 1);
    } else {
      assert views[..i] == views;
    }
  }

  /** What is collected keeps the type of some listed commitment of its tap key. */
  lemma {:induction false} CollectedType(views: seq<Inner>, t: Digest)
    requires t in Collect(views)
    ensures exists i :: 0 <= i < |views| && views[i].tapKey == t && Collect(views)[t].assetType == views[i].assetType
  {
    hide Merged;
    var front, last := views[..|views| - 1], views[|views| - 1];
    if t in Collect(front) {
      CollectedType(front, t);
      var i :| 0 <= i < |front| && front[i].tapKey == t && Collect(front)[t].assetType == front[i].assetType;
      assert views[i] == front[i];
      assert Collect(views)[t].assetType == views[i].assetType by { JoinedType(Collect(front), last, t); }
    } else {
      assert views[|views| - 1] == last;
    }
  }

  lemma JoinedType(inners: map<Digest, Inner>, c: Inner, t: Digest)
    requires t in inners
    ensures CollectNext(inners, c)[t].assetType == inners[t].assetType
  {
  }

  /** So far everything fits. */
  ghost predicate FitsSoFar(views: seq<Inner>, i: nat) {
    && ValidViews(views) && i <= |views| && ValidViews(views[..i]) && ValidInners(Collect(views[..i]))
    && Total(OuterLeaves(Collect(views[..i]))) <= ListTotal(views[..i])
  }

  lemma NextListedFits(views: seq<Inner>, i: nat)
    requires ListFits(views) && i < |views| && FitsSoFar(views, i)
    ensures NextWouldFit(Collect(views[..i]), views[i])
  {
    hide ValidInner, InnerLeaf, Collect, Total, OuterLeaves;
    ListTotalStep(views, i);
    ListTotalGrows(views, i + 1);
    if views[i].tapKey in Collect(views[..i]) {
      CollectedType(views[..i], views[i].tapKey);
      var j :| 0 <= j < i && views[..i][j].tapKey == views[i].tapKey
               && Collect(views[..i])[views[i].tapKey].assetType == views[..i][j].assetType;
      assert views[j] == views[..i][j];
    }
  }

  lemma FitsSoFarStep(views: seq<Inner>, i: nat)
    requires ListFits(views) && i < |views| && FitsSoFar(views, i) && ValidInners(Collect(views[..i + 1]))
    ensures FitsSoFar(views, i + 1)
  {
    hide ValidInner, InnerLeaf, Collect, Total, OuterLeaves, CollectNext;
    ListTotalStep(views, i);
    CollectStep(views, i);
    NextTotal(Collect(views[..i]), views[i]);
  }

  lemma NothingFits(views: seq<Inner>)
    requires ValidViews(views)
    ensures FitsSoFar(views, 0)
  {
    hide ValidInner;
    assert OuterLeaves(map[]) == map[];
    TotalOfNothing();
  }

  lemma CarriesValid(tree: Tree, inners: map<Digest, Inner>)
    requires Carries(tree, inners)
    ensures ValidInners(inners)
  {
  }

  ghost predicate NoAlias(cs: seq<AssetCommitment>) {
    forall i, j :: 0 <= i < j < |cs| ==> cs[i] != cs[j]
  }

  ghost function ListVersions(views: seq<Inner>): set<nat> {
    set i | 0 <= i < |views| :: views[i].version as nat
  }

  lemma SoundViews(cs: seq<AssetCommitment>)
    requires forall i :: 0 <= i < |cs| ==> cs[i].Valid()
    ensures AllListed(cs, ListViews(cs)) && ValidViews(ListViews(cs))
  {
    hide Consistent, ValidInner;
    forall i | 0 <= i < |cs| ensures ValidInner(cs[i].View()) {
      ConsistentRoot(cs[i].View(), cs[i].tree, cs[i].treeRoot);
    }
  }

  ghost predicate ValidViews(views: seq<Inner>) {
    forall i :: 0 <= i < |views| ==> ValidInner(views[i])
  }

  ghost predicate DistinctTapKeys(views: seq<Inner>) {
    forall i, j :: 0 <= i < j < |views| ==> views[i].tapKey != views[j].tapKey
  }

  /** With distinct tap keys nothing is merged. */
  lemma {:induction false} CollectDistinct(views: seq<Inner>, t: Digest)
    requires DistinctTapKeys(views)
    ensures t in Collect(views) ==> exists i :: 0 <= i < |views| && views[i].tapKey == t
    ensures forall i :: 0 <= i < |views| && views[i].tapKey == t ==>
              t in Collect(views) && Collect(views)[t] == views[i]
  {
    if views != [] {
      var last := |views| - 1;
      var front := views[..last];
      CollectDistinct(front, t);
      CollectDistinct(front, views[last].tapKey);
      forall i | 0 <= i < |views| && views[i].tapKey == t ensures t in Collect(views) && Collect(views)[t] == views[i] {
        if i < last { assert front[i].tapKey == t; }
      }
      if t in Collect(front) { var i :| 0 <= i < |front| && front[i].tapKey == t; assert views[i].tapKey == t; }
    }
  }

  lemma CollectVersions(views: seq<Inner>)
    requires DistinctTapKeys(views)
    ensures InnerVersions(Collect(views)) == ListVersions(views)
  {
    hide Collect;
    var m := Collect(views);
    forall v ensures v in InnerVersions(m) <==> v in ListVersions(views) {
      if v in InnerVersions(m) {
        var t :| t in m && m[t].version as nat == v;
        CollectDistinct(views, t);
        var i :| 0 <= i < |views| && views[i].tapKey == t;
        assert views[i].version as nat in ListVersions(views);
      }
      if v in ListVersions(views) {
        var i :| 0 <= i < |views| && views[i].version as nat == v;
        CollectDistinct(views, views[i].tapKey);
        assert m[views[i].tapKey].version as nat in InnerVersions(m);
      }
    }
  }

  lemma CollectValid(views: seq<Inner>)
    requires ValidViews(views) && DistinctTapKeys(views)
    ensures ValidInners(Collect(views))
  {
    hide ValidInner, Collect;
    forall t | t in Collect(views) ensures ValidInner(Collect(views)[t]) && Collect(views)[t].tapKey == t {
      CollectDistinct(views, t);
    }
  }

  /** A prefix that is too large makes the whole too large. */
  lemma CollectGrows(views: seq<Inner>, i: nat)
    requires ValidViews(views) && DistinctTapKeys(views) && i <= |views|
    ensures ValidInners(Collect(views)) && ValidInners(Collect(views[..i]))
    ensures Total(OuterLeaves(Collect(views[..i]))) <= Total(OuterLeaves(Collect(views)))
  {
    hide ValidInner, Collect, Total, InnerLeaf;
    CollectValid(views);
    CollectValid(views[..i]);
    var part, whole := Collect(views[..i]), Collect(views);
    forall t | t in part ensures t in whole && part[t] == whole[t] {
      CollectDistinct(views[..i], t);
      CollectDistinct(views, t);
      var j :| 0 <= j < i && views[..i][j].tapKey == t;
      assert views[j].tapKey == t;
    }
    var l := OuterLeaves(whole);
    assert OuterLeaves(part) == l - (l.Keys - part.Keys);
    TotalOfPart(l, l.Keys - part.Keys);
  }

  /** A commitment made from a list, with the version asked for or the maximum of the list. */
  ghost predicate NewOutcome(version: Option<byte>, views: seq<Inner>, s: Outer) {
    && s.inners == Collect(views)
    && (version.Some? ==> version.value <= V2)
    && s.version as nat == if version.Some? then version.value as nat else MaxOf(ListVersions(views))
  }

  lemma NewOutcomeIsNewOuter(version: Option<byte>, views: seq<Inner>, s: Outer)
    requires NewOutcome(version, views, s) && ValidViews(views) && DistinctTapKeys(views)
    requires ValidOuter(s)
    ensures ValidInners(Collect(views)) && NewOuter(version, Collect(views)) == Ok(s)
  {
    hide ValidInner, Collect, Total, MaxOf;
    CollectVersions(views);
  }

  lemma MaxStep(views: seq<Inner>, i: nat, m: byte)
    requires i < |views|
    ensures IsMax(ListVersions(views[..i]), m as nat) ==>
              IsMax(ListVersions(views[..i + 1]), Max(m, views[i].version) as nat)
  {
    var s, s' := ListVersions(views[..i]), ListVersions(views[..i + 1]);
    forall v | v in s' ensures v in s || v == views[i].version as nat {
      var j :| 0 <= j < i + 1 && views[..i + 1][j].version as nat == v;
      if j < i { assert views[..i][j].version as nat in s; }
    }
    forall v | v in s ensures v in s' {
      var j :| 0 <= j < i && views[..i][j].version as nat == v;
      assert views[..i + 1][j].version as nat in s';
    }
    assert views[..i + 1][i].version as nat in s';
  }

  lemma NewTreeCarriesNothing()
    ensures Carries(NEW_TREE, map[])
  {
    hide RootOf, Contents, ValidTree;
    NewTreeIsEmpty();
    assert OuterLeaves(map[]) == map[];
  }

  lemma NothingCollected(views: seq<Inner>)
    ensures Collect(views[..0]) == map[] && IsMax(ListVersions(views[..0]), 0)
  {
  }

  lemma NextIsNew(views: seq<Inner>, i: nat)
    requires i < |views| && DistinctTapKeys(views)
    ensures views[i].tapKey !in Collect(views[..i])
  {
    hide Collect;
    CollectDistinct(views[..i], views[i].tapKey);
  }

  lemma PrefixOverflows(version: Option<byte>, views: seq<Inner>, i: nat)
    requires ValidViews(views) && DistinctTapKeys(views) && i <= |views|
    requires TooLarge(Collect(views[..i]))
    ensures ValidInners(Collect(views)) && NewOuter(version, Collect(views)) == Err(SumOverflow)
  {
    hide ValidInner, Collect, Total, OuterLeaves, MaxOf, CollectNext;
    CollectGrows(views, i);
  }

  lemma BadVersion(version: byte, views: seq<Inner>, tree: Tree)
    requires ValidViews(views) && DistinctTapKeys(views) && version > V2
    requires Carries(tree, Collect(views))
    ensures ValidInners(Collect(views)) && NewOuter(Some(version), Collect(views)) == Err(InvalidTapCommitmentVersion)
  {
    hide ValidInner, Collect, Total, OuterLeaves, MaxOf, RootOf, Contents, FullRoot;
    InStepRoot(Collect(views), tree, RootOf(tree));
    assert ValidOuter(Outer(0, Collect(views)));
  }

  lemma NewOutcomeHolds(version: Option<byte>, views: seq<Inner>, m: byte, s: Outer)
    requires IsMax(ListVersions(views), m as nat) && s.inners == Collect(views)
    requires s.version == if version.Some? then version.value else m
    requires version.Some? ==> version.value <= V2
    ensures NewOutcome(version, views, s)
  {
    hide Collect;
    assert IsMax(ListVersions(views), MaxOf(ListVersions(views)));
  }

  lemma DistinctMeansNoAlias(cs: seq<AssetCommitment>)
    ensures DistinctTapKeys(ListViews(cs)) ==> NoAlias(cs)
  {
    if DistinctTapKeys(ListViews(cs)) {
      var views := ListViews(cs);
      forall i, j | 0 <= i < j < |cs| ensures cs[i] != cs[j] { assert views[i].tapKey != views[j].tapKey; }
    }
  }

  /** Versions of which one is 2 and the other is not, or of which one is unknown. */
  ghost predicate VersionsClash(a: byte, b: byte) {
    a > 2 || b > 2 || (a == 2) != (b == 2)
  }

  /** A merge of versions that do not clash cannot change whether the version is 2. */
  lemma MergedVersion(start: Outer, theirs: map<Digest, Inner>, now: Outer)
    requires MergeProgress(start, theirs, now, {}) && theirs != map[] && ValidInners(now.inners)
    ensures now.version == 2 <==> start.version == 2
  {
    hide MergedUnder, SameUnder, ValidInner;
    ContentsAreOlder(now.inners);
  }

  /** Which versions may be merged with each other. */
  predicate SimilarVersions(a: byte, b: byte) {
    if a == V2 then b == V2 else (a == V0 || a == V1) && (b == V0 || b == V1)
  }

  class TapCommitment {
    var version: byte
    var treeRoot: Root
    var tree: Tree
    var commitments: Commitments

    ghost function View(): Outer
      reads this, commitments.Values
    {
      Outer(version, Views(commitments))
    }

    /** Tree and map agree. */
    ghost predicate Valid()
      reads this, commitments.Values
    {
      AllValid(commitments) && InStep(Views(commitments), tree, treeRoot)
    }

    /** They agree except perhaps under `key`, whose commitment may have changed since. */
    ghost predicate ValidExcept(key: Digest)
      reads this, commitments.Values
    {
      AllValid(commitments - {key}) && InStepExcept(Views(commitments), key, tree, treeRoot)
    }

    constructor (version: byte, commitments: Commitments, tree: Tree)
      requires AllValid(commitments) && Carries(tree, Views(commitments))
      ensures Valid() && this.commitments == commitments && this.version == version
    {
      hide InStep, RootOf, Consistent;
      this.version, this.commitments, this.tree := version, commitments, tree;
      this.treeRoot := RootOf(tree);
    }

    /** A valid commitment is a valid value, and its root field is that value's root. */
    lemma ViewIsValid()
      requires Valid()
      ensures ValidOuter(View()) && treeRoot == OuterRoot(View())
    {
      hide Consistent;
      InStepRoot(Views(commitments), tree, treeRoot);
    }

    /** After a change to one inner commitment the rest is still in step. */
    lemma ValidMeansValidExcept(key: Digest)
      requires Valid()
      ensures ValidExcept(key)
    {
      hide Consistent, InStep, InStepExcept;
      InStepMeansExcept(Views(commitments), key, tree, treeRoot);
    }

    /** The largest version among the inner commitments, visited in any order. */
    static method MaxCommitmentVersion(cs: Commitments) returns (m: byte)
      ensures m == MaxOf(InnerVersions(Views(cs)))
    {
      hide MaxOf;
      m := 0;
      var todo := cs.Keys;
      ghost var versions := InnerVersions(Views(cs));
      assert forall k :: k in cs ==> Views(cs)[k].version in versions;
      while todo != {}
        invariant todo <= cs.Keys
        invariant forall k :: k in cs && k !in todo ==> cs[k].version <= m
        invariant m == 0 || m in versions
        decreases todo
      {
        var k :| k in todo;
        if cs[k].version > m { m := cs[k].version; }
        todo := todo - {k};
      }
      assert IsMax(versions, m);
      assert IsMax(versions, MaxOf(versions));
    }

    /** Replaces tree and map together. */
    method Install(newTree: Tree, newCommitments: Commitments, newVersion: byte)
      requires AllValid(newCommitments) && Carries(newTree, Views(newCommitments))
      modifies this
      ensures Valid() && commitments == newCommitments && version == newVersion
      ensures View() == Outer(newVersion, old(Views(newCommitments)))
    {
      hide InStep, Consistent, RootOf, Total, Contents;
      tree, treeRoot, commitments, version := newTree, RootOf(newTree), newCommitments, newVersion;
    }

    /** The version after an update: 2 stays, any other is recomputed. */
    method NextVersion(newCommitments: Commitments) returns (newVersion: byte)
      ensures newVersion == UpdatedVersion(version, Views(newCommitments))
    {
      hide MaxOf;
      if version == V2 { return V2; }
      newVersion := MaxCommitmentVersion(newCommitments);
    }

    /** Takes over a tree that holds the leaf of the given commitment, or none if that is to be pruned. */
    method Adopt(c: AssetCommitment, looksEmpty: bool, newTree: Tree)
      requires AllValid(commitments - {c.tapKey}) && c.Valid()
      requires ValidInner(c.View()) && looksEmpty == LooksEmpty(c.View())
      requires Carries(newTree, InnersAfter(Views(commitments), c.View()))
      modifies this
      ensures Valid() && View() == WithInners(old(View()), InnersAfter(old(View()).inners, c.View()))
      ensures SameElsewhere(commitments, old(commitments), c.tapKey)
      ensures c.tapKey in commitments ==> commitments[c.tapKey] == c
    {
      hide InStep, Consistent, ValidTree, RootOf, ValidInner, LooksEmpty, InnersAfter, AllValid, UpdatedVersion,
           Views;
      var key := c.tapKey;
      var newCommitments := if looksEmpty then commitments - {key} else commitments[key := c];
      ViewsAfter(commitments, c, looksEmpty);
      AllValidAfter(commitments, newCommitments, c);
      var newVersion := NextVersion(newCommitments);
      Install(newTree, newCommitments, newVersion);
    }

    /** Places the commitment, or prunes its key when its tree is empty. */
    method Upsert(c: AssetCommitment) returns (err: Option<Error>)
      requires ValidExcept(c.tapKey) && c.Valid()
      modifies this
      ensures UpsertOutcome(old(View()), c.View(), View(), err)
      ensures if err == None then Valid() else unchanged(this)
      ensures SameElsewhere(commitments, old(commitments), c.tapKey)
      ensures err == None && c.tapKey in commitments ==> commitments[c.tapKey] == c
      ensures err == None || err == Some(SumOverflow)
    {
      hide Insert, Carries, ValidTree, InnerLeaf, ValidInner, InnerRoot, Consistent, InStep, InStepExcept,
           UpsertOutcome, LooksEmpty, EmptyNode, Branch, AllValid, Views, InnersAfter, WithInners, SameElsewhere;
      var leaf := c.TapCommitmentLeaf();
      ConsistentRoot(c.View(), c.tree, c.treeRoot);
      var looksEmpty := c.treeRoot.AsNode().hash == EMPTY_ROOT_HASH;
      LooksEmptyTest(c.View(), looksEmpty);
      var newLeaf := if looksEmpty then EMPTY_LEAF else leaf;
      UpsertTree(View(), c.View(), tree, treeRoot, newLeaf);
      var inserted := Insert(tree, c.tapKey, newLeaf);
      SameAsBefore(commitments, c.tapKey);
      if inserted == None { return Some(SumOverflow); }
      Adopt(c, looksEmpty, inserted.value);
      return None;
    }

    method Delete(c: AssetCommitment) returns (err: Option<Error>)
      requires ValidExcept(c.tapKey)
      modifies this
      ensures err == None && Valid()
      ensures View() == OuterDelete(old(View()), c.tapKey)
      ensures commitments == old(commitments) - {c.tapKey}
    {
      hide Insert, RootOf, Contents, Total, ValidTree, OuterLeaves, InnerLeaf, ValidInner, MaxOf, Consistent, InStep,
           InStepExcept;
      var key := c.tapKey;
      ValidTreeOf(Views(commitments), key, tree, treeRoot);
      DeleteTree(Views(commitments), key, tree, treeRoot);
      var newTree := Insert(tree, key, EMPTY_LEAF).value;
      var newCommitments := commitments - {key};
      assert Views(newCommitments) == Views(commitments) - {key};
      var newVersion := NextVersion(newCommitments);
      Install(newTree, newCommitments, newVersion);
      return None;
    }

    /** The proof for any pair of keys, and the asset if it is there. */
    method Proof(tapKey: Digest, assetKey: Digest) returns (a: Option<Asset>, proof: CommitmentProof.Proof)
      requires Valid()
      ensures ValidOuter(View()) && proof == CommitmentProof.ProofOf(View(), tapKey, assetKey)
      ensures a == if tapKey in commitments && assetKey in commitments[tapKey].assets
                   then Some(commitments[tapKey].assets[assetKey]) else None
    {
      hide RootOf, Contents, Total, ValidTree, OuterLeaves, InnerLeaf, ValidInner, FullProof, FullRoot, Consistent;
      ViewIsValid();
      MerkleProofIsFull(tree, tapKey);
      var tapProof := MerkleProof(tree, tapKey);
      if tapKey !in commitments {
        return None, CommitmentProof.Proof(None, tapProof, version);
      }
      var c := commitments[tapKey];
      var assetProof: TreeProof.Proof;
      a, assetProof := c.AssetProof(assetKey);
      var inner := CommitmentProof.AssetProof(assetProof, c.version, c.tapKey);
      proof := CommitmentProof.Proof(Some(inner), tapProof, version);
    }

    /** Upserts the leaves into the inner commitment they belong to, one by one. */
    static method UpsertLeaves(alt: AssetCommitment, leaves: seq<Asset>, ghost s: Outer) returns (err: Option<Error>)
      requires alt.Valid() && AltProgress(s, leaves, alt.View(), 0)
      modifies alt
      ensures alt.Valid() && alt.tapKey == old(alt.tapKey)
      ensures err == None ==> AltProgress(s, leaves, alt.View(), |leaves|)
      ensures MergeableAlt(s, leaves) ==> err == None
    {
      hide Consistent, AltProgress, InnerUpsert, ValidInner, MergeableAlt;
      var i := 0;
      while i < |leaves|
        invariant 0 <= i <= |leaves|
        invariant alt.Valid() && AltProgress(s, leaves, alt.View(), i) && alt.tapKey == old(alt.tapKey)
      {
        ghost var before := alt.View();
        ConsistentRoot(before, alt.tree, alt.treeRoot);
        if MergeableAlt(s, leaves) { AltStepSucceeds(s, leaves, before, i); }
        err := alt.Upsert(leaves[i]);
        if err != None { return; }
        AltStep(s, leaves, before, alt.View(), i);
        i := i + 1;
      }
      return None;
    }

    /** Changes under one key leave the rest in step. */
    twostate lemma OthersKeepValid(key: Digest)
      requires old(ValidExcept(key)) && unchanged(this)
      requires forall k :: k in commitments && k != key ==> unchanged(commitments[k])
      ensures ValidExcept(key)
      ensures Views(commitments) - {key} == old(Views(commitments)) - {key}
    {
      hide Consistent, InStepExcept;
      assert Views(commitments - {key}) == old(Views(commitments - {key}));
      assert Views(commitments) - {key} == Views(commitments - {key});
      ExceptDependsOnOthers(old(Views(commitments)), Views(commitments), key, tree, treeRoot);
    }

    /** Adds alternative leaves to the inner commitment of the empty genesis, which is made if missing. */
    method MergeAltLeaves(leaves: seq<Asset>) returns (err: Option<Error>)
      requires Valid()
      modifies this, commitments.Values
      ensures leaves == [] ==> unchanged(this)
      ensures err == None <==> leaves == [] || MergeableAlt(old(View()), leaves)
      ensures err == None && leaves != [] ==>
                && Valid()
                && UpsertOutcome(old(View()), AltAfter(old(View()), leaves), View(), None)
      ensures err != None ==> ValidExcept(EMPTY_GENESIS_ID)
      ensures forall k :: k in old(commitments) && k != EMPTY_GENESIS_ID ==> unchanged(old(commitments)[k])
      ensures AddLeafKeys({}, leaves).Err? ==>
                && err == Some(AddLeafKeys({}, leaves).error)
                && unchanged(this) && forall k :: k in commitments ==> unchanged(commitments[k])
    {
      hide Consistent, InStep, InStepExcept, UpsertOutcome, MergeableAlt, AltAfter, AltProgress, ValidInner,
           OuterUpsert, ValidOuter, ValidAltLeaf;
      ValidMeansValidExcept(EMPTY_GENESIS_ID);
      ViewIsValid();
      if leaves == [] { return None; }
      var found := AltCommitment(leaves);
      if found.Err? { return Some(found.error); }
      var alt := found.value;
      err := UpsertLeaves(alt, leaves, old(View()));
      OthersKeepValid(EMPTY_GENESIS_ID);
      if err != None { return; }
      AltDone(old(View()), leaves, alt.View());
      ghost var middle := View();
      ConsistentRoot(alt.View(), alt.tree, alt.treeRoot);
      AltPlacementSucceeds(old(View()), leaves);
      err := Upsert(alt);
      SameSuccess(old(View()), middle, alt.View(), View(), err);
      SameOutcome(old(View()), middle, alt.View(), View(), err);
    }

    /** Checks the leaves, and finds the inner commitment they belong to or makes it of the first of them. */
    method AltCommitment(leaves: seq<Asset>) returns (r: Result<AssetCommitment, Error>)
      requires Valid() && leaves != []
      ensures r.Ok? ==>
                if EMPTY_GENESIS_ID in commitments then r.value == commitments[EMPTY_GENESIS_ID] else fresh(r.value)
      ensures r.Ok? ==> r.value.Valid() && AltProgress(View(), leaves, r.value.View(), 0)
      ensures r.Err? ==> !MergeableAlt(View(), leaves)
      ensures AddLeafKeys({}, leaves).Err? ==> r == Err(AddLeafKeys({}, leaves).error)
    {
      hide Consistent, InStep, MergeableAlt, AssetCommitmentKey, AltProgress, AddLeafKeys, ValidInner, Committable,
           Leaf, OuterLeaves, Total, NewInner, Single;
      ViewIsValid();
      AltRefusals(View(), leaves);
      var keys := AddLeafKeysVerifyUnique({}, leaves);
      if keys.Err? { return Err(keys.error); }
      if EMPTY_GENESIS_ID in commitments {
        var alt := commitments[EMPTY_GENESIS_ID];
        if exists k :: k in alt.assets && k in keys.value { return Err(DuplicateAltLeafKey); }
        r := Ok(alt);
      } else {
        r := AssetCommitment.New([leaves[0]], [[]]);
        NewInnerOfOne(leaves[0], []);
        if r.Err? { return; }
      }
      AltStart(View(), leaves, r.value.View());
    }

    /** Merges one inner commitment into that of its tap key, or adopts it, and places the result. */
    method MergeOne(c: AssetCommitment) returns (err: Option<Error>)
      requires Valid() && c.Valid()
      modifies this, if c.tapKey in commitments then {commitments[c.tapKey]} else {}
      ensures err == None ==>
                Valid() && UpsertOutcome(old(View()), Joined(old(View()).inners, old(c.View())), View(), None)
      ensures err != None ==> ValidExcept(old(c.tapKey))
      ensures SameElsewhere(commitments, old(commitments), old(c.tapKey))
      ensures ValidInners(old(View()).inners) && ValidInner(old(c.View()))
      ensures OneFits(old(View()), old(c.View())) ==> err == None
      ensures err != Some(VersionMismatch)
    {
      hide Consistent, InStep, InStepExcept, UpsertOutcome, Merged, MergeFits, Between, ValidInner, OneFits,
           OuterUpsert, OuterLeaves, Total;
      var key := c.tapKey;
      ghost var s, v := View(), c.View();
      ValidMeansValidExcept(key);
      ViewIsValid();
      ConsistentRoot(v, c.tree, c.treeRoot);
      if key in commitments && OneFits(s, v) { OneFitsInner(s, v); }
      var placed := c;
      if key in commitments {
        placed := commitments[key];
        err := placed.Merge(c);
        OthersKeepValid(key);
        if err != None { return; }
      }
      ghost var middle := View();
      ConsistentRoot(placed.View(), placed.tree, placed.treeRoot);
      JoinedPlacement(s, v);
      err := Upsert(placed);
      SameSuccess(s, middle, placed.View(), View(), err);
      if err == None { SameOutcome(s, middle, placed.View(), View(), err); }
    }

    /**
     * Merges every inner commitment of another commitment of a similar version, in any order.
     * On failure some may have been merged, and one may be out of step.
     */
    method Merge(other: TapCommitment) returns (err: Option<Error>)
      requires Valid() && other.Valid()
      modifies this, commitments.Values
      ensures old(other.commitments) == map[] ==> err == None && unchanged(this)
      ensures old(other.commitments) != map[] ==>
                (err == Some(VersionMismatch) <==> VersionsClash(old(version), old(other.version)))
      ensures err == Some(VersionMismatch) ==> unchanged(this) && unchanged(old(commitments).Values)
      ensures err == None ==> Valid() && MergeOutcome(old(View()), old(other.View()), View())
      ensures err == None && old(other.commitments) != map[] ==>
                (version == 2 <==> old(version) == 2) && (version == 2 <==> old(other.version) == 2)
      ensures err != None ==> exists key :: ValidExcept(key)
      ensures !VersionsClash(old(version), old(other.version)) && OuterMergeFits(old(View()), old(other.View())) ==>
                err == None
    {
      hide Consistent, InStep, InStepExcept, MergeProgress, OuterMergeFits, AllFits, UpdatedVersion;
      if OuterMergeFits(View(), other.View()) { SameInnersFit(View(), other.View()); }
      if other.commitments == map[] { return None; }
      if !SimilarVersions(version, other.version) {
        ValidMeansValidExcept(EMPTY_GENESIS_ID);
        return Some(VersionMismatch);
      }
      ViewKeys(other.commitments);
      ghost var views := Views(other.commitments);
      err := MergeAll(other.commitments, views);
      if err == None {
        ViewIsValid();
        MergedVersion(old(View()), views, View());
      }
    }

    method MergeAll(theirs: Commitments, ghost views: map<Digest, Inner>) returns (err: Option<Error>)
      requires Valid() && AllValid(theirs) && views == Views(theirs)
      modifies this, commitments.Values
      ensures err == None ==> Valid() && MergeProgress(old(View()), views, View(), {})
      ensures err != None ==> exists key :: ValidExcept(key)
      ensures AllFits(old(View()), views, views.Keys) ==> err == None
      ensures err != Some(VersionMismatch)
    {
      hide Consistent, InStep, InStepExcept, UpsertOutcome, Merged, ValidInner, MergeProgress, KeptUnder, LooksEmpty,
           AllFits, OneFits, ValidOuter, OuterLeaves, Total;
      ghost var start, ours := View(), commitments;
      var todo := theirs.Keys;
      ViewKeys(theirs);
      JoinStart(start, views);
      KeptAtFirst(ours);
      while todo != {}
        invariant todo <= theirs.Keys && Valid()
        invariant forall k :: k in todo ==> Shows(theirs[k], views[k], k)
        invariant forall k :: k in todo ==> KeptUnder(commitments, ours, k)
        invariant MergeProgress(start, views, View(), todo)
        invariant AllFits(start, views, views.Keys) ==> AllFits(View(), views, todo)
        decreases todo
      {
        var k :| k in todo;
        KeptMeans(commitments, ours, k);
        ghost var now := View();
        if AllFits(now, views, todo) { NextFits(now, views, todo, k); }
        err := MergeNext(theirs, k, start, views, ours, todo);
        if err != None { return; }
        if AllFits(now, views, todo) { StillFits(now, views, View(), todo, k); }
        todo := todo - {k};
      }
      return None;
    }

    /** One step of the merge, and what it leaves alone. */
    method MergeNext(theirs: Commitments, k: Digest, ghost start: Outer, ghost views: map<Digest, Inner>,
                     ghost ours: Commitments, ghost todo: set<Digest>) returns (err: Option<Error>)
      requires Valid() && k in todo && todo <= theirs.Keys && views.Keys == theirs.Keys
      requires forall j :: j in todo ==> Shows(theirs[j], views[j], j)
      requires forall j :: j in todo ==> KeptUnder(commitments, ours, j)
      requires MergeProgress(start, views, View(), todo)
      modifies this, if k in commitments then {commitments[k]} else {}
      ensures err == None ==>
                && Valid() && MergeProgress(start, views, View(), todo - {k})
                && (forall j :: j in todo && j != k ==> Shows(theirs[j], views[j], j))
                && (forall j :: j in todo && j != k ==> KeptUnder(commitments, ours, j))
      ensures err != None ==> ValidExcept(k)
      ensures err == None ==> UpsertOutcome(old(View()), Joined(old(View()).inners, views[k]), View(), None)
      ensures ValidOuter(old(View())) && ValidInner(views[k]) && (OneFits(old(View()), views[k]) ==> err == None)
      ensures err != Some(VersionMismatch)
    {
      hide Consistent, InStep, InStepExcept, UpsertOutcome, Merged, ValidInner, MergeProgress, KeptUnder, LooksEmpty,
           OneFits, OuterLeaves, Total;
      ViewIsValid();
      ghost var was, now := commitments, View();
      assert k in commitments ==> commitments[k].tapKey == k;
      err := MergeOne(theirs[k]);
      if err != None { return; }
      JoinStep(start, views, now, View(), todo, k);
      KeptStep(was, commitments, ours, k);
    }

    /** Merges a commitment into the one of the same tap key, or takes it as it is. */
    static method MergeOrTake(m: Commitments, c: AssetCommitment, ghost views: map<Digest, Inner>, ghost v: Inner)
      returns (err: Option<Error>, m': Commitments)
      requires AllValid(m) && Views(m) == views && c.Valid() && c.View() == v
      modifies if v.tapKey in m then {m[v.tapKey]} else {}
      ensures AllValid(m) && c.Valid() && c.tapKey == v.tapKey
      ensures m' == (if v.tapKey in m then m else m[v.tapKey := c])
      ensures err == None ==> AllValid(m') && Views(m') == CollectNext(views, v)
      ensures err != None ==> v.tapKey in m
      ensures v.tapKey in m && ValidInner(views[v.tapKey]) && ValidInner(v) && MergeFits(views[v.tapKey], v) ==>
                err == None
    {
      hide Consistent, ValidInner, Merged, MergeFits, Between;
      err, m' := None, m;
      if c.tapKey in m {
        err := m[c.tapKey].Merge(c);
      } else {
        m' := m[c.tapKey := c];
      }
    }

    /** Takes in one inner commitment and its leaf. */
    static method PlaceNext(m: Commitments, tree: Tree, c: AssetCommitment, ghost views: map<Digest, Inner>,
                            ghost v: Inner)
      returns (err: Option<Error>, m': Commitments, tree': Tree)
      requires AllValid(m) && Views(m) == views && Carries(tree, views)
      requires c.Valid() && c.View() == v
      modifies if v.tapKey in m then {m[v.tapKey]} else {}
      ensures AllValid(m) && c.Valid() && c.tapKey == v.tapKey
      ensures m' == (if v.tapKey in m then m else m[v.tapKey := c])
      ensures err == None ==>
                AllValid(m') && Views(m') == CollectNext(views, v) && Carries(tree', CollectNext(views, v))
      ensures err != None && v.tapKey !in m ==> err == Some(SumOverflow) && TooLarge(CollectNext(views, v))
      ensures NextWouldFit(views, v) ==> err == None
    {
      hide Insert, Contents, Total, ValidTree, OuterLeaves, InnerLeaf, ValidInner, Consistent, Carries, CollectNext,
           FullRoot, ValidInners, TooLarge, AllValid, Views, NextWouldFit, MergeFits;
      tree' := tree;
      ViewKeys(m);
      if NextWouldFit(views, v) { FittingNext(views, v); }
      err, m' := MergeOrTake(m, c, views, v);
      if err == None {
        ViewAt(m', v.tapKey);
        NextLeaf(views, v);
        var placed := m'[c.tapKey];
        var leaf := placed.TapCommitmentLeaf();
        CarriesNext(tree, views, CollectNext(views, v), placed.View());
        var inserted := Insert(tree, placed.tapKey, leaf);
        if inserted == None { return Some(SumOverflow), m', tree; }
        tree' := inserted.value;
      }
    }

    /** Takes in the next of a list of commitments, and keeps the list sound. */
    static method PlaceListed(m: Commitments, tree: Tree, cs: seq<AssetCommitment>, i: nat, ghost listed: seq<Inner>)
      returns (err: Option<Error>, m': Commitments, tree': Tree)
      requires AllListed(cs, listed) && i < |cs|
      requires AllValid(m) && Carries(tree, Views(m))
      modifies if cs[i].tapKey in m then {m[cs[i].tapKey]} else {}
      ensures AllListed(cs, listed)
      ensures m' == (if cs[i].tapKey in m then m else m[cs[i].tapKey := cs[i]])
      ensures err == None ==>
                AllValid(m') && Views(m') == CollectNext(old(Views(m)), old(cs[i].View())) && Carries(tree', Views(m'))
      ensures err != None && cs[i].tapKey !in m ==>
                err == Some(SumOverflow) && TooLarge(CollectNext(old(Views(m)), old(cs[i].View())))
      ensures NextWouldFit(old(Views(m)), old(cs[i].View())) ==> err == None
      ensures NoAlias(cs) && DrawnFrom(m, cs, i) && old(LaterShow(cs, listed, i)) ==> LaterShow(cs, listed, i + 1)
    {
      hide Consistent, Carries, CollectNext, TooLarge, Views, NoAlias, DrawnFrom, NextWouldFit;
      if NoAlias(cs) && DrawnFrom(m, cs, i) { NotDrawnYet(m, cs, i); }
      assert forall j :: 0 <= j < |cs| && cs[j] in m.Values ==> Under(m, listed[j].tapKey, cs[j]);
      err, m', tree' := PlaceNext(m, tree, cs[i], Views(m), cs[i].View());
    }

    /** Takes in all the commitments of a list, and the largest of their versions. */
    static method PlaceAll(cs: seq<AssetCommitment>, ghost views: seq<Inner>)
      returns (err: Option<Error>, m: Commitments, tree: Tree, maxVersion: byte)
      requires AllListed(cs, views) && ListViews(cs) == views && ValidViews(views)
      modifies cs
      ensures AllListed(cs, views) && (DistinctTapKeys(views) ==> unchanged(cs))
      ensures err == None ==> AllValid(m) && Carries(tree, Views(m)) && DrawnFrom(m, cs, |cs|)
      ensures err == None && NoAlias(cs) ==> Views(m) == Collect(views) && IsMax(ListVersions(views), maxVersion as nat)
      ensures err != None && DistinctTapKeys(views) ==>
                err == Some(SumOverflow) && exists i :: 0 <= i <= |views| && TooLarge(Collect(views[..i]))
      ensures NoAlias(cs) && ListFits(views) ==> err == None
    {
      hide Carries, FitsSoFar, ListFits, NextWouldFit, TooLarge, Total, OuterLeaves, ValidInner, ValidInners,
           Consistent, InStep, Collect, ListVersions, CollectNext, DistinctTapKeys, Views, AllValid, IsMax, DrawnFrom,
           NoAlias, AllListed;
      AllShow(cs, views);
      NothingFits(views);
      tree, m, maxVersion := NEW_TREE, map[], 0;
      NewTreeCarriesNothing();
      NothingCollected(views);
      NoViews(cs);
      DistinctMeansNoAlias(cs);
      var i := 0;
      while i < |cs|
        invariant 0 <= i <= |cs|
        invariant AllValid(m) && Carries(tree, Views(m)) && AllListed(cs, views)
        invariant DrawnFrom(m, cs, i) && (DistinctTapKeys(views) ==> unchanged(cs))
        invariant NoAlias(cs) ==> LaterShow(cs, views, i)
        invariant NoAlias(cs) && ListFits(views) ==> FitsSoFar(views, i)
        invariant NoAlias(cs) ==> Views(m) == Collect(views[..i]) && IsMax(ListVersions(views[..i]), maxVersion as nat)
      {
        ghost var was := m;
        NotDrawnYet(m, cs, i);
        MaxStep(views, i, maxVersion);
        CollectStep(views, i);
        ViewKeys(m);
        ListedAt(cs, views, i);
        ShownAt(cs, views, i);
        if NoAlias(cs) && ListFits(views) { NextListedFits(views, i); }
        if DistinctTapKeys(views) { NextIsNew(views, i); }
        if cs[i].version > maxVersion { maxVersion := cs[i].version; }
        err, m, tree := PlaceListed(m, tree, cs, i, views);
        if err != None {
          assert DistinctTapKeys(views) ==> TooLarge(Collect(views[..i + 1]));
          return;
        }
        DrawnStep(was, m, cs, i, cs[i].tapKey);
        CarriesValid(tree, Views(m));
        if NoAlias(cs) && ListFits(views) { FitsSoFarStep(views, i); }
        i := i + 1;
      }
      assert views[..i] == views;
      return None, m, tree, maxVersion;
    }

    /**
     * Commits to a list of inner commitments; one whose tap key has been seen is merged into the
     * first of that key. Without a version the maximum of the list is taken.
     */
    static method New(version: Option<byte>, cs: seq<AssetCommitment>) returns (r: Result<TapCommitment, Error>)
      requires forall i :: 0 <= i < |cs| ==> cs[i].Valid()
      modifies cs
      ensures AllListed(cs, old(ListViews(cs)))
      ensures r.Ok? ==> fresh(r.value) && r.value.Valid() && DrawnFrom(r.value.commitments, cs, |cs|)
      ensures r.Ok? && NoAlias(cs) ==> NewOutcome(version, old(ListViews(cs)), r.value.View())
      ensures NoAlias(cs) && ListFits(old(ListViews(cs))) && (version.Some? ==> version.value <= V2) ==> r.Ok?
      ensures DistinctTapKeys(old(ListViews(cs))) ==>
                && unchanged(cs) && ValidInners(Collect(old(ListViews(cs))))
                && match NewOuter(version, Collect(old(ListViews(cs))))
                   case Ok(s) => r.Ok? && r.value.View() == s
                   case Err(e) => r == Err(e)
    {
      hide Carries, TooLarge, Total, OuterLeaves, ValidInner, Consistent, InStep, Collect, ListVersions, CollectNext,
           DistinctTapKeys, MaxOf, NewOuter, NewOutcome, ListFits, AllListed, Views, AllValid, ListViews, ValidViews,
           ValidInners;
      ghost var views := ListViews(cs);
      DistinctMeansNoAlias(cs);
      SoundViews(cs);
      if DistinctTapKeys(views) { CollectValid(views); }
      var err, m, tree, maxVersion := PlaceAll(cs, views);
      if err != None {
        if DistinctTapKeys(views) {
          ghost var i :| 0 <= i <= |views| && TooLarge(Collect(views[..i]));
          PrefixOverflows(version, views, i);
        }
        return Err(err.value);
      }
      if version.Some? && version.value > V2 {
        if DistinctTapKeys(views) { BadVersion(version.value, views, tree); }
        return Err(InvalidTapCommitmentVersion);
      }
      var c := new TapCommitment(if version.Some? then version.value else maxVersion, m, tree);
      if NoAlias(cs) {
        NewOutcomeHolds(version, views, maxVersion, c.View());
        if DistinctTapKeys(views) {
          c.ViewIsValid();
          NewOutcomeIsNewOuter(version, views, c.View());
        }
      }
      return Ok(c);
    }
  }
}
