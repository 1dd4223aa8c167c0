/** What an import does, said over the fields of the entries and what the outside world answers. */
module ImportMeaning {
  import opened Bytes
  import opened Assets
  import opened Import

  // ----- Which groups are known -----

  /** The entry's asset claims the key, and its record derives it and has a witness. */
  ghost predicate Describes(env: Env, e: Entry, key: PubKey) {
    && e.hasAsset && e.groupKey == Some(key)
    && e.groupInfo.Some? && e.groupInfo.value.hasWitness && env.derive(e.groupInfo.value) == Some(key)
  }

  lemma DescribesIff(env: Env, e: Entry, key: PubKey)
    ensures RecordedGroup(env, e).Some? && e.groupKey == Some(key) <==> Describes(env, e, key)
    ensures RecordedGroup(env, e).Some? ==> RecordedGroup(env, e) == e.groupInfo
  {
  }

  lemma {:induction false} RecordedIsDescribed(env: Env, es: seq<Entry>, key: PubKey)
    ensures key in Recorded(env, es) <==> exists e :: e in es && Describes(env, e, key)
    ensures key in Recorded(env, es) ==>
              env.derive(Recorded(env, es)[key]) == Some(key) && Recorded(env, es)[key].hasWitness
  {
    hide RecordedGroup;
    RecordedKeys(env, es, key);
    forall e ensures RecordedGroup(env, e).Some? && e.groupKey == Some(key) <==> Describes(env, e, key) {
      DescribesIff(env, e, key);
    }
    if es != [] {
      var front, e := es[..|es| - 1], es[|es| - 1];
      RecordedIsDescribed(env, front, key);
      DescribesIff(env, e, key);
      RecordHasKey(env, e);
    }
  }

  /** Every group that is inserted derives the key it is inserted for, and has a witness. */
  lemma InsertedGroupsAreGenuine(env: Env, es: seq<Entry>, key: PubKey, group: GroupInfo)
    requires InsertGroup(key, group) in Imported(env, es).progress.trace
    ensures env.derive(group) == Some(key) && group.hasWitness
    ensures exists e :: e in es && Describes(env, e, key)
  {
    hide Imported, Recorded, Registered;
    ImportIsOrderly(env, es);
    var trace := Imported(env, es).progress.trace;
    var t :| 0 <= t < |trace| && trace[t] == InsertGroup(key, group);
    assert Allowed(es, Recorded(env, es), trace[..t], trace[t]);
    RecordedIsDescribed(env, es, key);
  }

  /** The proof data an entry stores: the full proof, or else the stripped one. */
  ghost predicate Stores(e: Entry, blob: bytes) {
    blob != [] && (e.proofBlob == blob || (e.proofBlob == [] && e.strippedBlob == blob))
  }

  /** The full proof that is had for an entry: stored, rehydrated, or fetched when nothing is stored. */
  ghost predicate Obtains(env: Env, e: Entry, blob: bytes) {
    if blob == [] then false
    else if e.proofBlob != [] then e.proofBlob == blob
    else if e.strippedBlob != [] then env.rehydrate(e) == Some(blob)
    else env.federation && env.fetch(e) == Some(blob)
  }

  /** The entry is named, its outpoint unspent, and the wallet does not have it. */
  ghost predicate IsReached(env: Env, e: Entry) {
    e.hasAsset && e.hasScriptKey && !env.spent(e) && e.locator !in env.archive
  }

  lemma ObtainsIff(env: Env, e: Entry, blob: bytes)
    ensures Obtains(env, e, blob) <==> blob != [] && BlobOf(env, e) == Some(blob)
  {
  }

  lemma RevealedFirstIff(env: Env, e: Entry, key: PubKey)
    ensures key in RevealedAtFirst(env, e) <==> exists blob :: Stores(e, blob) && env.groupKeyIn(blob) == Some(key)
  {
    if key in RevealedAtFirst(env, e) {
      var blob := if e.proofBlob != [] then e.proofBlob else e.strippedBlob;
      assert Stores(e, blob) && env.groupKeyIn(blob) == Some(key);
    }
  }

  lemma RevealedByIff(env: Env, e: Entry, key: PubKey)
    ensures key in RevealedBy(env, env.archive, e) <==>
            IsReached(env, e) && exists blob :: Obtains(env, e, blob) && env.groupKeyIn(blob) == Some(key)
  {
    hide BlobOf, Obtains;
    forall blob ensures Obtains(env, e, blob) <==> blob != [] && BlobOf(env, e) == Some(blob) {
      ObtainsIff(env, e, blob);
    }
  }

  /** Some entry describes the key, stores a proof that reveals it, or is reached and its proof reveals it. */
  ghost predicate MadeKnown(env: Env, e: Entry, key: PubKey) {
    || Describes(env, e, key)
    || (exists blob :: Stores(e, blob) && env.groupKeyIn(blob) == Some(key))
    || (IsReached(env, e) && exists blob :: Obtains(env, e, blob) && env.groupKeyIn(blob) == Some(key))
  }

  /** The group keys ever known are exactly those that some entry makes known. */
  lemma KnownExactly(env: Env, es: seq<Entry>, key: PubKey)
    ensures key in FinalKnown(env, es) <==> exists e :: e in es && MadeKnown(env, e, key)
  {
    hide RevealedAtFirst, RevealedBy, Recorded, Describes, Stores, Obtains, IsReached;
    RecordedIsDescribed(env, es, key);
    assert es[..|es|] == es;
    forall e ensures MadeKnown(env, e, key) <==>
                     Describes(env, e, key) || key in RevealedAtFirst(env, e) || key in RevealedBy(env, env.archive, e)
    {
      RevealedFirstIff(env, e, key);
      RevealedByIff(env, e, key);
    }
  }

  // ----- Which entries are staked -----

  /** Every key the entry describes comes with the public keys needed to register it. */
  ghost predicate CanRegister(e: Entry) {
    && (e.anchorKey.Some? ==> e.anchorKey.value.hasPubKey)
    && (e.scriptKey.Some? ==> e.scriptKey.value.hasPubKey && e.scriptKey.value.hasRawKey)
  }

  /**
   * Without database failures an entry is staked exactly if it is reached, can be registered, and its proof
   * verifies under all the group keys that some entry makes known.
   */
  lemma StakedInPlainTerms(env: Env, es: seq<Entry>, i: nat)
    requires Reliable(env) && Monotone(env) && DistinctLocators(es) && i < |es|
    ensures var known := FinalKnown(env, es);
            Stake(i) in Imported(env, es).progress.trace
            <==> IsReached(env, es[i]) && CanRegister(es[i])
                 && exists blob :: Obtains(env, es[i], blob) && env.verify(blob, known) == Verified
  {
    hide Imported, FinalKnown, BlobOf, Obtains, Monotone;
    StakedExactly(env, es, i);
    forall blob ensures Obtains(env, es[i], blob) <==> blob != [] && BlobOf(env, es[i]) == Some(blob) {
      ObtainsIff(env, es[i], blob);
    }
  }

  // ----- Which keys are registered -----

  /** An anchor key is only inserted if the wallet owns it, a group only if there is a registrar. */
  ghost predicate KeysAreOwned(env: Env, es: seq<Entry>, trace: seq<Action>) {
    (forall i: nat ::
      && (InsertAnchorKey(i) in trace ==>
            i < |es| && es[i].anchorKey.Some? && es[i].anchorKey.value.hasLocator && CanRegister(es[i]))
      && (InsertScriptKey(i) in trace ==> i < |es| && es[i].scriptKey.Some? && CanRegister(es[i])))
    && forall key, group :: InsertGroup(key, group) in trace ==> env.registers
  }

  lemma RegisterOwned(env: Env, es: seq<Entry>, i: nat, p: Progress)
    requires KeysAreOwned(env, es, p.trace) && i < |es| && CanRegister(es[i])
    ensures KeysAreOwned(env, es, RegisterKeys(env, es[i], i, p).progress.trace)
  {
  }

  lemma StakeAndPersistOwned(env: Env, es: seq<Entry>, groups: Groups, i: nat, p: Progress, skipped: nat)
    requires KeysAreOwned(env, es, p.trace) && i < |es| && StakeIt(env, es[i], i, p).Some?
    ensures var staked := StakeIt(env, es[i], i, p).value.(skipped := skipped);
            KeysAreOwned(env, es, Persist(env, groups, es[i], staked).progress.trace)
  {
  }

  lemma MainStepOwned(env: Env, es: seq<Entry>, groups: Groups, n: nat, p: Progress)
    requires KeysAreOwned(env, es, p.trace) && n < |es|
    ensures KeysAreOwned(env, es, MainStep(env, groups, es[n], n, p).progress.trace)
  {
    hide RegisterKeys, StakeIt, Persist, BlobOf, Revealed;
    var e := es[n];
    if Named(e) && !env.spent(e) && Call(env, p).Some? && e.locator !in p.archive && BlobOf(env, e).Some?
       && CanRegister(e)
    {
      var blob := BlobOf(env, e).value;
      var p1 := Call(env, p).value.(known := p.known + Revealed(env, blob), blobs := p.blobs[n := blob]);
      RegisterOwned(env, es, n, p1);
      var p2 := RegisterKeys(env, e, n, p1).progress;
      if StakeIt(env, e, n, p2).Some? {
        var p3 := StakeIt(env, e, n, p2).value;
        assert p3.(skipped := p3.skipped) == p3;
        StakeAndPersistOwned(env, es, groups, n, p2, p3.skipped);
      }
    }
  }

  lemma RetryStepOwned(env: Env, es: seq<Entry>, groups: Groups, i: nat, p: Progress)
    requires KeysAreOwned(env, es, p.trace) && i < |es|
    ensures KeysAreOwned(env, es, RetryStep(env, groups, es[i], i, p).progress.trace)
  {
    hide StakeIt, Persist;
    if StakeIt(env, es[i], i, p).Some? {
      var p1 := StakeIt(env, es[i], i, p).value;
      StakeAndPersistOwned(env, es, groups, i, p, if p1.skipped > 0 then p1.skipped - 1 else U32_LIMIT - 1);
    }
  }

  lemma {:induction false} MainPassOwned(env: Env, es: seq<Entry>, n: nat)
    requires n <= |es|
    ensures KeysAreOwned(env, es, MainPass(env, es, n).progress.trace)
  {
    hide MainStep, Recorded, KnownAtFirst;
    if n > 0 {
      MainPassOwned(env, es, n - 1);
      MainStepOwned(env, es, Recorded(env, es), n - 1, MainPass(env, es, n - 1).progress);
    }
  }

  lemma {:induction false} RetryPassOwned(env: Env, es: seq<Entry>, p: Progress, todo: seq<nat>)
    requires KeysAreOwned(env, es, p.trace)
    ensures KeysAreOwned(env, es, RetryPass(env, es, p, todo).progress.trace)
    decreases todo
  {
    hide RetryStep, Recorded, KeysAreOwned;
    if todo != [] {
      var front, i := todo[..|todo| - 1], todo[|todo| - 1];
      RetryPassOwned(env, es, p, front);
      if i < |es| { RetryStepOwned(env, es, Recorded(env, es), i, RetryPass(env, es, p, front).progress); }
    }
  }

  /**
   * Before an entry is staked its anchor key has been inserted if the wallet owns it, and its script key if it
   * has one; no other keys are ever inserted, and no groups without a registrar. This holds whether or not the
   * import completes.
   */
  lemma KeysInPlainTerms(env: Env, es: seq<Entry>, t: nat)
    requires t < |Imported(env, es).progress.trace|
    ensures var trace := Imported(env, es).progress.trace;
            match trace[t]
            case Stake(i) =>
              && i < |es|
              && (es[i].anchorKey.Some? && es[i].anchorKey.value.hasLocator ==> InsertAnchorKey(i) in trace[..t])
              && (es[i].scriptKey.Some? ==> InsertScriptKey(i) in trace[..t])
            case InsertAnchorKey(i) =>
              i < |es| && es[i].anchorKey.Some? && es[i].anchorKey.value.hasLocator && es[i].anchorKey.value.hasPubKey
            case InsertScriptKey(i) =>
              i < |es| && es[i].scriptKey.Some? && es[i].scriptKey.value.hasPubKey && es[i].scriptKey.value.hasRawKey
            case InsertGroup(_, _) => env.registers
  {
    hide MainPass, RetryPass, Recorded;
    ImportIsOrderly(env, es);
    var trace := Imported(env, es).progress.trace;
    assert Allowed(es, Recorded(env, es), trace[..t], trace[t]);
    MainPassOwned(env, es, |es|);
    var main := MainPass(env, es, |es|);
    RetryPassOwned(env, es, main.progress, main.progress.retry);
    assert trace[t] in trace;
  }

  // ----- The counters -----

  ghost function Stakes(trace: seq<Action>): nat {
    if trace == [] then 0 else Stakes(trace[..|trace| - 1]) + if trace[|trace| - 1].Stake? then 1 else 0
  }

  lemma StakesAppend(trace: seq<Action>, a: Action)
    ensures Stakes(trace + [a]) == Stakes(trace) + if a.Stake? then 1 else 0
  {
    assert (trace + [a])[..|trace|] == trace;
  }

  /** Named entries whose outpoint has been spent. */
  ghost function StaleEntries(env: Env, es: seq<Entry>, n: nat): nat
    requires n <= |es|
  {
    if n == 0 then 0 else
    var e := es[n - 1];
    StaleEntries(env, es, n - 1) + if e.hasAsset && e.hasScriptKey && env.spent(e) then 1 else 0
  }

  /** Named and unspent entries that the wallet had before. */
  ghost function PresentEntries(env: Env, es: seq<Entry>, n: nat): nat
    requires n <= |es|
  {
    if n == 0 then 0 else
    var e := es[n - 1];
    PresentEntries(env, es, n - 1)
    + if e.hasAsset && e.hasScriptKey && !env.spent(e) && e.locator in env.archive then 1 else 0
  }

  lemma DoCounts(env: Env, p: Progress, a: Action)
    ensures Do(env, p, a).Some? ==>
              && Stakes(Do(env, p, a).value.trace) == Stakes(p.trace) + (if a.Stake? then 1 else 0)
              && Do(env, p, a).value == p.(trace := p.trace + [a], calls := p.calls + 1)
  {
    hide Stakes;
    StakesAppend(p.trace, a);
  }

  lemma RegisterCounts(env: Env, e: Entry, i: nat, p: Progress)
    ensures var q := RegisterKeys(env, e, i, p).progress;
            Stakes(q.trace) == Stakes(p.trace) && q == p.(trace := q.trace, calls := q.calls)
  {
    hide Do;
    DoCounts(env, p, InsertAnchorKey(i));
    var p1 := if NeedsAnchorKey(e) then Do(env, p, InsertAnchorKey(i)) else Some(p);
    if p1.Some? { DoCounts(env, p1.value, InsertScriptKey(i)); }
  }

  lemma StakeCounts(env: Env, groups: Groups, e: Entry, i: nat, p: Progress, skipped: nat)
    ensures StakeIt(env, e, i, p).Some? ==>
              var q := Persist(env, groups, e, StakeIt(env, e, i, p).value.(skipped := skipped)).progress;
              && Stakes(q.trace) == Stakes(p.trace) + 1 && q.imported == p.imported + 1
              && q.stale == p.stale && q.present == p.present
  {
    hide Do;
    DoCounts(env, p, Stake(i));
    if Do(env, p, Stake(i)).Some? && e.groupKey.Some? && e.groupKey.value in groups {
      var p1 := StakeIt(env, e, i, p).value.(skipped := skipped);
      DoCounts(env, p1, InsertGroup(e.groupKey.value, groups[e.groupKey.value]));
    }
  }

  lemma MainStepCounts(env: Env, groups: Groups, e: Entry, i: nat, p: Progress)
    requires p.imported == Stakes(p.trace)
    ensures var r := MainStep(env, groups, e, i, p);
            && r.progress.imported == Stakes(r.progress.trace)
            && (r.ok ==>
                  && r.progress.stale == p.stale + (if e.hasAsset && e.hasScriptKey && env.spent(e) then 1 else 0)
                  && r.progress.present == p.present
                     + (if e.hasAsset && e.hasScriptKey && !env.spent(e) && e.locator in p.archive then 1 else 0))
  {
    hide RegisterKeys, StakeIt, Persist, BlobOf, Revealed, KeysComplete, Stakes;
    if Named(e) && !env.spent(e) && Call(env, p).Some? && e.locator !in p.archive && BlobOf(env, e).Some? {
      var blob := BlobOf(env, e).value;
      var p1 := Call(env, p).value.(known := p.known + Revealed(env, blob), blobs := p.blobs[i := blob]);
      RegisterCounts(env, e, i, p1);
      var p2 := RegisterKeys(env, e, i, p1).progress;
      if StakeIt(env, e, i, p2).Some? {
        var p3 := StakeIt(env, e, i, p2).value;
        assert p3.(skipped := p3.skipped) == p3;
        StakeCounts(env, groups, e, i, p2, p3.skipped);
      }
    }
  }

  lemma RetryStepCounts(env: Env, groups: Groups, e: Entry, i: nat, p: Progress)
    requires p.imported == Stakes(p.trace)
    ensures var q := RetryStep(env, groups, e, i, p).progress;
            q.imported == Stakes(q.trace) && q.stale == p.stale && q.present == p.present
  {
    hide StakeIt, Persist, Stakes;
    if StakeIt(env, e, i, p).Some? {
      var p1 := StakeIt(env, e, i, p).value;
      StakeCounts(env, groups, e, i, p, if p1.skipped > 0 then p1.skipped - 1 else U32_LIMIT - 1);
    }
  }

  lemma {:induction false} MainPassCounts(env: Env, es: seq<Entry>, n: nat)
    requires n <= |es|
    ensures var r := MainPass(env, es, n);
            && r.progress.imported == Stakes(r.progress.trace)
            && (r.ok ==> r.progress.stale == StaleEntries(env, es, n))
  {
    hide MainStep, Recorded, KnownAtFirst;
    if n > 0 {
      MainPassCounts(env, es, n - 1);
      MainStepCounts(env, Recorded(env, es), es[n - 1], n - 1, MainPass(env, es, n - 1).progress);
    }
  }

  lemma {:induction false} RetryPassCounts(env: Env, es: seq<Entry>, p: Progress, todo: seq<nat>)
    requires p.imported == Stakes(p.trace)
    ensures var q := RetryPass(env, es, p, todo).progress;
            q.imported == Stakes(q.trace) && q.stale == p.stale && q.present == p.present
    decreases todo
  {
    hide RetryStep, Recorded, Stakes;
    if todo != [] {
      var front, i := todo[..|todo| - 1], todo[|todo| - 1];
      RetryPassCounts(env, es, p, front);
      if i < |es| { RetryStepCounts(env, Recorded(env, es), es[i], i, RetryPass(env, es, p, front).progress); }
    }
  }

  /** What is counted as imported is what was staked, however the import ends; what is stale is what was spent. */
  lemma CountersInPlainTerms(env: Env, es: seq<Entry>)
    ensures var r := Imported(env, es);
            && r.progress.imported == Stakes(r.progress.trace)
            && (r.ok ==> r.progress.stale == StaleEntries(env, es, |es|))
  {
    hide MainPass, RetryPass, Stakes, StaleEntries;
    MainPassCounts(env, es, |es|);
    var main := MainPass(env, es, |es|);
    RetryPassCounts(env, es, main.progress, main.progress.retry);
  }

  lemma {:induction false} MainPassPresent(env: Env, es: seq<Entry>, n: nat)
    requires Reliable(env) && Monotone(env) && DistinctLocators(es) && n <= |es|
    ensures MainPass(env, es, n).progress.present == PresentEntries(env, es, n)
  {
    hide MainStep, Recorded, KnownAtFirst, Decided, Stakes, Monotone, DistinctLocators;
    if n > 0 {
      MainPassPresent(env, es, n - 1);
      MainPassDecides(env, es, n - 1);
      MainPassDecides(env, es, n);
      MainPassCounts(env, es, n - 1);
      var p := MainPass(env, es, n - 1).progress;
      MainStepCounts(env, Recorded(env, es), es[n - 1], n - 1, p);
      SameLocator(env, es, n - 1, p);
    }
  }

  lemma SameLocator(env: Env, es: seq<Entry>, n: nat, p: Progress)
    requires Decided(env, es, n, p) && DistinctLocators(es) && n < |es|
    ensures Named(es[n]) ==> (es[n].locator in p.archive <==> es[n].locator in env.archive)
  {
    hide BlobOf, KeysComplete, KnownAfter, Hopeless;
  }

  /** Without database failures, what is already present is what the wallet had before. */
  lemma PresentInPlainTerms(env: Env, es: seq<Entry>)
    requires Reliable(env) && Monotone(env) && DistinctLocators(es)
    ensures Imported(env, es).progress.present == PresentEntries(env, es, |es|)
  {
    hide MainPass, RetryPass, Stakes, PresentEntries, Monotone, DistinctLocators;
    MainPassPresent(env, es, |es|);
    MainPassCounts(env, es, |es|);
    var main := MainPass(env, es, |es|);
    RetryPassCounts(env, es, main.progress, main.progress.retry);
  }

  // ----- Failures -----

  /** Every call so far has succeeded, and the import goes on exactly until the first that does not. */
  ghost predicate StopsAtFailure(env: Env, r: Outcome) {
    && (forall n: nat :: n < r.progress.calls ==> !env.fails(n))
    && (!r.ok ==> env.fails(r.progress.calls))
  }

  lemma RegisterStops(env: Env, e: Entry, i: nat, p: Progress)
    requires StopsAtFailure(env, Outcome(p, true))
    ensures StopsAtFailure(env, RegisterKeys(env, e, i, p))
  {
  }

  lemma StakeStops(env: Env, groups: Groups, e: Entry, i: nat, p: Progress, skipped: nat)
    requires StopsAtFailure(env, Outcome(p, true))
    ensures match StakeIt(env, e, i, p)
            case None => StopsAtFailure(env, Outcome(p, false))
            case Some(p') => StopsAtFailure(env, Persist(env, groups, e, p'.(skipped := skipped)))
  {
  }

  lemma MainStepStops(env: Env, groups: Groups, e: Entry, i: nat, p: Progress)
    requires StopsAtFailure(env, Outcome(p, true))
    ensures StopsAtFailure(env, MainStep(env, groups, e, i, p))
  {
    hide RegisterKeys, StakeIt, Persist, BlobOf, Revealed, KeysComplete;
    if Named(e) && !env.spent(e) && Call(env, p).Some? && e.locator !in p.archive && BlobOf(env, e).Some? {
      var blob := BlobOf(env, e).value;
      var p1 := Call(env, p).value.(known := p.known + Revealed(env, blob), blobs := p.blobs[i := blob]);
      RegisterStops(env, e, i, p1);
      var p2 := RegisterKeys(env, e, i, p1).progress;
      if RegisterKeys(env, e, i, p1).ok {
        var skipped := if StakeIt(env, e, i, p2).Some? then StakeIt(env, e, i, p2).value.skipped else 0;
        StakeStops(env, groups, e, i, p2, skipped);
      }
    }
  }

  lemma RetryStepStops(env: Env, groups: Groups, e: Entry, i: nat, p: Progress)
    requires StopsAtFailure(env, Outcome(p, true))
    ensures StopsAtFailure(env, RetryStep(env, groups, e, i, p))
  {
    hide StakeIt, Persist;
    var skipped := if StakeIt(env, e, i, p).Some? then StakeIt(env, e, i, p).value.skipped else 0;
    StakeStops(env, groups, e, i, p, if skipped > 0 then skipped - 1 else U32_LIMIT - 1);
  }

  lemma {:induction false} MainPassStopsThere(env: Env, es: seq<Entry>, n: nat)
    requires n <= |es|
    ensures StopsAtFailure(env, MainPass(env, es, n))
  {
    hide MainStep, Recorded, KnownAtFirst;
    if n > 0 {
      MainPassStopsThere(env, es, n - 1);
      var before := MainPass(env, es, n - 1);
      if before.ok { MainStepStops(env, Recorded(env, es), es[n - 1], n - 1, before.progress); }
    }
  }

  lemma {:induction false} RetryPassStopsThere(env: Env, es: seq<Entry>, p: Progress, todo: seq<nat>)
    requires StopsAtFailure(env, Outcome(p, true))
    ensures StopsAtFailure(env, RetryPass(env, es, p, todo))
    decreases todo
  {
    hide RetryStep, Recorded;
    if todo != [] {
      var front, i := todo[..|todo| - 1], todo[|todo| - 1];
      RetryPassStopsThere(env, es, p, front);
      var before := RetryPass(env, es, p, front);
      if before.ok && i < |es| { RetryStepStops(env, Recorded(env, es), es[i], i, before.progress); }
    }
  }

  /** An import fails exactly at the first database call that fails. */
  lemma FailsAtFirstFailure(env: Env, es: seq<Entry>)
    ensures StopsAtFailure(env, Imported(env, es))
  {
    hide MainPass, RetryPass;
    MainPassStopsThere(env, es, |es|);
    var main := MainPass(env, es, |es|);
    if main.ok { RetryPassStopsThere(env, es, main.progress, main.progress.retry); }
  }
}
