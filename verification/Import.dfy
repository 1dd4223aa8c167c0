/** Restoring a backup: one pass over the entries, a retry pass for those whose group was not yet known. */
module Import {
  import opened Bytes
  import opened Hashing
  import opened Assets

  datatype Locator = Locator(assetId: Digest, scriptKey: PubKey, outPoint: OutPoint)

  /** The raw key and anchor genesis a group key can be derived from again. */
  datatype GroupInfo = GroupInfo(description: bytes, hasWitness: bool)

  datatype AnchorKeyInfo = AnchorKeyInfo(hasPubKey: bool, hasLocator: bool)

  datatype ScriptKeyInfo = ScriptKeyInfo(hasPubKey: bool, hasRawKey: bool)

  datatype Entry = Entry(
    hasAsset: bool,
    hasScriptKey: bool,
    locator: Locator,
    groupKey: Option<PubKey>,
    groupInfo: Option<GroupInfo>,
    proofBlob: bytes,
    strippedBlob: bytes,
    anchorKey: Option<AnchorKeyInfo>,
    scriptKey: Option<ScriptKeyInfo>)

  datatype Verdict = Verified | GroupUnknown | Invalid

  /** What lies outside: chain, universe, verifier and database. */
  datatype Env = Env(
    spent: Entry -> bool,
    archive: set<Locator>,                       // proofs the wallet already has
    rehydrate: Entry -> Option<bytes>,
    federation: bool,
    fetch: Entry -> Option<bytes>,
    groupKeyIn: bytes -> Option<PubKey>,            // the verified group key reveal of a proof file
    derive: GroupInfo -> Option<PubKey>,
    verify: (bytes, set<PubKey>) -> Verdict,     // data checks, given the groups accepted so far
    registers: bool,                             // a group registrar is configured
    fails: nat -> bool)                          // whether the n-th database call fails

  datatype Action =
    | InsertAnchorKey(index: nat)
    | InsertScriptKey(index: nat)
    | Stake(index: nat)
    | InsertGroup(key: PubKey, group: GroupInfo)

  type Groups = map<PubKey, GroupInfo>

  datatype Progress = Progress(
    known: set<PubKey>,
    blobs: map<nat, bytes>,
    archive: set<Locator>,
    persisted: set<PubKey>,
    trace: seq<Action>,
    calls: nat,
    imported: nat,
    skipped: nat,
    stale: nat,
    present: nat,
    retry: seq<nat>)

  // ----- Single entries -----

  predicate Named(e: Entry) {
    e.hasAsset && e.hasScriptKey
  }

  predicate KeysComplete(e: Entry) {
    && (e.anchorKey.Some? ==> e.anchorKey.value.hasPubKey)
    && (e.scriptKey.Some? ==> e.scriptKey.value.hasPubKey && e.scriptKey.value.hasRawKey)
  }

  /** A key without a locator is not the wallet's own and is not registered. */
  predicate NeedsAnchorKey(e: Entry) {
    e.anchorKey.Some? && e.anchorKey.value.hasLocator
  }

  predicate NeedsScriptKey(e: Entry) {
    e.scriptKey.Some?
  }

  /** The full proof: stored, rehydrated or fetched. None if that failed; empty if there is nothing to go by. */
  function BlobOf(env: Env, e: Entry): Option<bytes> {
    if e.strippedBlob != [] && e.proofBlob == [] then env.rehydrate(e)
    else if e.strippedBlob == [] && e.proofBlob == [] && env.federation then env.fetch(e)
    else Some(e.proofBlob)
  }

  function Revealed(env: Env, blob: bytes): set<PubKey> {
    if blob == [] || env.groupKeyIn(blob).None? then {} else {env.groupKeyIn(blob).value}
  }

  /** What the stored proof data reveals before anything is fetched. */
  function RevealedAtFirst(env: Env, e: Entry): set<PubKey> {
    if e.proofBlob != [] then Revealed(env, e.proofBlob) else Revealed(env, e.strippedBlob)
  }

  /** The group an entry records, if the record derives the key that the asset claims and has a witness. */
  function RecordedGroup(env: Env, e: Entry): Option<GroupInfo> {
    if e.groupInfo.None? || !e.hasAsset || e.groupKey.None? then None
    else if env.derive(e.groupInfo.value) != e.groupKey then None
    else if !e.groupInfo.value.hasWitness then None
    else e.groupInfo
  }

  // ----- What is known before the first pass -----

  ghost function Recorded(env: Env, es: seq<Entry>): Groups {
    if es == [] then map[] else
    var front, e := Recorded(env, es[..|es| - 1]), es[|es| - 1];
    if RecordedGroup(env, e).Some? && e.groupKey.value !in front
    then front[e.groupKey.value := RecordedGroup(env, e).value] else front
  }

  ghost function KnownAtFirst(env: Env, es: seq<Entry>): set<PubKey> {
    (set e, k | e in es && k in RevealedAtFirst(env, e) :: k) + Recorded(env, es).Keys
  }

  /** Collects the recorded groups, the first of each key, and the keys that are known from the start. */
  method CollectGroups(env: Env, es: seq<Entry>) returns (groups: Groups, known: set<PubKey>)
    ensures groups == Recorded(env, es) && known == KnownAtFirst(env, es)
  {
    hide RevealedAtFirst, RecordedGroup;
    groups, known := map[], {};
    var i := 0;
    while i < |es|
      invariant 0 <= i <= |es|
      invariant known == set e, k | e in es[..i] && k in RevealedAtFirst(env, e) :: k
    {
      assert es[..i + 1] == es[..i] + [es[i]];
      known := known + RevealedAtFirst(env, es[i]);
      i := i + 1;
    }
    assert es[..i] == es;
    ghost var revealed := known;
    i := 0;
    while i < |es|
      invariant 0 <= i <= |es|
      invariant groups == Recorded(env, es[..i]) && known == revealed + groups.Keys
    {
      assert es[..i + 1][..i] == es[..i];
      var group := RecordedGroup(env, es[i]);
      assert group.Some? ==> es[i].groupKey.Some? by { RecordHasKey(env, es[i]); }
      if group.Some? && es[i].groupKey.value !in groups {
        groups := groups[es[i].groupKey.value := group.value];
        known := known + {es[i].groupKey.value};
      }
      i := i + 1;
    }
    assert es[..i] == es;
  }

  lemma RecordHasKey(env: Env, e: Entry)
    ensures RecordedGroup(env, e).Some? ==> e.groupKey.Some?
  {
  }

  // ----- Steps -----

  /** A database call: it may fail, and then the import stops where it is. */
  function Call(env: Env, p: Progress): Option<Progress> {
    if env.fails(p.calls) then None else Some(p.(calls := p.calls + 1))
  }

  /** An action that is recorded once it has succeeded. */
  function Do(env: Env, p: Progress, a: Action): Option<Progress> {
    var p1 :- Call(env, p);
    Some(p1.(trace := p1.trace + [a]))
  }

  datatype Outcome = Outcome(progress: Progress, ok: bool)

  function Skip(p: Progress): Outcome {
    Outcome(p.(skipped := p.skipped + 1), true)
  }

  /** Makes the recorded group of a staked leaf known to the wallet, once per group. */
  function Persist(env: Env, groups: Groups, e: Entry, p: Progress): Outcome {
    if !env.registers || !e.hasAsset || e.groupKey.None? then Outcome(p, true)
    else if e.groupKey.value !in groups || e.groupKey.value in p.persisted then Outcome(p, true)
    else
      match Do(env, p, InsertGroup(e.groupKey.value, groups[e.groupKey.value]))
      case None => Outcome(p, false)
      case Some(p') => Outcome(p'.(persisted := p'.persisted + {e.groupKey.value}), true)
  }

  function RegisterKeys(env: Env, e: Entry, i: nat, p: Progress): Outcome {
    var p1 := if NeedsAnchorKey(e) then Do(env, p, InsertAnchorKey(i)) else Some(p);
    if p1.None? then Outcome(p, false) else
    var p2 := if NeedsScriptKey(e) then Do(env, p1.value, InsertScriptKey(i)) else p1;
    if p2.None? then Outcome(p1.value, false) else Outcome(p2.value, true)
  }

  function StakeIt(env: Env, e: Entry, i: nat, p: Progress): Option<Progress> {
    var p' :- Do(env, p, Stake(i));
    Some(p'.(archive := p'.archive + {e.locator}, imported := p'.imported + 1))
  }

  /** The part of the main pass after the keys are registered. */
  function VerifyAndStake(env: Env, groups: Groups, e: Entry, i: nat, blob: bytes, p: Progress): Outcome {
    match env.verify(blob, p.known)
    case Invalid => Skip(p)
    case GroupUnknown => Skip(p.(retry := p.retry + [i]))
    case Verified =>
      match StakeIt(env, e, i, p)
      case None => Outcome(p, false)
      case Some(p') => Persist(env, groups, e, p')
  }

  /** One entry of the main pass. */
  function MainStep(env: Env, groups: Groups, e: Entry, i: nat, p: Progress): Outcome {
    if !Named(e) then Skip(p)
    else if env.spent(e) then Outcome(p.(stale := p.stale + 1), true)
    else
      match Call(env, p)
      case None => Outcome(p, false)
      case Some(p) =>
        if e.locator in p.archive then Outcome(p.(present := p.present + 1), true) else
        match BlobOf(env, e)
        case None => Skip(p)
        case Some(blob) =>
          var p := p.(known := p.known + Revealed(env, blob), blobs := p.blobs[i := blob]);
          if blob == [] || !KeysComplete(e) then Skip(p) else
          var r := RegisterKeys(env, e, i, p);
          if !r.ok then r else VerifyAndStake(env, groups, e, i, blob, r.progress)
  }

  /** One entry of the retry pass; its blob was kept by the main pass. The 32-bit counter would wrap below zero. */
  function RetryStep(env: Env, groups: Groups, e: Entry, i: nat, p: Progress): Outcome {
    var blob := if i in p.blobs then p.blobs[i] else [];
    if env.verify(blob, p.known) != Verified then Outcome(p, true) else
    match StakeIt(env, e, i, p)
    case None => Outcome(p, false)
    case Some(p') => Persist(env, groups, e, p'.(skipped := if p'.skipped > 0 then p'.skipped - 1 else U32_LIMIT - 1))
  }

  function Start(env: Env, known: set<PubKey>): Progress {
    Progress(known, map[], env.archive, {}, [], 0, 0, 0, 0, 0, [])
  }

  // ----- The two passes -----

  ghost function MainPass(env: Env, es: seq<Entry>, n: nat): Outcome
    requires n <= |es|
  {
    if n == 0 then Outcome(Start(env, KnownAtFirst(env, es)), true) else
    var before := MainPass(env, es, n - 1);
    if !before.ok then before else MainStep(env, Recorded(env, es), es[n - 1], n - 1, before.progress)
  }

  ghost function RetryPass(env: Env, es: seq<Entry>, p: Progress, todo: seq<nat>): Outcome {
    if todo == [] then Outcome(p, true) else
    var before := RetryPass(env, es, p, todo[..|todo| - 1]);
    var i := todo[|todo| - 1];
    if !before.ok || i >= |es| then before else RetryStep(env, Recorded(env, es), es[i], i, before.progress)
  }

  /** The whole import; it is not ok when a database call failed. */
  ghost function Imported(env: Env, es: seq<Entry>): Outcome {
    var main := MainPass(env, es, |es|);
    if !main.ok then main else RetryPass(env, es, main.progress, main.progress.retry)
  }

  // ----- What every prefix of the trace keeps -----

  ghost predicate Registered(e: Entry, i: nat, before: seq<Action>) {
    && (NeedsAnchorKey(e) ==> InsertAnchorKey(i) in before)
    && (NeedsScriptKey(e) ==> InsertScriptKey(i) in before)
  }

  ghost predicate GroupInserted(before: seq<Action>, key: PubKey) {
    exists a :: a in before && a.InsertGroup? && a.key == key
  }

  ghost predicate LeafStaked(es: seq<Entry>, before: seq<Action>, key: PubKey) {
    exists i :: 0 <= i < |es| && Stake(i) in before && es[i].groupKey == Some(key)
  }

  /** An entry is staked once, after its keys; a recorded group is inserted once, after one of its leaves was staked. */
  ghost predicate Allowed(es: seq<Entry>, groups: Groups, before: seq<Action>, a: Action) {
    match a
    case Stake(i) => i < |es| && Stake(i) !in before && Registered(es[i], i, before)
    case InsertGroup(key, group) =>
      key in groups && groups[key] == group && !GroupInserted(before, key) && LeafStaked(es, before, key)
    case _ => true
  }

  ghost predicate TraceAllowed(es: seq<Entry>, groups: Groups, trace: seq<Action>) {
    forall t :: 0 <= t < |trace| ==> Allowed(es, groups, trace[..t], trace[t])
  }

  lemma AppendAllowed(es: seq<Entry>, groups: Groups, trace: seq<Action>, a: Action)
    requires TraceAllowed(es, groups, trace) && Allowed(es, groups, trace, a)
    ensures TraceAllowed(es, groups, trace + [a])
  {
    hide Allowed;
    var after := trace + [a];
    forall t | 0 <= t < |after| ensures Allowed(es, groups, after[..t], after[t]) {
      assert after[..t] == trace[..t];
      if t == |trace| { assert trace[..t] == trace; }
    }
  }

  /** The groups inserted so far are those remembered as persisted. */
  ghost predicate PersistedMatches(p: Progress) {
    forall key :: key in p.persisted <==> GroupInserted(p.trace, key)
  }

  /**
   * After `n` entries, with `todo` still to be retried: every entry is counted once, every entry to be
   * retried is among the skipped, has its keys registered and has not been staked.
   */
  ghost predicate Tracked(es: seq<Entry>, groups: Groups, n: nat, todo: seq<nat>, p: Progress) {
    && n <= |es|
    && p.imported + p.skipped + p.stale + p.present == n
    && |todo| <= p.skipped
    && (forall x :: x in todo ==> x < n && x in p.blobs && Registered(es[x], x, p.trace) && Stake(x) !in p.trace)
    && (forall x, y :: 0 <= x < y < |todo| ==> todo[x] != todo[y])
    && (forall i: nat :: Stake(i) in p.trace ==> i < n)
    && PersistedMatches(p)
    && TraceAllowed(es, groups, p.trace)
  }

  lemma PersistKeeps(env: Env, es: seq<Entry>, groups: Groups, n: nat, todo: seq<nat>, p: Progress, i: nat)
    requires Tracked(es, groups, n, todo, p) && i < n && Stake(i) in p.trace
    ensures Tracked(es, groups, n, todo, Persist(env, groups, es[i], p).progress)
  {
    hide Registered, TraceAllowed;
    var p' := Persist(env, groups, es[i], p).progress;
    if p' != p {
      var a := InsertGroup(es[i].groupKey.value, groups[es[i].groupKey.value]);
      assert p'.trace == p.trace + [a];
      AppendAllowed(es, groups, p.trace, a);
      RegisteredGrows(es, todo, p.trace, a);
      InsertedGrows(p.trace, a);
    }
  }

  lemma RegisteredGrows(es: seq<Entry>, todo: seq<nat>, trace: seq<Action>, a: Action)
    ensures forall x :: x in todo && x < |es| && Registered(es[x], x, trace) ==> Registered(es[x], x, trace + [a])
  {
  }

  lemma InsertedGrows(trace: seq<Action>, a: Action)
    ensures forall key ::
              GroupInserted(trace + [a], key) <==> GroupInserted(trace, key) || (a.InsertGroup? && a.key == key)
  {
    forall key
      ensures GroupInserted(trace + [a], key) <==> GroupInserted(trace, key) || (a.InsertGroup? && a.key == key)
    {
      if a.InsertGroup? && a.key == key { assert a in trace + [a]; }
      if GroupInserted(trace, key) {
        var b :| b in trace && b.InsertGroup? && b.key == key;
        assert b in trace + [a];
      }
    }
  }

  lemma KeyActionKeeps(env: Env, es: seq<Entry>, groups: Groups, n: nat, todo: seq<nat>, p: Progress, a: Action)
    requires Tracked(es, groups, n, todo, p) && (a.InsertAnchorKey? || a.InsertScriptKey?)
    ensures Do(env, p, a).Some? ==> Tracked(es, groups, n, todo, Do(env, p, a).value)
  {
    hide Registered, TraceAllowed;
    AppendAllowed(es, groups, p.trace, a);
    RegisteredGrows(es, todo, p.trace, a);
    InsertedGrows(p.trace, a);
  }

  lemma RegisterKeysKeeps(env: Env, es: seq<Entry>, groups: Groups, n: nat, todo: seq<nat>, p: Progress, e: Entry,
                          i: nat)
    requires Tracked(es, groups, n, todo, p)
    ensures var r := RegisterKeys(env, e, i, p);
            && Tracked(es, groups, n, todo, r.progress)
            && (r.ok ==> Registered(e, i, r.progress.trace))
            && r.progress == p.(trace := r.progress.trace, calls := r.progress.calls)
  {
    hide Tracked;
    KeyActionKeeps(env, es, groups, n, todo, p, InsertAnchorKey(i));
    var p1 := if NeedsAnchorKey(e) then Do(env, p, InsertAnchorKey(i)) else Some(p);
    if p1.Some? { KeyActionKeeps(env, es, groups, n, todo, p1.value, InsertScriptKey(i)); }
  }

  /** Staking the entry at hand in the main pass. */
  lemma StakeKeeps(env: Env, es: seq<Entry>, groups: Groups, n: nat, todo: seq<nat>, p: Progress)
    requires Tracked(es, groups, n, todo, p) && n < |es| && Registered(es[n], n, p.trace)
    requires StakeIt(env, es[n], n, p).Some?
    ensures var p' := StakeIt(env, es[n], n, p).value;
            Tracked(es, groups, n + 1, todo, p') && Stake(n) in p'.trace
  {
    hide Registered, TraceAllowed;
    var a := Stake(n);
    AppendAllowed(es, groups, p.trace, a);
    RegisteredGrows(es, todo, p.trace, a);
    InsertedGrows(p.trace, a);
  }

  lemma SkipKeeps(es: seq<Entry>, groups: Groups, n: nat, todo: seq<nat>, p: Progress)
    requires Tracked(es, groups, n, todo, p) && n < |es|
    ensures Tracked(es, groups, n + 1, todo, Skip(p).progress)
  {
    hide Registered, TraceAllowed;
  }

  lemma RetryLaterKeeps(es: seq<Entry>, groups: Groups, n: nat, p: Progress)
    requires Tracked(es, groups, n, p.retry, p) && n < |es|
    requires n in p.blobs && Registered(es[n], n, p.trace)
    ensures Tracked(es, groups, n + 1, p.retry + [n], Skip(p.(retry := p.retry + [n])).progress)
  {
    hide Registered, TraceAllowed;
  }

  lemma VerifyAndStakeKeeps(env: Env, es: seq<Entry>, groups: Groups, n: nat, blob: bytes, p: Progress)
    requires Tracked(es, groups, n, p.retry, p) && n < |es|
    requires n in p.blobs && Registered(es[n], n, p.trace)
    ensures var r := VerifyAndStake(env, groups, es[n], n, blob, p);
            && (r.ok ==> Tracked(es, groups, n + 1, r.progress.retry, r.progress))
            && TraceAllowed(es, groups, r.progress.trace)
  {
    hide Registered, TraceAllowed, Tracked, StakeIt, Persist;
    match env.verify(blob, p.known)
    case Invalid => SkipKeeps(es, groups, n, p.retry, p); TrackedMeans(es, groups, n, p.retry, p);
    case GroupUnknown => RetryLaterKeeps(es, groups, n, p); TrackedMeans(es, groups, n, p.retry, p);
    case Verified =>
      TrackedMeans(es, groups, n, p.retry, p);
      if StakeIt(env, es[n], n, p).Some? {
        StakeKeeps(env, es, groups, n, p.retry, p);
        StakeKeepsRetry(env, es[n], n, p);
        var p' := StakeIt(env, es[n], n, p).value;
        PersistKeeps(env, es, groups, n + 1, p.retry, p', n);
        PersistKeepsRetry(env, groups, es[n], p');
        TrackedMeans(es, groups, n + 1, p.retry, Persist(env, groups, es[n], p').progress);
      }
  }

  lemma TrackedMeans(es: seq<Entry>, groups: Groups, n: nat, todo: seq<nat>, p: Progress)
    requires Tracked(es, groups, n, todo, p)
    ensures TraceAllowed(es, groups, p.trace) && n <= |es| && |todo| <= p.skipped
    ensures p.imported + p.skipped + p.stale + p.present == n
  {
  }

  lemma StakeKeepsRetry(env: Env, e: Entry, i: nat, p: Progress)
    ensures StakeIt(env, e, i, p).Some? ==>
              var p' := StakeIt(env, e, i, p).value;
              && p' == p.(trace := p.trace + [Stake(i)], archive := p.archive + {e.locator}, imported := p.imported + 1,
                          calls := p.calls + 1)
  {
  }

  lemma PersistKeepsRetry(env: Env, groups: Groups, e: Entry, p: Progress)
    ensures var p' := Persist(env, groups, e, p).progress;
            p' == p.(trace := p'.trace, calls := p'.calls, persisted := p'.persisted)
  {
  }

  lemma MainStepKeeps(env: Env, es: seq<Entry>, groups: Groups, n: nat, p: Progress)
    requires Tracked(es, groups, n, p.retry, p) && n < |es|
    ensures var r := MainStep(env, groups, es[n], n, p);
            && (r.ok ==> Tracked(es, groups, n + 1, r.progress.retry, r.progress))
            && TraceAllowed(es, groups, r.progress.trace)
  {
    hide Registered, TraceAllowed, RegisterKeys, VerifyAndStake, BlobOf, Revealed, KeysComplete;
    var e := es[n];
    if Named(e) && !env.spent(e) && Call(env, p).Some? && e.locator !in p.archive && BlobOf(env, e).Some? {
      var blob := BlobOf(env, e).value;
      var p1 := Call(env, p).value.(known := p.known + Revealed(env, blob), blobs := p.blobs[n := blob]);
      assert Tracked(es, groups, n, p1.retry, p1);
      if blob != [] && KeysComplete(e) {
        RegisterKeysKeeps(env, es, groups, n, p1.retry, p1, e, n);
        var r := RegisterKeys(env, e, n, p1);
        if r.ok { VerifyAndStakeKeeps(env, es, groups, n, blob, r.progress); }
      }
    }
  }

  lemma RetryStakes(env: Env, es: seq<Entry>, groups: Groups, i: nat, rest: seq<nat>, p: Progress)
    requires i < |es| && Tracked(es, groups, |es|, [i] + rest, p) && StakeIt(env, es[i], i, p).Some?
    ensures var p' := StakeIt(env, es[i], i, p).value;
            Tracked(es, groups, |es|, rest, p'.(skipped := p'.skipped - 1)) && Stake(i) in p'.trace
  {
    hide Registered, TraceAllowed;
    var todo := [i] + rest;
    assert i in todo;
    forall x | x in rest ensures x in todo && x != i {
      var k :| 0 <= k < |rest| && rest[k] == x;
      assert todo[k + 1] == x && todo[0] == i;
    }
    AppendAllowed(es, groups, p.trace, Stake(i));
    RegisteredGrows(es, todo, p.trace, Stake(i));
    InsertedGrows(p.trace, Stake(i));
    forall x, y | 0 <= x < y < |rest| ensures rest[x] != rest[y] { assert todo[x + 1] != todo[y + 1]; }
  }

  lemma RetryStepKeeps(env: Env, es: seq<Entry>, groups: Groups, i: nat, rest: seq<nat>, p: Progress)
    requires Tracked(es, groups, |es|, [i] + rest, p)
    ensures i < |es| && p.skipped > 0
    ensures var r := RetryStep(env, groups, es[i], i, p);
            && (r.ok ==> Tracked(es, groups, |es|, rest, r.progress))
            && TraceAllowed(es, groups, r.progress.trace)
  {
    hide Registered, TraceAllowed, StakeIt, Persist, PersistedMatches;
    assert i in [i] + rest;
    RestTracked(es, groups, i, rest, p);
    var blob := if i in p.blobs then p.blobs[i] else [];
    if env.verify(blob, p.known) == Verified && StakeIt(env, es[i], i, p).Some? {
      RetryStakes(env, es, groups, i, rest, p);
      StakeKeepsRetry(env, es[i], i, p);
      var p' := StakeIt(env, es[i], i, p).value;
      var p1 := p'.(skipped := p'.skipped - 1);
      PersistKeeps(env, es, groups, |es|, rest, p1, i);
      TrackedMeans(es, groups, |es|, rest, Persist(env, groups, es[i], p1).progress);
    }
  }

  lemma RestTracked(es: seq<Entry>, groups: Groups, i: nat, rest: seq<nat>, p: Progress)
    requires Tracked(es, groups, |es|, [i] + rest, p)
    ensures Tracked(es, groups, |es|, rest, p)
  {
    hide Registered, TraceAllowed, PersistedMatches;
    var todo := [i] + rest;
    forall x, y | 0 <= x < y < |rest| ensures rest[x] != rest[y] { assert todo[x + 1] != todo[y + 1]; }
    forall x | x in rest ensures x in todo { }
  }

  lemma {:induction false} MainPassKeeps(env: Env, es: seq<Entry>, n: nat)
    requires n <= |es|
    ensures var r := MainPass(env, es, n);
            && (r.ok ==> Tracked(es, Recorded(env, es), n, r.progress.retry, r.progress))
            && TraceAllowed(es, Recorded(env, es), r.progress.trace)
  {
    hide MainStep, Recorded, KnownAtFirst;
    if n > 0 {
      hide Tracked;
      MainPassKeeps(env, es, n - 1);
      var before := MainPass(env, es, n - 1);
      if before.ok { MainStepKeeps(env, es, Recorded(env, es), n - 1, before.progress); }
    }
  }

  lemma {:induction false} RetryPassKeeps(env: Env, es: seq<Entry>, p: Progress, todo: seq<nat>, rest: seq<nat>)
    requires Tracked(es, Recorded(env, es), |es|, todo + rest, p)
    ensures var r := RetryPass(env, es, p, todo);
            && (r.ok ==> Tracked(es, Recorded(env, es), |es|, rest, r.progress))
            && TraceAllowed(es, Recorded(env, es), r.progress.trace)
    decreases todo
  {
    hide RetryStep, Recorded, Tracked, TraceAllowed;
    TrackedMeans(es, Recorded(env, es), |es|, todo + rest, p);
    if todo == [] {
      assert todo + rest == rest;
    } else {
      var front, i := todo[..|todo| - 1], todo[|todo| - 1];
      assert todo + rest == front + ([i] + rest);
      RetryPassKeeps(env, es, p, front, [i] + rest);
      var before := RetryPass(env, es, p, front);
      if before.ok { RetryStepKeeps(env, es, Recorded(env, es), i, rest, before.progress); }
    }
  }

  /**
   * Whether or not the import completes, every action was allowed by those before it. If it completes,
   * every entry is counted exactly once.
   */
  lemma ImportIsOrderly(env: Env, es: seq<Entry>)
    ensures var r := Imported(env, es);
            && TraceAllowed(es, Recorded(env, es), r.progress.trace)
            && (r.ok ==> var p := r.progress; p.imported + p.skipped + p.stale + p.present == |es|)
  {
    hide MainPass, RetryPass, Recorded, Tracked, TraceAllowed;
    MainPassKeeps(env, es, |es|);
    var main := MainPass(env, es, |es|);
    if main.ok {
      assert main.progress.retry + [] == main.progress.retry;
      RetryPassKeeps(env, es, main.progress, main.progress.retry, []);
      var r := RetryPass(env, es, main.progress, main.progress.retry);
      if r.ok { TrackedMeans(es, Recorded(env, es), |es|, [], r.progress); }
    }
  }

  // ----- The order of the entries does not matter -----

  /** Every database call succeeds. */
  ghost predicate Reliable(env: Env) {
    forall n :: !env.fails(n)
  }

  /** Knowing more groups never turns a verified proof down, nor an invalid one into a verified one. */
  ghost predicate Monotone(env: Env) {
    forall b, s, t :: s <= t ==>
      && (env.verify(b, s) == Verified ==> env.verify(b, t) == Verified)
      && (env.verify(b, s) == Invalid ==> env.verify(b, t) != Verified)
  }

  ghost predicate DistinctLocators(es: seq<Entry>) {
    forall i, j :: 0 <= i < j < |es| && Named(es[i]) && Named(es[j]) ==> es[i].locator != es[j].locator
  }

  /** The entry's proof is looked at: it is neither stale nor already there, and its proof can be had. */
  ghost predicate Reaches(env: Env, archive: set<Locator>, e: Entry) {
    Named(e) && !env.spent(e) && e.locator !in archive && BlobOf(env, e).Some?
  }

  ghost predicate Eligible(env: Env, archive: set<Locator>, e: Entry) {
    Reaches(env, archive, e) && BlobOf(env, e).value != [] && KeysComplete(e)
  }

  ghost function RevealedBy(env: Env, archive: set<Locator>, e: Entry): set<PubKey> {
    if Reaches(env, archive, e) then Revealed(env, BlobOf(env, e).value) else {}
  }

  ghost function KnownAfter(env: Env, es: seq<Entry>, n: nat): set<PubKey>
    requires n <= |es|
  {
    KnownAtFirst(env, es) + set e, k | e in es[..n] && k in RevealedBy(env, env.archive, e) :: k
  }

  /** All the group keys that the backup and its proofs ever make known. */
  ghost function FinalKnown(env: Env, es: seq<Entry>): set<PubKey> {
    KnownAfter(env, es, |es|)
  }

  ghost predicate ShouldStake(env: Env, es: seq<Entry>, e: Entry) {
    Eligible(env, env.archive, e) && env.verify(BlobOf(env, e).value, FinalKnown(env, es)) == Verified
  }

  /** `p'` differs from `p` by what is reported here and by actions other than staking. */
  ghost predicate Effect(p: Progress, p': Progress, i: nat, known: set<PubKey>, staked: bool, later: bool,
                         at: Locator)
  {
    && p'.known == known
    && (forall j: nat :: Stake(j) in p'.trace <==> Stake(j) in p.trace || (j == i && staked))
    && p'.retry == (if later then p.retry + [i] else p.retry)
    && p'.archive == if staked then p.archive + {at} else p.archive
  }

  lemma RegisterEffect(env: Env, e: Entry, i: nat, p: Progress)
    requires Reliable(env)
    ensures var r := RegisterKeys(env, e, i, p);
            && r.ok && r.progress == p.(trace := r.progress.trace, calls := r.progress.calls)
            && forall j: nat :: Stake(j) in r.progress.trace <==> Stake(j) in p.trace
  {
  }

  lemma StakeEffect(env: Env, groups: Groups, e: Entry, i: nat, p: Progress)
    requires Reliable(env)
    ensures StakeIt(env, e, i, p).Some?
    ensures var p1 := StakeIt(env, e, i, p).value;
            forall skipped: nat ::
              var r := Persist(env, groups, e, p1.(skipped := skipped));
              r.ok && Effect(p, r.progress, i, p.known, true, false, e.locator) && r.progress.blobs == p.blobs
  {
  }

  lemma VerifyEffect(env: Env, groups: Groups, e: Entry, i: nat, blob: bytes, p: Progress)
    requires Reliable(env)
    ensures var r := VerifyAndStake(env, groups, e, i, blob, p);
            var verdict := env.verify(blob, p.known);
            && r.ok && r.progress.blobs == p.blobs
            && Effect(p, r.progress, i, p.known, verdict == Verified, verdict == GroupUnknown, e.locator)
  {
    hide Persist, StakeIt;
    StakeEffect(env, groups, e, i, p);
    if env.verify(blob, p.known) == Verified {
      var p1 := StakeIt(env, e, i, p).value;
      assert p1.(skipped := p1.skipped) == p1;
    }
  }

  /** What one entry of the main pass does when nothing fails. */
  lemma MainStepEffect(env: Env, groups: Groups, e: Entry, i: nat, p: Progress)
    requires Reliable(env)
    ensures var r := MainStep(env, groups, e, i, p);
            var known := p.known + RevealedBy(env, p.archive, e);
            var tried := Eligible(env, p.archive, e);
            && r.ok
            && Effect(p, r.progress, i, known,
                      tried && env.verify(BlobOf(env, e).value, known) == Verified,
                      tried && env.verify(BlobOf(env, e).value, known) == GroupUnknown, e.locator)
            && r.progress.blobs == if Reaches(env, p.archive, e) then p.blobs[i := BlobOf(env, e).value] else p.blobs
  {
    hide RegisterKeys, VerifyAndStake, BlobOf, Revealed, KeysComplete;
    assert Call(env, p).Some?;
    if Eligible(env, p.archive, e) {
      var blob := BlobOf(env, e).value;
      var p1 := Call(env, p).value.(known := p.known + Revealed(env, blob), blobs := p.blobs[i := blob]);
      RegisterEffect(env, e, i, p1);
      VerifyEffect(env, groups, e, i, blob, RegisterKeys(env, e, i, p1).progress);
    }
  }

  /** No further group can make the proof verify. */
  ghost predicate Hopeless(env: Env, blob: bytes, known: set<PubKey>) {
    forall t :: known <= t ==> env.verify(blob, t) != Verified
  }

  ghost predicate EligibleAt(env: Env, es: seq<Entry>, i: nat) {
    i < |es| && Eligible(env, env.archive, es[i])
  }

  ghost function BlobAt(env: Env, es: seq<Entry>, i: nat): bytes
    requires EligibleAt(env, es, i)
  {
    BlobOf(env, es[i]).value
  }

  /** The archive holds nothing but what was there and the locators of staked entries. */
  ghost predicate ArchiveExplained(env: Env, es: seq<Entry>, p: Progress) {
    && env.archive <= p.archive
    && forall l :: l in p.archive && l !in env.archive ==>
         exists i: nat :: Stake(i) in p.trace && i < |es| && es[i].locator == l
  }

  /** After `n` entries of the main pass: staked entries verify, the others are to be retried or hopeless. */
  ghost predicate Decided(env: Env, es: seq<Entry>, n: nat, p: Progress) {
    && n <= |es| && p.known == KnownAfter(env, es, n)
    && (forall i: nat :: Stake(i) in p.trace ==>
          i < n && EligibleAt(env, es, i) && env.verify(BlobAt(env, es, i), p.known) == Verified)
    && (forall i :: i in p.retry ==>
          i < n && EligibleAt(env, es, i) && i in p.blobs && p.blobs[i] == BlobAt(env, es, i))
    && (forall i: nat :: i < n && EligibleAt(env, es, i) && Stake(i) !in p.trace && i !in p.retry ==>
          Hopeless(env, BlobAt(env, es, i), p.known))
    && ArchiveExplained(env, es, p)
  }

  lemma KnownStep(env: Env, es: seq<Entry>, n: nat)
    requires n < |es|
    ensures KnownAfter(env, es, n + 1) == KnownAfter(env, es, n) + RevealedBy(env, env.archive, es[n])
  {
    hide RevealedBy, KnownAtFirst;
    assert es[..n + 1] == es[..n] + [es[n]];
  }

  /** Staking other entries does not change whether this one is there. */
  lemma SameArchive(env: Env, es: seq<Entry>, n: nat, p: Progress)
    requires Decided(env, es, n, p) && DistinctLocators(es) && n < |es|
    ensures Reaches(env, p.archive, es[n]) == Reaches(env, env.archive, es[n])
  {
    hide BlobOf, KeysComplete, KnownAfter, Hopeless;
  }

  lemma HopelessGrows(env: Env, blob: bytes, known: set<PubKey>, more: set<PubKey>)
    requires known <= more && Hopeless(env, blob, known)
    ensures Hopeless(env, blob, more)
  {
  }

  lemma InvalidIsHopeless(env: Env, blob: bytes, known: set<PubKey>)
    requires Monotone(env) && env.verify(blob, known) == Invalid
    ensures Hopeless(env, blob, known)
  {
  }

  lemma MainStepDecides(env: Env, groups: Groups, es: seq<Entry>, n: nat, p: Progress)
    requires Reliable(env) && Monotone(env) && DistinctLocators(es)
    requires Decided(env, es, n, p) && n < |es|
    ensures var r := MainStep(env, groups, es[n], n, p);
            r.ok && Decided(env, es, n + 1, r.progress)
  {
    hide BlobOf, KeysComplete, KnownAfter, Hopeless, MainStep, RevealedBy, Reaches;
    var e := es[n];
    MainStepEffect(env, groups, e, n, p);
    SameArchive(env, es, n, p);
    KnownStep(env, es, n);
    RevealedSame(env, p.archive, e);
    var p' := MainStep(env, groups, e, n, p).progress;
    assert p'.known == KnownAfter(env, es, n + 1) && p.known <= p'.known;
    forall i: nat | i < n + 1 && EligibleAt(env, es, i) && Stake(i) !in p'.trace && i !in p'.retry
      ensures Hopeless(env, BlobAt(env, es, i), p'.known)
    {
      if i < n {
        HopelessGrows(env, BlobAt(env, es, i), p.known, p'.known);
      } else {
        InvalidIsHopeless(env, BlobAt(env, es, i), p'.known);
      }
    }
    ArchiveStep(env, es, n, p, p');
  }

  lemma RevealedSame(env: Env, archive: set<Locator>, e: Entry)
    requires Reaches(env, archive, e) == Reaches(env, env.archive, e)
    ensures RevealedBy(env, archive, e) == RevealedBy(env, env.archive, e)
  {
  }

  lemma ArchiveStep(env: Env, es: seq<Entry>, i: nat, p: Progress, p': Progress)
    requires ArchiveExplained(env, es, p) && i < |es|
    requires forall j: nat :: Stake(j) in p.trace ==> Stake(j) in p'.trace
    requires p'.archive == p.archive || (p'.archive == p.archive + {es[i].locator} && Stake(i) in p'.trace)
    ensures ArchiveExplained(env, es, p')
  {
  }

  lemma {:induction false} MainPassDecides(env: Env, es: seq<Entry>, n: nat)
    requires Reliable(env) && Monotone(env) && DistinctLocators(es) && n <= |es|
    ensures var r := MainPass(env, es, n);
            r.ok && Decided(env, es, n, r.progress)
  {
    hide MainStep, Recorded, KnownAtFirst, RevealedBy, Hopeless, Eligible;
    if n > 0 {
      MainPassDecides(env, es, n - 1);
      MainStepDecides(env, Recorded(env, es), es, n - 1, MainPass(env, es, n - 1).progress);
    }
  }

  /** During the retry pass, with `todo` still to come. */
  ghost predicate Settled(env: Env, es: seq<Entry>, todo: seq<nat>, p: Progress) {
    && p.known == FinalKnown(env, es)
    && (forall i: nat :: Stake(i) in p.trace ==>
          EligibleAt(env, es, i) && env.verify(BlobAt(env, es, i), p.known) == Verified)
    && (forall i :: i in todo ==> EligibleAt(env, es, i) && i in p.blobs && p.blobs[i] == BlobAt(env, es, i))
    && (forall i: nat :: EligibleAt(env, es, i) && Stake(i) !in p.trace && i !in todo ==>
          env.verify(BlobAt(env, es, i), p.known) != Verified)
  }

  lemma DecidedIsSettled(env: Env, es: seq<Entry>, p: Progress)
    requires Decided(env, es, |es|, p)
    ensures Settled(env, es, p.retry, p)
  {
    hide KnownAfter, Eligible;
    assert p.known <= p.known;
  }

  lemma RetryStepSettles(env: Env, groups: Groups, es: seq<Entry>, i: nat, rest: seq<nat>, p: Progress)
    requires Reliable(env) && Settled(env, es, [i] + rest, p)
    ensures i < |es|
    ensures var r := RetryStep(env, groups, es[i], i, p);
            r.ok && Settled(env, es, rest, r.progress)
  {
    hide KnownAfter, Eligible, StakeIt, Persist, BlobOf;
    assert i in [i] + rest;
    StakeEffect(env, groups, es[i], i, p);
    assert forall j :: j in [i] + rest <==> j == i || j in rest;
  }

  lemma {:induction false} RetryPassSettles(env: Env, es: seq<Entry>, p: Progress, todo: seq<nat>, rest: seq<nat>)
    requires Reliable(env) && Settled(env, es, todo + rest, p)
    ensures var r := RetryPass(env, es, p, todo);
            r.ok && Settled(env, es, rest, r.progress)
    decreases todo
  {
    hide RetryStep, Recorded, Settled;
    if todo == [] {
      assert todo + rest == rest;
    } else {
      var front, i := todo[..|todo| - 1], todo[|todo| - 1];
      assert todo + rest == front + ([i] + rest);
      RetryPassSettles(env, es, p, front, [i] + rest);
      RetryStepSettles(env, Recorded(env, es), es, i, rest, RetryPass(env, es, p, front).progress);
    }
  }

  lemma ImportCompletes(env: Env, es: seq<Entry>)
    requires Reliable(env) && Monotone(env) && DistinctLocators(es)
    ensures Imported(env, es).ok
  {
    hide MainPass, RetryPass, Decided, Settled;
    MainPassDecides(env, es, |es|);
    var p := MainPass(env, es, |es|).progress;
    DecidedIsSettled(env, es, p);
    assert p.retry + [] == p.retry;
    RetryPassSettles(env, es, p, p.retry, []);
  }

  /** One retry is enough: what is staked is exactly what verifies under all the groups ever made known. */
  lemma StakedExactly(env: Env, es: seq<Entry>, i: nat)
    requires Reliable(env) && Monotone(env) && DistinctLocators(es) && i < |es|
    ensures Imported(env, es).ok
    ensures Stake(i) in Imported(env, es).progress.trace <==> ShouldStake(env, es, es[i])
  {
    hide MainPass, RetryPass, KnownAfter, Eligible, Decided;
    MainPassDecides(env, es, |es|);
    var p := MainPass(env, es, |es|).progress;
    DecidedIsSettled(env, es, p);
    assert p.retry + [] == p.retry;
    RetryPassSettles(env, es, p, p.retry, []);
  }

  lemma {:induction false} RecordedKeys(env: Env, es: seq<Entry>, key: PubKey)
    ensures key in Recorded(env, es) <==> exists e :: e in es && RecordedGroup(env, e).Some? && e.groupKey == Some(key)
  {
    hide RecordedGroup;
    if es != [] {
      var front, e := es[..|es| - 1], es[|es| - 1];
      RecordedKeys(env, front, key);
      RecordHasKey(env, e);
      assert es == front + [e];
      if exists x :: x in es && RecordedGroup(env, x).Some? && x.groupKey == Some(key) {
        var x :| x in es && RecordedGroup(env, x).Some? && x.groupKey == Some(key);
        assert x in front || x == e;
      }
      if key in Recorded(env, front) {
        var x :| x in front && RecordedGroup(env, x).Some? && x.groupKey == Some(key);
        assert x in es;
      }
    }
  }

  ghost predicate SameEntries(es: seq<Entry>, fs: seq<Entry>) {
    forall e :: e in es <==> e in fs
  }

  lemma KnownSame(env: Env, es: seq<Entry>, fs: seq<Entry>)
    requires SameEntries(es, fs)
    ensures FinalKnown(env, es) == FinalKnown(env, fs)
  {
    hide RecordedGroup, RevealedAtFirst, RevealedBy, Recorded;
    assert es[..|es|] == es && fs[..|fs|] == fs;
    forall key ensures key in Recorded(env, es) <==> key in Recorded(env, fs) {
      RecordedKeys(env, es, key);
      RecordedKeys(env, fs, key);
    }
  }

  /** The entries staked are the same for every order of the same entries. */
  lemma OrderDoesNotMatter(env: Env, es: seq<Entry>, fs: seq<Entry>, i: nat, j: nat)
    requires Reliable(env) && Monotone(env) && DistinctLocators(es) && DistinctLocators(fs)
    requires SameEntries(es, fs) && i < |es| && j < |fs| && es[i] == fs[j]
    ensures Stake(i) in Imported(env, es).progress.trace <==> Stake(j) in Imported(env, fs).progress.trace
  {
    hide Imported, FinalKnown, Eligible;
    StakedExactly(env, es, i);
    StakedExactly(env, fs, j);
    KnownSame(env, es, fs);
  }

  // ----- Which groups are inserted -----

  /** Staked entries are named, and with a registrar the recorded group of each has been persisted. */
  ghost predicate GroupsDone(env: Env, es: seq<Entry>, groups: Groups, p: Progress) {
    forall i: nat :: Stake(i) in p.trace ==>
      && i < |es| && Named(es[i])
      && (env.registers && es[i].groupKey.Some? && es[i].groupKey.value in groups ==>
            es[i].groupKey.value in p.persisted)
  }

  ghost predicate AllNamed(es: seq<Entry>, xs: seq<nat>) {
    forall x :: x in xs ==> x < |es| && Named(es[x])
  }

  lemma RegisterKeepsGroups(env: Env, es: seq<Entry>, groups: Groups, e: Entry, i: nat, p: Progress)
    requires GroupsDone(env, es, groups, p)
    ensures GroupsDone(env, es, groups, RegisterKeys(env, e, i, p).progress)
    ensures RegisterKeys(env, e, i, p).progress.retry == p.retry
  {
  }

  lemma StakingDoesGroups(env: Env, es: seq<Entry>, groups: Groups, i: nat, p: Progress, skipped: nat)
    requires GroupsDone(env, es, groups, p) && i < |es| && Named(es[i]) && StakeIt(env, es[i], i, p).Some?
    ensures var r := Persist(env, groups, es[i], StakeIt(env, es[i], i, p).value.(skipped := skipped));
            r.progress.retry == p.retry && (r.ok ==> GroupsDone(env, es, groups, r.progress))
  {
  }

  lemma MainStepDoesGroups(env: Env, es: seq<Entry>, groups: Groups, n: nat, p: Progress)
    requires GroupsDone(env, es, groups, p) && AllNamed(es, p.retry) && n < |es|
    ensures var r := MainStep(env, groups, es[n], n, p);
            r.ok ==> GroupsDone(env, es, groups, r.progress) && AllNamed(es, r.progress.retry)
  {
    hide RegisterKeys, StakeIt, Persist, BlobOf, Revealed, KeysComplete;
    var e := es[n];
    if Named(e) && !env.spent(e) && Call(env, p).Some? && e.locator !in p.archive && BlobOf(env, e).Some? {
      var blob := BlobOf(env, e).value;
      var p1 := Call(env, p).value.(known := p.known + Revealed(env, blob), blobs := p.blobs[n := blob]);
      RegisterKeepsGroups(env, es, groups, e, n, p1);
      var p2 := RegisterKeys(env, e, n, p1).progress;
      if StakeIt(env, e, n, p2).Some? {
        var p3 := StakeIt(env, e, n, p2).value;
        assert p3.(skipped := p3.skipped) == p3;
        StakingDoesGroups(env, es, groups, n, p2, p3.skipped);
      }
    }
  }

  lemma {:induction false} MainPassDoesGroups(env: Env, es: seq<Entry>, n: nat)
    requires n <= |es|
    ensures var r := MainPass(env, es, n);
            r.ok ==> GroupsDone(env, es, Recorded(env, es), r.progress) && AllNamed(es, r.progress.retry)
  {
    hide MainStep, Recorded, KnownAtFirst;
    if n > 0 {
      MainPassDoesGroups(env, es, n - 1);
      var before := MainPass(env, es, n - 1);
      if before.ok { MainStepDoesGroups(env, es, Recorded(env, es), n - 1, before.progress); }
    }
  }

  lemma RetryStepDoesGroups(env: Env, es: seq<Entry>, groups: Groups, i: nat, p: Progress)
    requires GroupsDone(env, es, groups, p) && i < |es| && Named(es[i])
    ensures var r := RetryStep(env, groups, es[i], i, p);
            r.ok ==> GroupsDone(env, es, groups, r.progress)
  {
    hide StakeIt, Persist;
    if StakeIt(env, es[i], i, p).Some? {
      var p1 := StakeIt(env, es[i], i, p).value;
      StakingDoesGroups(env, es, groups, i, p, if p1.skipped > 0 then p1.skipped - 1 else U32_LIMIT - 1);
    }
  }

  lemma {:induction false} RetryPassDoesGroups(env: Env, es: seq<Entry>, p: Progress, todo: seq<nat>)
    requires GroupsDone(env, es, Recorded(env, es), p) && AllNamed(es, todo)
    ensures var r := RetryPass(env, es, p, todo);
            r.ok ==> GroupsDone(env, es, Recorded(env, es), r.progress)
    decreases todo
  {
    hide RetryStep, Recorded, GroupsDone;
    if todo != [] {
      var front, i := todo[..|todo| - 1], todo[|todo| - 1];
      assert i in todo && forall x :: x in front ==> x in todo;
      RetryPassDoesGroups(env, es, p, front);
      var before := RetryPass(env, es, p, front);
      if before.ok { RetryStepDoesGroups(env, es, Recorded(env, es), i, before.progress); }
    }
  }

  lemma AllowedInsert(es: seq<Entry>, groups: Groups, trace: seq<Action>, key: PubKey)
    requires TraceAllowed(es, groups, trace) && GroupInserted(trace, key)
    ensures key in groups && LeafStaked(es, trace, key)
  {
    hide Registered;
    var a :| a in trace && a.InsertGroup? && a.key == key;
    var t :| 0 <= t < |trace| && trace[t] == a;
    assert Allowed(es, groups, trace[..t], trace[t]);
    var i :| 0 <= i < |es| && Stake(i) in trace[..t] && es[i].groupKey == Some(key);
    assert Stake(i) in trace;
  }

  /** With a registrar, a completed import has inserted exactly the recorded groups of which it staked a leaf. */
  lemma GroupsInsertedExactly(env: Env, es: seq<Entry>, key: PubKey)
    requires env.registers && Imported(env, es).ok
    ensures var trace := Imported(env, es).progress.trace;
            GroupInserted(trace, key) <==> key in Recorded(env, es) && LeafStaked(es, trace, key)
  {
    hide MainPass, RetryPass, Recorded, TraceAllowed, GroupInserted, LeafStaked;
    ImportIsOrderly(env, es);
    var p := Imported(env, es).progress;
    if GroupInserted(p.trace, key) { AllowedInsert(es, Recorded(env, es), p.trace, key); }
    if key in Recorded(env, es) && LeafStaked(es, p.trace, key) {
      ImportDoesGroups(env, es);
      ImportRemembersGroups(env, es);
      LeafIsDone(env, es, Recorded(env, es), p, key);
    }
  }

  lemma LeafIsDone(env: Env, es: seq<Entry>, groups: Groups, p: Progress, key: PubKey)
    requires GroupsDone(env, es, groups, p) && PersistedMatches(p) && env.registers
    requires key in groups && LeafStaked(es, p.trace, key)
    ensures GroupInserted(p.trace, key)
  {
    hide GroupInserted;
    var i :| 0 <= i < |es| && Stake(i) in p.trace && es[i].groupKey == Some(key);
  }

  lemma ImportDoesGroups(env: Env, es: seq<Entry>)
    requires Imported(env, es).ok
    ensures GroupsDone(env, es, Recorded(env, es), Imported(env, es).progress)
  {
    hide MainPass, RetryPass, Recorded, GroupsDone, AllNamed;
    MainPassDoesGroups(env, es, |es|);
    var main := MainPass(env, es, |es|);
    RetryPassDoesGroups(env, es, main.progress, main.progress.retry);
  }

  lemma ImportRemembersGroups(env: Env, es: seq<Entry>)
    requires Imported(env, es).ok
    ensures PersistedMatches(Imported(env, es).progress)
  {
    hide MainPass, RetryPass, Recorded, TraceAllowed, GroupInserted, Registered;
    MainPassKeeps(env, es, |es|);
    var main := MainPass(env, es, |es|).progress;
    assert main.retry + [] == main.retry;
    RetryPassKeeps(env, es, main, main.retry, []);
  }

  /** The groups inserted are the same for every order of the same entries. */
  lemma GroupOrderDoesNotMatter(env: Env, es: seq<Entry>, fs: seq<Entry>, key: PubKey)
    requires Reliable(env) && Monotone(env) && DistinctLocators(es) && DistinctLocators(fs) && SameEntries(es, fs)
    requires env.registers
    ensures GroupInserted(Imported(env, es).progress.trace, key)
            <==> GroupInserted(Imported(env, fs).progress.trace, key)
  {
    hide Imported, Recorded, GroupInserted, LeafStaked, Monotone, DistinctLocators;
    ImportCompletes(env, es);
    ImportCompletes(env, fs);
    GroupsInsertedExactly(env, es, key);
    GroupsInsertedExactly(env, fs, key);
    RecordedKeys(env, es, key);
    RecordedKeys(env, fs, key);
    LeavesCarryOver(env, es, fs, key);
    LeavesCarryOver(env, fs, es, key);
  }

  lemma LeavesCarryOver(env: Env, es: seq<Entry>, fs: seq<Entry>, key: PubKey)
    requires Reliable(env) && Monotone(env) && DistinctLocators(es) && DistinctLocators(fs) && SameEntries(es, fs)
    ensures LeafStaked(es, Imported(env, es).progress.trace, key) ==>
              LeafStaked(fs, Imported(env, fs).progress.trace, key)
  {
    hide Imported, Monotone, DistinctLocators;
    var trace := Imported(env, es).progress.trace;
    if LeafStaked(es, trace, key) {
      var i :| 0 <= i < |es| && Stake(i) in trace && es[i].groupKey == Some(key);
      assert es[i] in es && es[i] in fs;
      var j :| 0 <= j < |fs| && fs[j] == es[i];
      OrderDoesNotMatter(env, es, fs, i, j);
    }
  }

  // ----- The import itself -----

  /** Imports the entries; the outcome tells how far it came. */
  method ImportBackup(env: Env, es: seq<Entry>) returns (r: Outcome)
    ensures r == Imported(env, es)
  {
    hide MainStep, RetryStep, Recorded, KnownAtFirst;
    var groups, known := CollectGroups(env, es);
    r := Outcome(Start(env, known), true);
    var i := 0;
    while i < |es|
      invariant 0 <= i <= |es| && r.ok && r == MainPass(env, es, i)
    {
      r := MainStep(env, groups, es[i], i, r.progress);
      if !r.ok {
        MainPassStops(env, es, i + 1);
        return;
      }
      i := i + 1;
    }
    var p, todo := r.progress, r.progress.retry;
    MainPassKeeps(env, es, |es|);
    i := 0;
    assert todo[..0] == [];
    while i < |todo|
      invariant 0 <= i <= |todo| && r.ok && r == RetryPass(env, es, p, todo[..i])
    {
      assert todo[..i + 1][..i] == todo[..i];
      assert todo[i] in todo;
      r := RetryStep(env, groups, es[todo[i]], todo[i], r.progress);
      if !r.ok {
        RetryPassStops(env, es, p, todo, i + 1);
        return;
      }
      i := i + 1;
    }
    assert todo[..i] == todo;
  }

  lemma {:induction false} MainPassStops(env: Env, es: seq<Entry>, n: nat)
    requires n <= |es| && !MainPass(env, es, n).ok
    ensures MainPass(env, es, |es|) == MainPass(env, es, n)
    decreases |es| - n
  {
    hide MainStep, Recorded, KnownAtFirst;
    if n < |es| { MainPassStops(env, es, n + 1); }
  }

  lemma {:induction false} RetryPassStops(env: Env, es: seq<Entry>, p: Progress, todo: seq<nat>, n: nat)
    requires n <= |todo| && !RetryPass(env, es, p, todo[..n]).ok
    ensures RetryPass(env, es, p, todo) == RetryPass(env, es, p, todo[..n])
    decreases |todo| - n
  {
    hide RetryStep, Recorded;
    if n < |todo| {
      assert todo[..n + 1][..n] == todo[..n];
      RetryPassStops(env, es, p, todo, n + 1);
    } else {
      assert todo[..n] == todo;
    }
  }
}
