/** The backup file updater as values: what one reconcile does to memory and file, given what the wallet reports. */
module BackupState {
  import opened Bytes
  import opened Hashing
  import opened Assets
  import opened Tapscript

  // ----- Entries and their order -----

  datatype EntryKey = EntryKey(assetId: Digest, scriptKey: PubKey, outPoint: OutPoint)

  function KeyBytes(k: EntryKey): bytes {
    k.assetId + k.scriptKey + k.outPoint.hash + BigEndian(k.outPoint.index, 4)
  }

  lemma KeyBytesInjective(j: EntryKey, k: EntryKey)
    requires KeyBytes(j) == KeyBytes(k)
    ensures j == k
  {
    hide BigEndian;
    var index, index' := BigEndian(j.outPoint.index, 4), BigEndian(k.outPoint.index, 4);
    ConcatInjective(j.assetId + j.scriptKey + j.outPoint.hash, index,
                    k.assetId + k.scriptKey + k.outPoint.hash, index');
    ConcatInjective(j.assetId + j.scriptKey, j.outPoint.hash, k.assetId + k.scriptKey, k.outPoint.hash);
    ConcatInjective(j.assetId, j.scriptKey, k.assetId, k.scriptKey);
    Pow256Values();
    BigEndianInjective(j.outPoint.index, k.outPoint.index, 4);
  }

  predicate Before(j: EntryKey, k: EntryKey) {
    LexLess(KeyBytes(j), KeyBytes(k))
  }

  predicate Increasing(ks: seq<EntryKey>) {
    forall i, j :: 0 <= i < j < |ks| ==> Before(ks[i], ks[j])
  }

  lemma BeforeTotal(j: EntryKey, k: EntryKey)
    requires j != k
    ensures Before(j, k) || Before(k, j)
  {
    hide KeyBytes, LexLess;
    if KeyBytes(j) == KeyBytes(k) { KeyBytesInjective(j, k); }
    LexTotal(KeyBytes(j), KeyBytes(k));
  }

  predicate IsFirst(s: set<EntryKey>, k: EntryKey) {
    k in s && forall j :: j in s && j != k ==> Before(k, j)
  }

  lemma {:induction false} FirstExists(s: set<EntryKey>)
    requires s != {}
    ensures exists k :: IsFirst(s, k)
  {
    hide Before;
    var x :| x in s;
    if s == {x} {
      assert IsFirst(s, x);
    } else {
      assert s - {x} != {};
      FirstExists(s - {x});
      var y :| IsFirst(s - {x}, y);
      assert forall j :: j in s ==> j == x || j in s - {x};
      BeforeTotal(x, y);
      if Before(x, y) {
        forall j | j in s && j != x ensures Before(x, j) {
          if j != y { BeforeTransitive(x, y, j); }
        }
        assert IsFirst(s, x);
      } else {
        assert IsFirst(s, y);
      }
    }
  }

  lemma BeforeTransitive(i: EntryKey, j: EntryKey, k: EntryKey)
    requires Before(i, j) && Before(j, k)
    ensures Before(i, k)
  {
    hide KeyBytes, LexLess;
    LexTransitive(KeyBytes(i), KeyBytes(j), KeyBytes(k));
  }

  lemma FirstUnique(s: set<EntryKey>, j: EntryKey, k: EntryKey)
    requires IsFirst(s, j) && IsFirst(s, k)
    ensures j == k
  {
    hide Before;
    if j != k {
      BeforeTransitive(j, k, j);
      BeforeIrreflexive(j);
    }
  }

  function First(s: set<EntryKey>): (k: EntryKey)
    requires s != {}
    ensures IsFirst(s, k)
  {
    FirstExists(s);
    assert forall j, k | IsFirst(s, j) && IsFirst(s, k) :: j == k by {
      forall j, k | IsFirst(s, j) && IsFirst(s, k) ensures j == k { FirstUnique(s, j, k); }
    }
    var k :| IsFirst(s, k);
    k
  }

  /** The keys in increasing order, whatever order they were collected in. */
  function SortedKeys(s: set<EntryKey>): (ks: seq<EntryKey>)
    ensures forall k :: k in ks <==> k in s
    ensures Increasing(ks)
  {
    if s == {} then [] else
    var k := First(s);
    var rest := SortedKeys(s - {k});
    FirstThenRest(s, k, rest);
    [k] + rest
  }

  lemma FirstThenRest(s: set<EntryKey>, k: EntryKey, rest: seq<EntryKey>)
    requires IsFirst(s, k) && Increasing(rest) && forall j :: j in rest <==> j in s - {k}
    ensures Increasing([k] + rest) && forall j :: j in [k] + rest <==> j in s
  {
    hide Before;
    forall i | 0 <= i < |rest| ensures Before(k, rest[i]) { assert rest[i] in rest; }
  }

  lemma BeforeIrreflexive(k: EntryKey)
    ensures !Before(k, k)
  {
    LexIrreflexive(KeyBytes(k));
  }

  /** There is only one increasing list of the same keys. */
  lemma {:induction false} OrderIsUnique(ks: seq<EntryKey>, ls: seq<EntryKey>)
    requires Increasing(ks) && Increasing(ls)
    requires forall k :: k in ks <==> k in ls
    ensures ks == ls
  {
    hide Before;
    assert ls == [] || ls[0] in ls;
    if ks != [] {
      assert ks[0] in ls && ls != [];
      assert ls[0] in ks;
      if ks[0] != ls[0] {
        var i :| 0 <= i < |ls| && ls[i] == ks[0];
        var j :| 0 <= j < |ks| && ks[j] == ls[0];
        BeforeTransitive(ks[0], ls[0], ks[0]);
        BeforeIrreflexive(ks[0]);
      }
      TailKeys(ks, ls);
      TailKeys(ls, ks);
      OrderIsUnique(ks[1..], ls[1..]);
      assert ks == [ks[0]] + ks[1..] && ls == [ls[0]] + ls[1..];
    }
  }

  lemma TailKeys(ks: seq<EntryKey>, ls: seq<EntryKey>)
    requires Increasing(ks) && Increasing(ls) && ks != [] && ls != [] && ks[0] == ls[0]
    requires forall k :: k in ks <==> k in ls
    ensures forall k :: k in ks[1..] ==> k in ls[1..]
  {
    hide Before;
    forall k | k in ks[1..] ensures k in ls[1..] {
      var i :| 1 <= i < |ks| && ks[i] == k;
      assert Before(ks[0], k);
      if k == ks[0] { BeforeIrreflexive(k); }
      assert k in ls;
    }
  }

  // ----- The wallet, the file and the updater's memory -----

  datatype ChainAsset = ChainAsset(asset: Option<Asset>, outPoint: OutPoint, blockHash: Digest, blockHeight: nat)

  datatype Backup = Backup(asset: Option<Asset>, outPoint: OutPoint, groupInfo: Option<bytes>, proof: bytes)

  function KeyOf(asset: Option<Asset>, outPoint: OutPoint): Option<EntryKey> {
    if asset.None? || asset.value.scriptKey == NIL_KEY then None
    else Some(EntryKey(AssetId(asset.value.genesis), asset.value.scriptKey, outPoint))
  }

  function KeyOfBackup(b: Backup): Option<EntryKey> {
    KeyOf(b.asset, b.outPoint)
  }

  function KeyOfChainAsset(a: ChainAsset): Option<EntryKey> {
    KeyOf(a.asset, a.outPoint)
  }

  datatype Tracked = Tracked(backup: Backup, blockHash: Digest)

  type Entries = map<EntryKey, Tracked>
  type BackupMap = map<EntryKey, Backup>

  const VERSION_STRIPPED: nat := 2
  const VERSION_OPTIMISTIC: nat := 3

  datatype Disk = Missing | File(version: nat, backups: seq<Backup>)

  datatype State = State(entries: Entries, pending: set<EntryKey>, dirty: bool, disk: Disk)

  /** What is in the process after a start; the file stays. */
  function Restarted(s: State): State {
    State(map[], {}, false, s.disk)
  }

  datatype SwapOutcome = Swapped | FailedOld | FailedNew   // a failed swap may or may not have taken effect

  datatype Built = Built(groupInfo: Option<bytes>, proof: bytes)

  /** What the outside world answers during one reconcile. */
  datatype World = World(
    fetch: Option<seq<ChainAsset>>,         // None: the database could not be read
    describesGroups: bool,                  // a group lookup is configured
    build: ChainAsset -> Option<Built>,     // None: no backup entry could be built
    readable: bool,                         // the file can be read and decrypted
    spent: Backup -> Option<bool>,          // None: the lookup failed
    swap: SwapOutcome)

  datatype Error = FetchFailed | ReadFailed | LookupFailed | SwapFailed

  // ----- The wallet as a map -----

  predicate Confirmed(a: ChainAsset) {
    KeyOfChainAsset(a).Some? && a.blockHeight != 0
  }

  ghost function Current(assets: seq<ChainAsset>): map<EntryKey, ChainAsset> {
    if assets == [] then map[] else
    var front, a := Current(assets[..|assets| - 1]), assets[|assets| - 1];
    if Confirmed(a) then front[KeyOfChainAsset(a).value := a] else front
  }

  lemma {:induction false} CurrentKeyed(assets: seq<ChainAsset>)
    ensures forall k :: k in Current(assets) ==>
              Confirmed(Current(assets)[k]) && KeyOfChainAsset(Current(assets)[k]) == Some(k)
  {
    hide KeyOf;
    if assets != [] { CurrentKeyed(assets[..|assets| - 1]); }
  }

  // ----- Building entries -----

  datatype Attempt = Kept | Failed | Added(entry: Tracked)

  predicate IsUnchanged(existing: Option<Tracked>, a: ChainAsset) {
    existing.Some? && existing.value.blockHash == a.blockHash
  }

  /** An entry whose group could not be described is tried again, although the leaf has not changed. */
  predicate WantsGroup(w: World, existing: Option<Tracked>, a: ChainAsset) {
    && IsUnchanged(existing, a) && w.describesGroups
    && a.asset.Some? && a.asset.value.groupKey.Some?
    && existing.value.backup.groupInfo == None
  }

  function Try(w: World, existing: Option<Tracked>, a: ChainAsset): Attempt {
    if IsUnchanged(existing, a) && !WantsGroup(w, existing, a) then Kept else
    match w.build(a)
    case None => Failed
    case Some(built) =>
      if WantsGroup(w, existing, a) && built.groupInfo == None then Kept
      else Added(Tracked(Backup(a.asset, a.outPoint, built.groupInfo, built.proof), a.blockHash))
  }

  function Existing(entries: Entries, k: EntryKey): Option<Tracked> {
    if k in entries then Some(entries[k]) else None
  }

  ghost function AttemptAt(w: World, entries: Entries, current: map<EntryKey, ChainAsset>, k: EntryKey): Attempt
    requires k in current
  {
    Try(w, Existing(entries, k), current[k])
  }

  ghost function AddedKeys(w: World, entries: Entries, current: map<EntryKey, ChainAsset>): set<EntryKey> {
    set k | k in current && AttemptAt(w, entries, current, k).Added?
  }

  ghost function FailedKeys(w: World, entries: Entries, current: map<EntryKey, ChainAsset>): set<EntryKey> {
    set k | k in current && AttemptAt(w, entries, current, k).Failed?
  }

  ghost function AddedEntries(w: World, entries: Entries, current: map<EntryKey, ChainAsset>): Entries {
    map k | k in AddedKeys(w, entries, current) :: AttemptAt(w, entries, current, k).entry
  }

  // ----- Memory after the wallet has been looked at -----

  ghost function Present(entries: Entries, current: map<EntryKey, ChainAsset>): Entries {
    map k | k in entries && k in current :: entries[k]
  }

  ghost function Refreshed(s: State, w: World, force: bool, current: map<EntryKey, ChainAsset>): State {
    var kept := Present(s.entries, current);
    var added := AddedEntries(w, kept, current);
    var pending := s.pending + (s.entries.Keys - current.Keys) - added.Keys;
    State(kept + added, pending, s.dirty || force || added != map[] || pending != {}, s.disk)
  }

  // ----- The file -----

  ghost function ByKey(backups: seq<Backup>): BackupMap {
    if backups == [] then map[] else
    var front, b := ByKey(backups[..|backups| - 1]), backups[|backups| - 1];
    if KeyOfBackup(b).Some? then front[KeyOfBackup(b).value := b] else front
  }

  ghost function OnDisk(d: Disk): BackupMap {
    match d
    case Missing => map[]
    case File(_, backups) => ByKey(backups)
  }

  predicate CanRead(d: Disk, w: World) {
    w.readable && (d.File? ==> d.version != VERSION_OPTIMISTIC)
  }

  /** The entries of the file that memory says nothing about. */
  ghost function DiskOnly(s: State): BackupMap {
    map k | k in OnDisk(s.disk) && k !in s.entries && k !in s.pending :: OnDisk(s.disk)[k]
  }

  ghost function Retained(s: State, w: World): BackupMap {
    map k | k in DiskOnly(s) && w.spent(DiskOnly(s)[k]) == Some(false) :: DiskOnly(s)[k]
  }

  ghost function Remembered(entries: Entries): BackupMap {
    map k | k in entries :: entries[k].backup
  }

  /** Memory wins over the file, then pending removals are dropped. */
  ghost function Combined(s: State, w: World): BackupMap {
    Retained(s, w) + Remembered(s.entries) - s.pending
  }

  ghost function InOrder(m: BackupMap): seq<Backup> {
    var ks := SortedKeys(m.Keys);
    seq(|ks|, i requires 0 <= i < |ks| => assert ks[i] in ks; m[ks[i]])
  }

  ghost predicate LookupsAnswer(s: State, w: World) {
    forall k :: k in DiskOnly(s) ==> w.spent(DiskOnly(s)[k]).Some?
  }

  ghost function Written(s: State, w: World): (State, Option<Error>) {
    if !CanRead(s.disk, w) then (s, Some(ReadFailed))
    else if !LookupsAnswer(s, w) then (s, Some(LookupFailed))
    else
      var file := File(VERSION_STRIPPED, InOrder(Combined(s, w)));
      match w.swap
      case FailedOld => (s, Some(SwapFailed))
      case FailedNew => (s.(disk := file), Some(SwapFailed))
      case Swapped => (State(s.entries, {}, false, file), None)
  }

  /** One reconcile: the new state, how many entries could not be built, and the error. */
  ghost function Reconciled(s: State, w: World, force: bool): (State, nat, Option<Error>) {
    if w.fetch == None then (s, 0, Some(FetchFailed)) else
    var current := Current(w.fetch.value);
    var failed := |FailedKeys(w, Present(s.entries, current), current)|;
    var s1 := Refreshed(s, w, force, current);
    if !s1.dirty then (s1, failed, None) else
    var (s2, err) := Written(s1, w);
    (s2, failed, err)
  }

  // ----- What is read back is what was written -----

  ghost predicate Keyed(m: BackupMap) {
    forall k :: k in m ==> KeyOfBackup(m[k]) == Some(k)
  }

  ghost predicate EntriesKeyed(entries: Entries) {
    Keyed(Remembered(entries))
  }

  lemma {:induction false} ByKeyKeyed(backups: seq<Backup>)
    ensures Keyed(ByKey(backups))
  {
    hide KeyOf;
    if backups != [] { ByKeyKeyed(backups[..|backups| - 1]); }
  }

  lemma OnDiskKeyed(d: Disk)
    ensures Keyed(OnDisk(d))
  {
    hide ByKey, KeyOf;
    if d.File? { ByKeyKeyed(d.backups); }
  }

  /** The keys of a list of keyed backups, and the map it reads back as. */
  lemma {:induction false} ReadList(m: BackupMap, ks: seq<EntryKey>)
    requires Keyed(m) && forall i :: 0 <= i < |ks| ==> ks[i] in m
    ensures ByKey(seq(|ks|, i requires 0 <= i < |ks| => m[ks[i]])) == map k | k in ks :: m[k]
  {
    hide KeyOf;
    var list := seq(|ks|, i requires 0 <= i < |ks| => m[ks[i]]);
    if ks != [] {
      var n := |ks| - 1;
      ReadList(m, ks[..n]);
      assert list[..n] == seq(n, i requires 0 <= i < n => m[ks[..n][i]]);
      assert ks == ks[..n] + [ks[n]];
    }
  }

  lemma ReadBack(m: BackupMap)
    requires Keyed(m)
    ensures ByKey(InOrder(m)) == m
  {
    hide KeyOf, SortedKeys, ByKey;
    var ks := SortedKeys(m.Keys);
    assert forall i :: 0 <= i < |ks| ==> ks[i] in ks;
    ReadList(m, ks);
    assert InOrder(m) == seq(|ks|, i requires 0 <= i < |ks| => m[ks[i]]);
  }

  /** A written file does not depend on the order in which keys were collected. */
  lemma OrderIndependent(m: BackupMap, ks: seq<EntryKey>)
    requires Increasing(ks) && forall k :: k in ks <==> k in m
    ensures InOrder(m) == seq(|ks|, i requires 0 <= i < |ks| => assert ks[i] in ks; m[ks[i]])
  {
    OrderIsUnique(ks, SortedKeys(m.Keys));
  }

  // ----- The invariant of a process -----

  ghost predicate Agrees(entries: Entries, m: BackupMap) {
    forall k :: k in entries ==> k in m && m[k] == entries[k].backup
  }

  /**
   * `tracked` is every key this process has ever held in memory. Memory and pending removals are
   * disjoint; a key no longer held is pending or gone from the file; and when nothing is dirty
   * nothing is pending and the file agrees with memory.
   */
  ghost predicate Inv(s: State, tracked: set<EntryKey>) {
    && EntriesKeyed(s.entries)
    && s.entries.Keys !! s.pending
    && s.entries.Keys + s.pending <= tracked
    && (forall k :: k in tracked && k !in s.entries ==> k in s.pending || k !in OnDisk(s.disk))
    && (!s.dirty ==> s.pending == {} && Agrees(s.entries, OnDisk(s.disk)))
  }

  lemma RestartedInv(s: State)
    ensures Inv(Restarted(s), {})
  {
  }

  lemma AddedKeyed(w: World, entries: Entries, current: map<EntryKey, ChainAsset>)
    requires forall k :: k in current ==> KeyOfChainAsset(current[k]) == Some(k)
    ensures EntriesKeyed(AddedEntries(w, entries, current))
  {
    hide KeyOf;
  }

  lemma RefreshedInv(s: State, w: World, force: bool, current: map<EntryKey, ChainAsset>, tracked: set<EntryKey>)
    requires Inv(s, tracked)
    requires forall k :: k in current ==> KeyOfChainAsset(current[k]) == Some(k)
    ensures var s' := Refreshed(s, w, force, current);
            Inv(s', tracked + s'.entries.Keys)
  {
    hide KeyOf, ByKey, AttemptAt, EntriesKeyed, AddedEntries;
    var kept := Present(s.entries, current);
    AddedKeyed(w, kept, current);
    UnionKeyed(s.entries, kept, AddedEntries(w, kept, current));
  }

  lemma UnionKeyed(entries: Entries, kept: Entries, added: Entries)
    requires EntriesKeyed(entries) && EntriesKeyed(added)
    requires forall k :: k in kept ==> k in entries && kept[k] == entries[k]
    ensures EntriesKeyed(kept + added)
  {
    hide KeyOf;
    forall k | k in kept + added ensures KeyOfBackup((kept + added)[k].backup) == Some(k) {
      if k in added { assert k in Remembered(added); } else { assert k in Remembered(entries); }
    }
  }

  lemma CombinedKeyed(s: State, w: World)
    requires EntriesKeyed(s.entries)
    ensures Keyed(Combined(s, w))
  {
    hide KeyOf, ByKey;
    OnDiskKeyed(s.disk);
  }

  /** The file a write makes, read back. */
  lemma WrittenFile(s: State, w: World)
    requires EntriesKeyed(s.entries)
    ensures OnDisk(File(VERSION_STRIPPED, InOrder(Combined(s, w)))) == Combined(s, w)
  {
    hide KeyOf, ByKey, InOrder, Combined;
    CombinedKeyed(s, w);
    ReadBack(Combined(s, w));
  }

  lemma WrittenInv(s: State, w: World, tracked: set<EntryKey>)
    requires Inv(s, tracked) && s.dirty
    ensures Inv(Written(s, w).0, tracked)
    ensures Written(s, w).1 == None <==> !Written(s, w).0.dirty
  {
    hide KeyOf, ByKey, InOrder;
    WrittenFile(s, w);
  }

  ghost function TrackedAfter(s: State, w: World, force: bool, tracked: set<EntryKey>): set<EntryKey> {
    tracked + Reconciled(s, w, force).0.entries.Keys
  }

  /** Every reconcile, however it ends, keeps the invariant; it leaves nothing dirty unless it reports an error. */
  lemma ReconcileKeepsInv(s: State, w: World, force: bool, tracked: set<EntryKey>)
    requires Inv(s, tracked)
    ensures Inv(Reconciled(s, w, force).0, TrackedAfter(s, w, force, tracked))
    ensures Reconciled(s, w, force).0.dirty ==> Reconciled(s, w, force).2.Some?
  {
    hide KeyOf, Written, Refreshed, Inv;
    if w.fetch.Some? {
      var current := Current(w.fetch.value);
      CurrentKeyed(w.fetch.value);
      RefreshedInv(s, w, force, current, tracked);
      var s1 := Refreshed(s, w, force, current);
      if s1.dirty {
        WrittenInv(s1, w, tracked + s1.entries.Keys);
        WrittenEntries(s1, w);
      }
    } else {
      InvGrows(s, tracked);
    }
  }

  lemma WrittenEntries(s: State, w: World)
    ensures Written(s, w).0.entries == s.entries
  {
  }

  lemma InvGrows(s: State, tracked: set<EntryKey>)
    requires Inv(s, tracked)
    ensures tracked + s.entries.Keys == tracked
  {
  }

  // ----- What a successful write leaves on disk -----

  /** Memory, and whatever else was in the file, is keyed, not pending and not known as spent. */
  ghost predicate BelongsOnDisk(s: State, w: World, k: EntryKey, b: Backup) {
    if k in s.entries then b == s.entries[k].backup
    else k in OnDisk(s.disk) && b == OnDisk(s.disk)[k] && k !in s.pending && w.spent(b) == Some(false)
  }

  /** The file is in increasing key order, holds one backup for each key, and exactly those that belong there. */
  lemma WriteIsExact(s: State, w: World, tracked: set<EntryKey>)
    requires Inv(s, tracked) && Written(s, w).1 == None
    ensures var d := Written(s, w).0.disk;
            && d.File? && d.version == VERSION_STRIPPED
            && (forall k, b :: (k in OnDisk(d) && OnDisk(d)[k] == b) <==> BelongsOnDisk(s, w, k, b))
            && d.backups == InOrder(OnDisk(d))
  {
    hide KeyOf, ByKey, InOrder;
    WrittenFile(s, w);
  }

  /** The keys along the file are strictly increasing, so each appears once. */
  lemma FileIsSorted(m: BackupMap, i: nat, j: nat)
    requires Keyed(m) && i < j < |InOrder(m)|
    ensures KeyOfBackup(InOrder(m)[i]).Some? && KeyOfBackup(InOrder(m)[j]).Some?
    ensures Before(KeyOfBackup(InOrder(m)[i]).value, KeyOfBackup(InOrder(m)[j]).value)
  {
    hide KeyOf, Before;
    var ks := SortedKeys(m.Keys);
    assert ks[i] in ks && ks[j] in ks;
  }

  /** Writing again with the same answers changes nothing. */
  lemma WriteIsFixedPoint(s: State, w: World, tracked: set<EntryKey>)
    requires Inv(s, tracked) && Written(s, w).1 == None
    ensures Written(Written(s, w).0, w) == (Written(s, w).0, None)
  {
    hide KeyOf, InOrder, OnDisk, Combined, DiskOnly;
    var s' := Written(s, w).0;
    WrittenFile(s, w);
    CombinedAgain(s, w, s');
  }

  /** What was combined once is combined again, and every lookup it needs has been answered. */
  lemma CombinedAgain(s: State, w: World, s': State)
    requires s'.entries == s.entries && s'.pending == {} && OnDisk(s'.disk) == Combined(s, w)
    requires s.entries.Keys !! s.pending
    ensures Combined(s', w) == Combined(s, w) && LookupsAnswer(s', w)
  {
    hide OnDisk;
    forall k | k in DiskOnly(s') ensures k in Retained(s, w) && DiskOnly(s')[k] == Retained(s, w)[k] { }
    assert Retained(s', w) == DiskOnly(s');
    assert Combined(s', w) == Combined(s, w);
  }

  lemma TryAgain(w: World, existing: Option<Tracked>, a: ChainAsset)
    ensures match Try(w, existing, a)
            case Added(t) => Try(w, Some(t), a) == Kept
            case _ => true
  {
  }

  /** Looking at the same wallet again adds and removes nothing. */
  lemma RefreshAgain(s: State, w: World, current: map<EntryKey, ChainAsset>)
    requires s.entries.Keys <= current.Keys && s.pending == {}
    requires forall k :: k in current ==> !AttemptAt(w, s.entries, current, k).Added?
    ensures Refreshed(s, w, true, current) == s.(dirty := true)
  {
    hide AttemptAt;
    assert Present(s.entries, current) == s.entries;
    assert AddedEntries(w, s.entries, current) == map[];
  }

  lemma SettledEntries(s: State, w: World, force: bool, current: map<EntryKey, ChainAsset>, k: EntryKey)
    requires k in current
    ensures !AttemptAt(w, Refreshed(s, w, force, current).entries, current, k).Added?
  {
    hide Try;
    var kept := Present(s.entries, current);
    TryAgain(w, Existing(kept, k), current[k]);
    var entries := Refreshed(s, w, force, current).entries;
    if k in AddedKeys(w, kept, current) {
      assert entries[k] == AttemptAt(w, kept, current, k).entry;
    } else {
      assert Existing(entries, k) == Existing(kept, k);
    }
  }

  /** A forced reconcile right after a successful one, with the same answers, reproduces state and file. */
  lemma ReconcileIsFixedPoint(s: State, w: World, force: bool, tracked: set<EntryKey>)
    requires Inv(s, tracked) && w.fetch.Some?
    requires Refreshed(s, w, force, Current(w.fetch.value)).dirty && Reconciled(s, w, force).2 == None
    ensures Reconciled(Reconciled(s, w, force).0, w, true).0 == Reconciled(s, w, force).0
    ensures Reconciled(Reconciled(s, w, force).0, w, true).2 == None
  {
    hide KeyOf, ByKey, Refreshed, Written, AttemptAt, FailedKeys;
    var current := Current(w.fetch.value);
    var s1 := Refreshed(s, w, force, current);
    CurrentKeyed(w.fetch.value);
    RefreshedInv(s, w, force, current, tracked);
    WrittenShape(s1, w);
    var s2 := Written(s1, w).0;
    RefreshedKeys(s, w, force, current);
    forall k | k in current ensures !AttemptAt(w, s2.entries, current, k).Added? {
      SettledEntries(s, w, force, current, k);
    }
    RefreshAgain(s2, w, current);
    WriteIsFixedPoint(s1, w, tracked + s1.entries.Keys);
    DirtyIsCleared(s2, w);
  }

  lemma WrittenShape(s: State, w: World)
    requires Written(s, w).1 == None
    ensures Written(s, w).0.entries == s.entries && Written(s, w).0.pending == {} && !Written(s, w).0.dirty
  {
  }

  lemma RefreshedKeys(s: State, w: World, force: bool, current: map<EntryKey, ChainAsset>)
    ensures Refreshed(s, w, force, current).entries.Keys <= current.Keys
  {
    hide AttemptAt;
  }

  lemma DirtyIsCleared(s: State, w: World)
    requires Written(s, w).1 == None
    ensures Written(s.(dirty := true), w) == Written(s, w)
  {
    assert DiskOnly(s.(dirty := true)) == DiskOnly(s);
    assert Retained(s.(dirty := true), w) == Retained(s, w);
  }

  // ----- Whole runs -----

  datatype Event = Reconcile(world: World, force: bool) | Crash

  ghost function After(s: State, e: Event): State {
    match e
    case Reconcile(w, force) => Reconciled(s, w, force).0
    case Crash => Restarted(s)
  }

  ghost function AfterRun(s: State, events: seq<Event>): State {
    if events == [] then s else After(AfterRun(s, events[..|events| - 1]), events[|events| - 1])
  }

  ghost function TrackedInRun(s: State, tracked: set<EntryKey>, events: seq<Event>): set<EntryKey> {
    if events == [] then tracked else
    var before := TrackedInRun(s, tracked, events[..|events| - 1]);
    match events[|events| - 1]
    case Reconcile(w, force) => TrackedAfter(AfterRun(s, events[..|events| - 1]), w, force, before)
    case Crash => {}
  }

  /** The invariant holds after every run of reconciles and crashes. */
  lemma {:induction false} InvHolds(s: State, tracked: set<EntryKey>, events: seq<Event>)
    requires Inv(s, tracked)
    ensures Inv(AfterRun(s, events), TrackedInRun(s, tracked, events))
  {
    hide Inv, Reconciled, TrackedAfter, Restarted;
    if events != [] {
      var front, before := events[..|events| - 1], AfterRun(s, events[..|events| - 1]);
      InvHolds(s, tracked, front);
      match events[|events| - 1]
      case Reconcile(w, force) => ReconcileKeepsInv(before, w, force, TrackedInRun(s, tracked, front));
      case Crash => RestartedInv(before);
    }
  }

  /** The wallet reports the leaf as confirmed and unspent, whenever it can be asked. */
  ghost predicate Live(k: EntryKey, e: Event) {
    e.Reconcile? ==>
      && (e.world.fetch.Some? ==> k in Current(e.world.fetch.value))
      && forall b :: KeyOfBackup(b) == Some(k) ==> e.world.spent(b) != Some(true)
  }

  ghost predicate Safe(s: State, k: EntryKey) {
    EntriesKeyed(s.entries) && k in OnDisk(s.disk) && k !in s.pending
  }

  lemma RefreshKeepsSafe(s: State, w: World, force: bool, current: map<EntryKey, ChainAsset>, k: EntryKey)
    requires Safe(s, k) && k in current
    requires forall j :: j in current ==> KeyOfChainAsset(current[j]) == Some(j)
    ensures Safe(Refreshed(s, w, force, current), k)
  {
    hide KeyOf, ByKey, AttemptAt, EntriesKeyed, AddedEntries;
    var kept := Present(s.entries, current);
    AddedKeyed(w, kept, current);
    UnionKeyed(s.entries, kept, AddedEntries(w, kept, current));
  }

  lemma WriteKeepsSafe(s: State, w: World, k: EntryKey)
    requires Safe(s, k)
    requires forall b :: KeyOfBackup(b) == Some(k) ==> w.spent(b) != Some(true)
    ensures Safe(Written(s, w).0, k)
  {
    hide KeyOf, ByKey, InOrder;
    WrittenFile(s, w);
    OnDiskKeyed(s.disk);
    assert KeyOfBackup(OnDisk(s.disk)[k]) == Some(k);
    if LookupsAnswer(s, w) { LiveIsCombined(s, w, k); }
  }

  lemma LiveIsCombined(s: State, w: World, k: EntryKey)
    requires k in OnDisk(s.disk) && k !in s.pending && LookupsAnswer(s, w)
    requires w.spent(OnDisk(s.disk)[k]) != Some(true)
    ensures k in Combined(s, w)
  {
    hide ByKey;
    if k !in s.entries {
      var answer := w.spent(DiskOnly(s)[k]);
      assert answer.Some? && answer == Some(answer.value) && !answer.value;
      assert k in Retained(s, w);
    }
  }

  lemma EventKeepsSafe(s: State, e: Event, k: EntryKey)
    requires Safe(s, k) && Live(k, e)
    ensures Safe(After(s, e), k)
  {
    hide KeyOf, ByKey, Refreshed, Written, EntriesKeyed, FailedKeys;
    match e
    case Crash => NothingHeld();
    case Reconcile(w, force) =>
      if w.fetch.Some? {
        var current := Current(w.fetch.value);
        CurrentKeyed(w.fetch.value);
        RefreshKeepsSafe(s, w, force, current, k);
        WriteKeepsSafe(Refreshed(s, w, force, current), w, k);
      }
  }

  lemma NothingHeld()
    ensures EntriesKeyed(map[])
  {
  }

  /**
   * A leaf that is on disk and not about to be removed stays on disk through every run in which the
   * wallet reports it live, whatever fails and however often the process restarts.
   */
  lemma {:induction false} LiveLeafIsNeverLost(s: State, events: seq<Event>, k: EntryKey)
    requires EntriesKeyed(s.entries) && k in OnDisk(s.disk) && k !in s.pending
    requires forall i :: 0 <= i < |events| ==> Live(k, events[i])
    ensures k in OnDisk(AfterRun(s, events).disk)
    ensures Safe(AfterRun(s, events), k)
  {
    hide After, Live, Safe;
    assert Safe(s, k) by { ItIsSafe(s, k); }
    if events != [] {
      LiveLeafIsNeverLost(s, events[..|events| - 1], k);
      EventKeepsSafe(AfterRun(s, events[..|events| - 1]), events[|events| - 1], k);
    }
    SafeIsOnDisk(AfterRun(s, events), k);
  }

  lemma ItIsSafe(s: State, k: EntryKey)
    requires EntriesKeyed(s.entries) && k in OnDisk(s.disk) && k !in s.pending
    ensures Safe(s, k)
  {
  }

  lemma SafeIsOnDisk(s: State, k: EntryKey)
    requires Safe(s, k)
    ensures EntriesKeyed(s.entries) && k in OnDisk(s.disk) && k !in s.pending
  {
  }

  /** Whether a leaf that the wallet reports live is out of memory's way after it has been looked at. */
  lemma StillPendingIff(s: State, w: World, force: bool, current: map<EntryKey, ChainAsset>, k: EntryKey)
    requires k in current && s.entries.Keys !! s.pending
    ensures k in Refreshed(s, w, force, current).pending <==> k in s.pending && w.build(current[k]) == None
  {
    var kept := Present(s.entries, current);
    if k in s.pending { assert Existing(kept, k) == None; }
    assert k in AddedKeys(w, kept, current) <==> AttemptAt(w, kept, current, k).Added?;
  }

  /**
   * A successful reconcile of a wallet that reports a leaf live keeps the leaf on disk exactly when its
   * removal was not pending or its entry can be built.
   */
  lemma LiveLeafStaysIff(s: State, w: World, force: bool, tracked: set<EntryKey>, k: EntryKey)
    requires Inv(s, tracked) && k in OnDisk(s.disk)
    requires w.fetch.Some? && k in Current(w.fetch.value)
    requires forall b :: KeyOfBackup(b) == Some(k) ==> w.spent(b) != Some(true)
    requires Reconciled(s, w, force).2 == None
    ensures k in OnDisk(Reconciled(s, w, force).0.disk)
            <==> k !in s.pending || w.build(Current(w.fetch.value)[k]).Some?
  {
    hide KeyOf, OnDisk, Refreshed, FailedKeys, Written, Current, Inv;
    var current := Current(w.fetch.value);
    CurrentKeyed(w.fetch.value);
    InvParts(s, tracked);
    StillPendingIff(s, w, force, current, k);
    RefreshedInv(s, w, force, current, tracked);
    var s1 := Refreshed(s, w, force, current);
    InvParts(s1, tracked + s1.entries.Keys);
    RefreshedDisk(s, w, force, current);
    if s1.dirty {
      if k in s1.pending { PendingIsWrittenOff(s1, w, k); } else { LiveIsWritten(s1, w, k); }
    }
  }

  lemma InvParts(s: State, tracked: set<EntryKey>)
    requires Inv(s, tracked)
    ensures EntriesKeyed(s.entries) && s.entries.Keys !! s.pending
  {
  }

  lemma PendingIsWrittenOff(s: State, w: World, k: EntryKey)
    requires EntriesKeyed(s.entries) && k in s.pending && Written(s, w).1 == None
    ensures k !in OnDisk(Written(s, w).0.disk)
  {
    hide KeyOf, OnDisk, InOrder, Combined, LookupsAnswer;
    WrittenFile(s, w);
    PendingIsDropped(s, w, k);
  }

  lemma LiveIsWritten(s: State, w: World, k: EntryKey)
    requires EntriesKeyed(s.entries) && k in OnDisk(s.disk) && k !in s.pending && Written(s, w).1 == None
    requires forall b :: KeyOfBackup(b) == Some(k) ==> w.spent(b) != Some(true)
    ensures k in OnDisk(Written(s, w).0.disk)
  {
    hide KeyOf, OnDisk, InOrder, Combined, LookupsAnswer;
    WrittenFile(s, w);
    OnDiskKeyed(s.disk);
    assert KeyOfBackup(OnDisk(s.disk)[k]) == Some(k);
    LiveIsCombined(s, w, k);
  }

  lemma RefreshedDisk(s: State, w: World, force: bool, current: map<EntryKey, ChainAsset>)
    ensures Refreshed(s, w, force, current).disk == s.disk
    ensures Refreshed(s, w, force, current).pending != {} ==> Refreshed(s, w, force, current).dirty
  {
    hide AttemptAt;
  }

  lemma PendingIsDropped(s: State, w: World, k: EntryKey)
    requires k in s.pending
    ensures k !in Combined(s, w)
  {
  }

  // ----- A run that loses a live leaf -----

  const EXAMPLE_LEAF: ChainAsset :=
    ChainAsset(Some(Asset(0, EMPTY_GENESIS, 1, 0, 0, [], None, 0, BLANK_KEY, None, map[])),
               OutPoint(Zeros(32), 0), Zeros(32), 1)

  function ExampleKey(): EntryKey {
    EntryKey(AssetId(EMPTY_GENESIS), BLANK_KEY, OutPoint(Zeros(32), 0))
  }

  /** Everything can be read and looked up; entries can be built or not; the swap ends as given. */
  function ExampleWorld(fetched: seq<ChainAsset>, builds: bool, swap: SwapOutcome): World {
    World(Some(fetched), false, (a: ChainAsset) => if builds then Some(Built(None, [])) else None, true,
          (b: Backup) => Some(false), swap)
  }

  lemma ExampleCurrent()
    ensures Current([]) == map[] && Current([EXAMPLE_LEAF]) == map[ExampleKey() := EXAMPLE_LEAF]
    ensures KeyOfChainAsset(EXAMPLE_LEAF) == Some(ExampleKey())
  {
    hide AssetId;
    assert BLANK_KEY[0] != NIL_KEY[0];
    assert [EXAMPLE_LEAF][..0] == [];
  }

  lemma LeafIsBuilt(start: State)
    requires start == State(map[], {}, false, Missing)
    ensures var w := ExampleWorld([EXAMPLE_LEAF], true, Swapped);
            var s := Refreshed(start, w, true, map[ExampleKey() := EXAMPLE_LEAF]);
            && s.entries.Keys == {ExampleKey()} && s.pending == {} && s.dirty && s.disk == Missing
  {
    hide KeyOf, ByKey, InOrder, AssetId;
    var w, k := ExampleWorld([EXAMPLE_LEAF], true, Swapped), ExampleKey();
    var current := map[k := EXAMPLE_LEAF];
    assert Present(map[], current) == map[];
    assert AttemptAt(w, map[], current, k).Added?;
    assert AddedKeys(w, map[], current) == {k};
    assert AddedEntries(w, map[], current).Keys == {k};
  }

  lemma HeldIsWritten(s: State, w: World, k: EntryKey)
    requires EntriesKeyed(s.entries) && k in s.entries && k !in s.pending && s.disk == Missing
    requires w.readable && w.swap == Swapped
    ensures Written(s, w).1 == None && k in OnDisk(Written(s, w).0.disk)
    ensures Written(s, w).0.disk.File? && Written(s, w).0.disk.version == VERSION_STRIPPED
  {
    hide KeyOf, InOrder;
    WrittenFile(s, w);
    assert DiskOnly(s) == map[];
    assert k in Remembered(s.entries) && k in Combined(s, w);
  }

  lemma LeafIsTakenIn(start: State)
    requires start == State(map[], {}, false, Missing)
    ensures var (s, failed, err) := Reconciled(start, ExampleWorld([EXAMPLE_LEAF], true, Swapped), true);
            && err == None && s.entries.Keys == {ExampleKey()} && s.pending == {} && ExampleKey() in OnDisk(s.disk)
            && s.disk.File? && s.disk.version == VERSION_STRIPPED
  {
    hide KeyOf, OnDisk, Written, Refreshed, Current, FailedKeys;
    ExampleCurrent();
    var w, current := ExampleWorld([EXAMPLE_LEAF], true, Swapped), map[ExampleKey() := EXAMPLE_LEAF];
    LeafIsBuilt(start);
    RestartedInv(start);
    RefreshedInv(start, w, true, current, {});
    var s1 := Refreshed(start, w, true, current);
    HeldIsWritten(s1, w, ExampleKey());
    WrittenShape(s1, w);
  }

  lemma RemovalIsLeftPending(s: State)
    requires s.entries.Keys == {ExampleKey()} && s.pending == {} && s.disk.File? && s.disk.version == VERSION_STRIPPED
    ensures var s' := Reconciled(s, ExampleWorld([], true, FailedOld), false).0;
            s'.entries == map[] && s'.pending == {ExampleKey()} && s'.dirty && s'.disk == s.disk
  {
    hide KeyOf, ByKey, InOrder, AttemptAt;
    ExampleCurrent();
    var w := ExampleWorld([], true, FailedOld);
    assert Present(s.entries, map[]) == map[];
    assert AddedKeys(w, map[], map[]) == {};
    assert AddedEntries(w, map[], map[]) == map[];
    var s1 := Refreshed(s, w, false, map[]);
    assert s1.entries == map[] && s1.pending == {ExampleKey()};
  }

  /**
   * A leaf is written, disappears while a write fails, and comes back while its entry cannot be built: the
   * next successful write drops it, although the wallet reports it live.
   */
  lemma LiveLeafCanBeLost()
    ensures var k := ExampleKey();
            var taken := Reconcile(ExampleWorld([EXAMPLE_LEAF], true, Swapped), true);
            var gone := Reconcile(ExampleWorld([], true, FailedOld), false);
            var back := ExampleWorld([EXAMPLE_LEAF], false, Swapped);
            var s := AfterRun(State(map[], {}, false, Missing), [taken, gone]);
            && k in OnDisk(s.disk) && Live(k, Reconcile(back, false))
            && Reconciled(s, back, false).2 == None && k !in OnDisk(Reconciled(s, back, false).0.disk)
  {
    hide KeyOf, ByKey, InOrder, Reconciled, Inv, Current;
    var start, k := State(map[], {}, false, Missing), ExampleKey();
    var w1, w2 := ExampleWorld([EXAMPLE_LEAF], true, Swapped), ExampleWorld([], true, FailedOld);
    var taken, gone, back := Reconcile(w1, true), Reconcile(w2, false), ExampleWorld([EXAMPLE_LEAF], false, Swapped);
    ExampleCurrent();
    LeafIsTakenIn(start);
    var s1 := Reconciled(start, w1, true).0;
    RemovalIsLeftPending(s1);
    var s2 := Reconciled(s1, w2, false).0;
    assert [taken, gone][..1] == [taken] && [taken][..0] == [];
    assert AfterRun(start, [taken]) == s1;
    assert AfterRun(start, [taken, gone]) == s2;
    RestartedInv(start);
    ReconcileKeepsInv(start, w1, true, {});
    ReconcileKeepsInv(s1, w2, false, TrackedAfter(start, w1, true, {}));
    var tracked := TrackedAfter(s1, w2, false, TrackedAfter(start, w1, true, {}));
    WriteSucceeds(s2, [EXAMPLE_LEAF]);
    LiveLeafStaysIff(s2, back, false, tracked, k);
  }

  lemma WriteSucceeds(s: State, fetched: seq<ChainAsset>)
    requires s.disk.File? && s.disk.version == VERSION_STRIPPED
    ensures Reconciled(s, ExampleWorld(fetched, false, Swapped), false).2 == None
  {
    hide KeyOf, OnDisk, InOrder, Refreshed, Current, Combined, FailedKeys, LookupsAnswer;
    var w := ExampleWorld(fetched, false, Swapped);
    var s1 := Refreshed(s, w, false, Current(fetched));
    RefreshedDisk(s, w, false, Current(fetched));
    AlwaysAnswered(s1, fetched);
  }

  lemma AlwaysAnswered(s: State, fetched: seq<ChainAsset>)
    ensures LookupsAnswer(s, ExampleWorld(fetched, false, Swapped))
  {
    hide OnDisk;
  }
}
