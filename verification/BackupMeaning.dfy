/** What a reconcile does, said over what the wallet reports and nothing else. */
module BackupMeaning {
  import opened Bytes
  import opened Assets
  import opened BackupState
  import opened UpdaterLoop

  // ----- What the wallet reports -----

  /** A confirmed leaf with a script key. */
  ghost predicate IsLeaf(a: ChainAsset) {
    a.asset.Some? && a.asset.value.scriptKey != Zeros(33) && a.blockHeight > 0
  }

  ghost function KeyAt(a: ChainAsset): EntryKey
    requires IsLeaf(a)
  {
    EntryKey(AssetId(a.asset.value.genesis), a.asset.value.scriptKey, a.outPoint)
  }

  /** The last report of a leaf. */
  ghost predicate IsLatest(fetched: seq<ChainAsset>, i: nat) {
    && i < |fetched| && IsLeaf(fetched[i])
    && forall j :: i < j < |fetched| && IsLeaf(fetched[j]) ==> KeyAt(fetched[j]) != KeyAt(fetched[i])
  }

  ghost function LiveKeys(fetched: seq<ChainAsset>): set<EntryKey> {
    set i | 0 <= i < |fetched| && IsLeaf(fetched[i]) :: KeyAt(fetched[i])
  }

  lemma LeafIsConfirmed(a: ChainAsset)
    ensures Confirmed(a) <==> IsLeaf(a)
    ensures IsLeaf(a) ==> KeyOfChainAsset(a) == Some(KeyAt(a))
  {
    hide AssetId;
  }

  /** Every key the program tracks is that of a last report, and holds it. */
  lemma {:induction false} CurrentIsLatest(fetched: seq<ChainAsset>, k: EntryKey) returns (i: nat)
    requires k in Current(fetched)
    ensures IsLatest(fetched, i) && KeyAt(fetched[i]) == k && Current(fetched)[k] == fetched[i]
  {
    hide Confirmed, KeyOf, KeyAt, IsLeaf;
    var front, a := fetched[..|fetched| - 1], fetched[|fetched| - 1];
    LeafIsConfirmed(a);
    if Confirmed(a) && KeyAt(a) == k {
      i := |fetched| - 1;
    } else {
      i := CurrentIsLatest(front, k);
      assert front[i] == fetched[i];
      forall j | i < j < |fetched| && IsLeaf(fetched[j]) ensures KeyAt(fetched[j]) != KeyAt(fetched[i]) {
        if j < |front| { assert front[j] == fetched[j]; }
      }
    }
  }

  lemma {:induction false} LeafIsCurrent(fetched: seq<ChainAsset>, i: nat)
    requires i < |fetched| && IsLeaf(fetched[i])
    ensures KeyAt(fetched[i]) in Current(fetched)
  {
    hide Confirmed, KeyOf, KeyAt, IsLeaf;
    var n := |fetched| - 1;
    LeafIsConfirmed(fetched[n]);
    if i < n {
      assert fetched[..n][i] == fetched[i];
      LeafIsCurrent(fetched[..n], i);
    }
  }

  lemma LatestIsCurrent(fetched: seq<ChainAsset>, i: nat)
    requires IsLatest(fetched, i)
    ensures KeyAt(fetched[i]) in Current(fetched) && Current(fetched)[KeyAt(fetched[i])] == fetched[i]
  {
    hide KeyAt, IsLeaf, Current;
    LeafIsCurrent(fetched, i);
    var j := CurrentIsLatest(fetched, KeyAt(fetched[i]));
    assert i == j;
  }

  lemma CurrentKeys(fetched: seq<ChainAsset>)
    ensures Current(fetched).Keys == LiveKeys(fetched)
  {
    hide KeyAt, IsLeaf, Current;
    forall k ensures k in Current(fetched) <==> k in LiveKeys(fetched) {
      if k in Current(fetched) { var i := CurrentIsLatest(fetched, k); }
      if k in LiveKeys(fetched) {
        var i :| 0 <= i < |fetched| && IsLeaf(fetched[i]) && KeyAt(fetched[i]) == k;
        LeafIsCurrent(fetched, i);
      }
    }
  }

  // ----- What a reconcile makes of it -----

  /** The leaf is not held, is held from another block, or lacks a group that could now be described. */
  ghost predicate NeedsEntry(s: State, w: World, a: ChainAsset)
    requires IsLeaf(a)
  {
    var k := KeyAt(a);
    || k !in s.entries
    || s.entries[k].blockHash != a.blockHash
    || (w.describesGroups && a.asset.value.groupKey.Some? && s.entries[k].backup.groupInfo == None)
  }

  /** The leaves that need an entry for which none can be built. */
  ghost function UnbuiltKeys(s: State, w: World, fetched: seq<ChainAsset>): set<EntryKey> {
    set i | 0 <= i < |fetched| && IsLatest(fetched, i) && NeedsEntry(s, w, fetched[i]) && w.build(fetched[i]) == None ::
      KeyAt(fetched[i])
  }

  lemma FailedIsUnbuilt(s: State, w: World, fetched: seq<ChainAsset>, i: nat)
    requires IsLatest(fetched, i)
    ensures var current := Current(fetched);
            KeyAt(fetched[i]) in FailedKeys(w, Present(s.entries, current), current)
            <==> NeedsEntry(s, w, fetched[i]) && w.build(fetched[i]) == None
  {
    hide Current, AssetId;
    LatestIsCurrent(fetched, i);
    var current, k := Current(fetched), KeyAt(fetched[i]);
    assert Existing(Present(s.entries, current), k) == Existing(s.entries, k);
  }

  /** A reconcile reports as failed exactly the leaves that need an entry and cannot get one. */
  lemma FailedExactly(s: State, w: World, force: bool)
    requires w.fetch.Some?
    ensures Reconciled(s, w, force).1 == |UnbuiltKeys(s, w, w.fetch.value)|
  {
    hide Current, Written, Refreshed, NeedsEntry, KeyAt;
    var fetched := w.fetch.value;
    var current := Current(fetched);
    var failed := FailedKeys(w, Present(s.entries, current), current);
    forall k ensures k in failed <==> k in UnbuiltKeys(s, w, fetched) {
      if k in failed {
        var i := CurrentIsLatest(fetched, k);
        FailedIsUnbuilt(s, w, fetched, i);
        LatestInRange(fetched, i);
        assert KeyAt(fetched[i]) in UnbuiltKeys(s, w, fetched);
      }
      if k in UnbuiltKeys(s, w, fetched) {
        var i :| 0 <= i < |fetched| && IsLatest(fetched, i) && NeedsEntry(s, w, fetched[i])
                 && w.build(fetched[i]) == None && KeyAt(fetched[i]) == k;
        FailedIsUnbuilt(s, w, fetched, i);
      }
    }
    assert failed == UnbuiltKeys(s, w, fetched);
  }

  lemma LatestInRange(fetched: seq<ChainAsset>, i: nat)
    requires IsLatest(fetched, i)
    ensures i < |fetched| && IsLeaf(fetched[i])
  {
  }

  /** A new entry holds what could be built; a missing group alone does not replace an entry of the same block. */
  ghost predicate EntryAfter(s: State, w: World, a: ChainAsset, entries: Entries)
    requires IsLeaf(a)
  {
    var k := KeyAt(a);
    if !NeedsEntry(s, w, a) then k in entries && entries[k] == s.entries[k]
    else
      match w.build(a)
      case None => if k in s.entries then k in entries && entries[k] == s.entries[k] else k !in entries
      case Some(built) =>
        && k in entries
        && if k in s.entries && s.entries[k].blockHash == a.blockHash && built.groupInfo == None
           then entries[k] == s.entries[k]
           else && entries[k].blockHash == a.blockHash
                && entries[k].backup.asset == a.asset && entries[k].backup.outPoint == a.outPoint
                && entries[k].backup.groupInfo == built.groupInfo && entries[k].backup.proof == built.proof
  }

  lemma RefreshedEntry(s: State, w: World, force: bool, fetched: seq<ChainAsset>, i: nat)
    requires IsLatest(fetched, i)
    ensures EntryAfter(s, w, fetched[i], Refreshed(s, w, force, Current(fetched)).entries)
  {
    hide Current, AssetId;
    LatestIsCurrent(fetched, i);
    var current, k := Current(fetched), KeyAt(fetched[i]);
    var kept := Present(s.entries, current);
    assert Existing(kept, k) == Existing(s.entries, k);
    assert k in AddedKeys(w, kept, current) <==> AttemptAt(w, kept, current, k).Added?;
  }

  lemma ReconciledEntries(s: State, w: World, force: bool)
    requires w.fetch.Some?
    ensures Reconciled(s, w, force).0.entries == Refreshed(s, w, force, Current(w.fetch.value)).entries
  {
    hide Written, Refreshed, Current, FailedKeys;
    WrittenEntries(Refreshed(s, w, force, Current(w.fetch.value)), w);
  }

  /** Memory after a reconcile, leaf by leaf, however the write ended. */
  lemma MemoryExactly(s: State, w: World, force: bool)
    requires w.fetch.Some?
    ensures var entries := Reconciled(s, w, force).0.entries;
            && entries.Keys <= LiveKeys(w.fetch.value)
            && forall i :: 0 <= i < |w.fetch.value| && IsLatest(w.fetch.value, i) ==>
                 EntryAfter(s, w, w.fetch.value[i], entries)
  {
    hide Reconciled, Refreshed, Current, EntryAfter, KeyAt, LiveKeys;
    var fetched := w.fetch.value;
    ReconciledEntries(s, w, force);
    RefreshedKeys(s, w, force, Current(fetched));
    CurrentKeys(fetched);
    forall i | 0 <= i < |fetched| && IsLatest(fetched, i)
      ensures EntryAfter(s, w, fetched[i], Reconciled(s, w, force).0.entries)
    {
      RefreshedEntry(s, w, force, fetched, i);
    }
  }

  lemma {:induction false} HasLatest(fetched: seq<ChainAsset>, i: nat) returns (j: nat)
    requires i < |fetched| && IsLeaf(fetched[i])
    ensures IsLatest(fetched, j) && KeyAt(fetched[j]) == KeyAt(fetched[i])
  {
    hide KeyAt, IsLeaf, Current;
    LeafIsCurrent(fetched, i);
    j := CurrentIsLatest(fetched, KeyAt(fetched[i]));
  }

  /** When nothing failed, memory holds exactly the confirmed leaves, each from the block the wallet reports. */
  lemma NothingFailedMeansComplete(s: State, w: World, force: bool)
    requires w.fetch.Some? && Reconciled(s, w, force).1 == 0
    ensures var entries := Reconciled(s, w, force).0.entries;
            && entries.Keys == LiveKeys(w.fetch.value)
            && forall i :: 0 <= i < |w.fetch.value| && IsLatest(w.fetch.value, i) ==>
                 && KeyAt(w.fetch.value[i]) in entries
                 && entries[KeyAt(w.fetch.value[i])].blockHash == w.fetch.value[i].blockHash
  {
    hide Reconciled, KeyAt, IsLatest, IsLeaf;
    var fetched, entries := w.fetch.value, Reconciled(s, w, force).0.entries;
    FailedExactly(s, w, force);
    MemoryExactly(s, w, force);
    forall i | 0 <= i < |fetched| && IsLatest(fetched, i)
      ensures IsLeaf(fetched[i]) && KeyAt(fetched[i]) in entries
      ensures entries[KeyAt(fetched[i])].blockHash == fetched[i].blockHash
    {
      LatestInRange(fetched, i);
      assert KeyAt(fetched[i]) !in UnbuiltKeys(s, w, fetched);
      BuiltIfNeeded(s, w, fetched, i);
    }
    forall k | k in LiveKeys(fetched) ensures k in entries {
      var i :| 0 <= i < |fetched| && IsLeaf(fetched[i]) && KeyAt(fetched[i]) == k;
      var j := HasLatest(fetched, i);
      LatestInRange(fetched, j);
    }
  }

  lemma BuiltIfNeeded(s: State, w: World, fetched: seq<ChainAsset>, i: nat)
    requires IsLatest(fetched, i) && KeyAt(fetched[i]) !in UnbuiltKeys(s, w, fetched)
    ensures NeedsEntry(s, w, fetched[i]) ==> w.build(fetched[i]).Some?
  {
    hide KeyAt, IsLeaf;
  }

  // ----- A loop at rest -----

  ghost predicate AllHeld(s: State, fetched: seq<ChainAsset>) {
    forall i :: 0 <= i < |fetched| && IsLeaf(fetched[i]) ==> KeyAt(fetched[i]) in s.entries
  }

  /** The world of the last reconcile of a run. */
  ghost function LastWorld(l: Loop, w: World, events: seq<Timed>): World {
    if events == [] then w else
    var front, e := events[..|events| - 1], events[|events| - 1].event;
    match e
    case Changed => LastWorld(l, w, front)
    case Fired(w') => if LoopRun(l, front).timer.None? then LastWorld(l, w, front) else w'
    case Sync(w') => w'
  }

  lemma QuietStep(l: Loop, at: nat, w: World, force: bool)
    requires ReconcileStep(l, at, w, force).timer.None?
    ensures w.fetch.Some? && AllHeld(ReconcileStep(l, at, w, force).updater, w.fetch.value)
  {
    hide KeyAt, IsLeaf;
    assert w.fetch.Some?;
    hide Reconciled;
    NothingFailedMeansComplete(l.updater, w, force);
    forall i | 0 <= i < |w.fetch.value| && IsLeaf(w.fetch.value[i])
      ensures KeyAt(w.fetch.value[i]) in Reconciled(l.updater, w, force).0.entries
    {
      assert KeyAt(w.fetch.value[i]) in LiveKeys(w.fetch.value);
    }
  }

  /** While no timer is armed, every confirmed leaf of the last fetch is held in memory. */
  lemma {:induction false} QuietLoopHoldsEverything(disk: Disk, at: nat, w: World, events: seq<Timed>)
    ensures var start := LoopStart(State(map[], {}, false, disk), at, w);
            var last := LastWorld(start, w, events);
            LoopRun(start, events).timer.None? ==>
              last.fetch.Some? && AllHeld(LoopRun(start, events).updater, last.fetch.value)
  {
    hide ReconcileStep, AllHeld;
    var before := State(map[], {}, false, disk);
    var start := LoopStart(before, at, w);
    if events == [] {
      if start.timer.None? { QuietStep(Loop(before, None, false, None), at, w, true); }
    } else {
      var front, e := events[..|events| - 1], events[|events| - 1];
      QuietLoopHoldsEverything(disk, at, w, front);
      var l := LoopRun(start, front);
      if !e.event.Changed? && ReconcileStep(l, e.at, e.event.world, false).timer.None? {
        QuietStep(l, e.at, e.event.world, false);
      }
    }
  }

  // ----- The file -----

  /** Reading fails exactly when the file cannot be read or decrypted, or is an optimistic export. */
  lemma ReadingFailsExactly(s: State, w: World)
    ensures Written(s, w).1 == Some(ReadFailed) <==> !w.readable || (s.disk.File? && s.disk.version == 3)
  {
    hide InOrder, Combined, LookupsAnswer;
  }

  /** An optimistic export placed at the path is never overwritten. */
  lemma {:induction false} OptimisticFileIsKept(s: State, events: seq<Event>)
    requires s.disk.File? && s.disk.version == 3
    ensures AfterRun(s, events).disk == s.disk
  {
    hide InOrder, Combined, LookupsAnswer, AttemptAt, Current, FailedKeys;
    if events != [] {
      OptimisticFileIsKept(s, events[..|events| - 1]);
      var before := AfterRun(s, events[..|events| - 1]);
      match events[|events| - 1]
      case Crash =>
      case Reconcile(w, force) =>
        if w.fetch.Some? { RefreshedDisk(before, w, force, Current(w.fetch.value)); }
    }
  }

  ghost predicate HeldOrUnspent(s: State, was: Disk, w: World, k: EntryKey, b: Backup) {
    if k in s.entries then b == s.entries[k].backup
    else k in OnDisk(was) && b == OnDisk(was)[k] && w.spent(b) == Some(false)
  }

  /** The file holds the entries in memory, and of the old file what is not known as spent. */
  ghost predicate HoldsHeldAndUnspent(s: State, was: Disk, w: World) {
    forall k, b :: (k in OnDisk(s.disk) && OnDisk(s.disk)[k] == b) <==> HeldOrUnspent(s, was, w, k, b)
  }

  /**
   * The loop begins with a write even if the wallet is empty: if everything answers, there is a file
   * afterwards, and it holds the entries in memory and what of the old file is not known as spent.
   */
  lemma FirstWriteHappens(disk: Disk, at: nat, w: World)
    requires w.fetch.Some? && w.readable && w.swap == Swapped && (disk.File? ==> disk.version != 3)
    requires forall b :: w.spent(b).Some?
    ensures var s := LoopStart(State(map[], {}, false, disk), at, w).updater;
            && s.disk.File? && s.disk.version == 2 && !s.dirty && s.pending == {}
            && s.disk.backups == InOrder(OnDisk(s.disk))
            && HoldsHeldAndUnspent(s, disk, w)
  {
    hide InOrder, Combined, OnDisk, AttemptAt, Current, FailedKeys, Written, Inv, Refreshed;
    var start := State(map[], {}, false, disk);
    var current := Current(w.fetch.value);
    var s1 := Refreshed(start, w, true, current);
    assert s1.dirty && s1.pending == {} && s1.disk == disk by { ForcedIsDirty(start, w, current); }
    RestartedInv(start);
    CurrentKeyed(w.fetch.value);
    RefreshedInv(start, w, true, current, {});
    assert Written(s1, w).1 == None by { WriteGoesThrough(s1, w); }
    WriteIsExact(s1, w, {} + s1.entries.Keys);
    WrittenShape(s1, w);
    var s := Written(s1, w).0;
    forall k, b ensures BelongsOnDisk(s1, w, k, b) <==> HeldOrUnspent(s, disk, w, k, b) { }
    assert HoldsHeldAndUnspent(s, disk, w);
  }

  lemma ForcedIsDirty(s: State, w: World, current: map<EntryKey, ChainAsset>)
    requires s.entries == map[] && s.pending == {}
    ensures var s1 := Refreshed(s, w, true, current);
            s1.dirty && s1.pending == {} && s1.disk == s.disk
  {
    hide AttemptAt;
  }

  lemma WriteGoesThrough(s: State, w: World)
    requires w.readable && w.swap == Swapped && (s.disk.File? ==> s.disk.version != 3)
    requires forall b :: w.spent(b).Some?
    ensures Written(s, w).1 == None
  {
    hide InOrder, Combined, OnDisk;
  }
}
