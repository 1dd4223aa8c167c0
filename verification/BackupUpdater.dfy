/** The updater as the program runs it: maps and flags changed in place, one loop at a time. */
module BackupUpdater {
  import opened Bytes
  import opened BackupState

  lemma CurrentStep(assets: seq<ChainAsset>, i: nat)
    requires i < |assets|
    ensures Current(assets[..i + 1])
            == if Confirmed(assets[i]) then Current(assets[..i])[KeyOfChainAsset(assets[i]).value := assets[i]]
               else Current(assets[..i])
  {
    hide KeyOf;
    assert assets[..i + 1][..i] == assets[..i];
  }

  lemma ByKeyStep(backups: seq<Backup>, i: nat)
    requires i < |backups|
    ensures ByKey(backups[..i + 1])
            == if KeyOfBackup(backups[i]).Some? then ByKey(backups[..i])[KeyOfBackup(backups[i]).value := backups[i]]
               else ByKey(backups[..i])
  {
    hide KeyOf;
    assert backups[..i + 1][..i] == backups[..i];
  }

  /** The confirmed assets by key; leaves without a key or an anchor block are skipped. */
  method IndexAssets(assets: seq<ChainAsset>) returns (current: map<EntryKey, ChainAsset>)
    ensures current == Current(assets)
  {
    hide KeyOf, Current;
    current := map[];
    var i := 0;
    assert assets[..0] == [];
    assert Current([]) == map[] by { NoAssets(); }
    while i < |assets|
      invariant 0 <= i <= |assets| && current == Current(assets[..i])
    {
      var a := assets[i];
      CurrentStep(assets, i);
      var key := KeyOfChainAsset(a);
      if key.Some? && a.blockHeight != 0 { current := current[key.value := a]; }
      i := i + 1;
    }
    assert assets[..i] == assets;
  }

  lemma NoAssets()
    ensures Current([]) == map[] && ByKey([]) == map[]
  {
  }

  method IndexBackups(backups: seq<Backup>) returns (m: BackupMap)
    ensures m == ByKey(backups)
  {
    hide KeyOf, ByKey;
    m := map[];
    var i := 0;
    assert backups[..0] == [];
    assert ByKey([]) == map[] by { NoAssets(); }
    while i < |backups|
      invariant 0 <= i <= |backups| && m == ByKey(backups[..i])
    {
      ByKeyStep(backups, i);
      var key := KeyOfBackup(backups[i]);
      if key.Some? { m := m[key.value := backups[i]]; }
      i := i + 1;
    }
    assert backups[..i] == backups;
  }

  /** The entries of the file that memory does say something about. */
  ghost function HeldOnDisk(s: State): BackupMap {
    map k | k in OnDisk(s.disk) && (k in s.entries || k in s.pending) :: OnDisk(s.disk)[k]
  }

  class Updater {
    var entries: Entries
    var pending: set<EntryKey>
    var dirty: bool
    var disk: Disk

    ghost function View(): State
      reads this
    {
      State(entries, pending, dirty, disk)
    }

    /** A fresh process over the file that is there. */
    constructor (disk: Disk)
      ensures View() == State(map[], {}, false, disk)
    {
      entries, pending, dirty := map[], {}, false;
      this.disk := disk;
    }

    /** Leaves that are no longer unspent leave memory and become pending removals, visited in any order. */
    method DropMissing(current: map<EntryKey, ChainAsset>)
      modifies this`entries, this`pending
      ensures entries == Present(old(entries), current)
      ensures pending == old(pending) + (old(entries).Keys - current.Keys)
    {
      var todo := entries.Keys;
      while todo != {}
        invariant todo <= old(entries).Keys
        invariant entries == map k | k in old(entries) && (k in todo || k in current) :: old(entries)[k]
        invariant pending == old(pending) + (old(entries).Keys - current.Keys - todo)
        decreases todo
      {
        var k :| k in todo;
        if k !in current {
          entries := entries - {k};
          pending := pending + {k};
        }
        todo := todo - {k};
      }
    }

    /** Builds what is new or changed, in any order. */
    method BuildEntries(w: World, current: map<EntryKey, ChainAsset>) returns (numAdded: nat, numFailed: nat)
      modifies this`entries, this`pending
      ensures entries == old(entries) + AddedEntries(w, old(entries), current)
      ensures pending == old(pending) - AddedKeys(w, old(entries), current)
      ensures numAdded == |AddedKeys(w, old(entries), current)|
      ensures numFailed == |FailedKeys(w, old(entries), current)|
    {
      hide Try, AddedKeys, FailedKeys, AddedEntries, BuildProgress, AttemptAt, Existing, Tally;
      numAdded, numFailed := 0, 0;
      ghost var start := entries;
      ghost var added, failed := AddedKeys(w, start, current), FailedKeys(w, start, current);
      var todo := current.Keys;
      BuildStart(w, start, current);
      TallyStart(added, failed, todo, pending);
      while todo != {}
        invariant todo <= current.Keys
        invariant BuildProgress(w, start, current, entries, todo)
        invariant Tally(added, failed, todo, old(pending), pending, numAdded, numFailed)
        decreases todo
      {
        var k :| k in todo;
        BuildStep(w, start, current, entries, todo, k);
        TallyStep(added, failed, todo, k, old(pending), pending, numAdded, numFailed);
        var attempt := Try(w, Existing(entries, k), current[k]);
        match attempt {
          case Kept =>
          case Failed => numFailed := numFailed + 1;
          case Added(entry) =>
            entries := entries[k := entry];
            pending := pending - {k};
            numAdded := numAdded + 1;
        }
        todo := todo - {k};
      }
      BuildDone(w, start, current, entries);
      TallyDone(added, failed, old(pending), pending, numAdded, numFailed);
    }

    /** Reconciles memory with the wallet and, if anything has changed, rewrites the file. */
    method Reconcile(w: World, force: bool) returns (failed: nat, err: Option<Error>)
      modifies this
      ensures (View(), failed, err) == Reconciled(old(View()), w, force)
    {
      hide Current, Present, AddedEntries, AddedKeys, FailedKeys, Written;
      if w.fetch == None { return 0, Some(FetchFailed); }
      var current := IndexAssets(w.fetch.value);
      DropMissing(current);
      var numAdded, numFailed := BuildEntries(w, current);
      AddedSomething(w, Present(old(entries), current), current);
      dirty := dirty || force || numAdded > 0 || pending != {};
      if !dirty { return numFailed, None; }
      err := UpdateFile(w);
      return numFailed, err;
    }

    /** Merges file and memory and swaps the result into place. */
    method UpdateFile(w: World) returns (err: Option<Error>)
      modifies this
      ensures (View(), err) == Written(old(View()), w)
    {
      hide ByKey, InOrder, Combined, Retained, HeldOnDisk, Remembered, LookupsAnswer;
      if !CanRead(disk, w) { return Some(ReadFailed); }
      var combined: BackupMap := map[];
      if disk.File? { combined := IndexBackups(disk.backups); }
      var retained := DropSpent(w, combined);
      if retained == None { return Some(LookupFailed); }
      combined := Overlay(retained.value);
      OverlayIsCombined(View(), w);
      var backups := Listed(combined);
      var file := File(VERSION_STRIPPED, backups);
      match w.swap {
        case FailedOld => return Some(SwapFailed);
        case FailedNew =>
          disk := file;
          return Some(SwapFailed);
        case Swapped =>
          disk := file;
      }
      pending, dirty := {}, false;
      return None;
    }

    /** Looks up every entry that only the file has, in any order, and drops the spent ones. */
    method DropSpent(w: World, onDisk: BackupMap) returns (r: Option<BackupMap>)
      ensures onDisk == OnDisk(disk) ==>
                && (r.Some? <==> LookupsAnswer(View(), w))
                && (r.Some? ==> r.value == Retained(View(), w) + HeldOnDisk(View()))
    {
      var combined := onDisk;
      var todo := onDisk.Keys;
      while todo != {}
        invariant todo <= onDisk.Keys
        invariant forall k :: k in onDisk && k !in todo && k !in entries && k !in pending ==> w.spent(onDisk[k]).Some?
        invariant combined == map k | k in onDisk && (k in todo || Stays(w, k, onDisk[k])) :: onDisk[k]
        decreases todo
      {
        var k :| k in todo;
        if k !in entries && k !in pending {
          var spent := w.spent(onDisk[k]);
          if spent == None {
            if onDisk == OnDisk(disk) { assert k in DiskOnly(View()); }
            return None;
          }
          if spent.value { combined := combined - {k}; }
        }
        todo := todo - {k};
      }
      return Some(combined);
    }

    predicate Stays(w: World, k: EntryKey, b: Backup)
      reads this
    {
      k in entries || k in pending || w.spent(b) == Some(false)
    }

    /** Memory over file, without the pending removals. */
    method Overlay(onDisk: BackupMap) returns (combined: BackupMap)
      ensures combined == onDisk + Remembered(entries) - pending
    {
      combined := AddEntries(onDisk);
      combined := DropPending(combined);
    }

    method AddEntries(onDisk: BackupMap) returns (combined: BackupMap)
      ensures combined == onDisk + Remembered(entries)
    {
      combined := onDisk;
      var todo := entries.Keys;
      while todo != {}
        invariant todo <= entries.Keys
        invariant combined == onDisk + (Remembered(entries) - todo)
        decreases todo
      {
        var k :| k in todo;
        combined := combined[k := entries[k].backup];
        todo := todo - {k};
      }
    }

    method DropPending(m: BackupMap) returns (combined: BackupMap)
      ensures combined == m - pending
    {
      combined := m;
      var todo := pending;
      while todo != {}
        invariant todo <= pending
        invariant combined == m - (pending - todo)
        decreases todo
      {
        var k :| k in todo;
        combined := combined - {k};
        todo := todo - {k};
      }
      assert pending - {} == pending;
    }

    /** The backups of a map in key order. */
    static method Listed(m: BackupMap) returns (backups: seq<Backup>)
      ensures backups == InOrder(m)
    {
      hide SortedKeys, Increasing, Before, InOrder;
      var keys := SortedKeys(m.Keys);
      forall i | 0 <= i < |keys| ensures keys[i] in m { assert keys[i] in keys; }
      backups := [];
      var i := 0;
      while i < |keys|
        invariant 0 <= i <= |keys| && |backups| == i
        invariant forall j :: 0 <= j < i ==> backups[j] == m[keys[j]]
      {
        backups := backups + [m[keys[i]]];
        i := i + 1;
      }
      ListedIsInOrder(m, backups);
    }
  }

  lemma ListedIsInOrder(m: BackupMap, backups: seq<Backup>)
    requires var keys := SortedKeys(m.Keys);
             |backups| == |keys| && forall j :: 0 <= j < |keys| ==> keys[j] in m && backups[j] == m[keys[j]]
    ensures backups == InOrder(m)
  {
    hide SortedKeys, Increasing, Before;
  }

  lemma BuildStart(w: World, start: Entries, current: map<EntryKey, ChainAsset>)
    ensures BuildProgress(w, start, current, start, current.Keys)
    ensures AddedKeys(w, start, current) - current.Keys == {} && FailedKeys(w, start, current) - current.Keys == {}
  {
    hide AttemptAt;
  }

  lemma BuildDone(w: World, start: Entries, current: map<EntryKey, ChainAsset>, now: Entries)
    requires BuildProgress(w, start, current, now, {})
    ensures now == start + AddedEntries(w, start, current)
  {
    hide AttemptAt;
  }

  lemma AddedSomething(w: World, entries: Entries, current: map<EntryKey, ChainAsset>)
    ensures |AddedKeys(w, entries, current)| > 0 <==> AddedEntries(w, entries, current) != map[]
    ensures AddedEntries(w, entries, current).Keys == AddedKeys(w, entries, current)
  {
    hide AttemptAt;
    var added := AddedEntries(w, entries, current);
    assert added.Keys == AddedKeys(w, entries, current);
    assert added == map[] <==> added.Keys == {};
  }

  ghost predicate BuildProgress(w: World, start: Entries, current: map<EntryKey, ChainAsset>, now: Entries,
                                todo: set<EntryKey>)
  {
    now == start + (AddedEntries(w, start, current) - todo)
  }

  lemma BuildStep(w: World, start: Entries, current: map<EntryKey, ChainAsset>, now: Entries, todo: set<EntryKey>,
                  k: EntryKey)
    requires BuildProgress(w, start, current, now, todo) && k in todo && k in current
    ensures var attempt := Try(w, Existing(now, k), current[k]);
            && (k in AddedKeys(w, start, current) <==> attempt.Added?)
            && (k in FailedKeys(w, start, current) <==> attempt.Failed?)
            && BuildProgress(w, start, current, if attempt.Added? then now[k := attempt.entry] else now, todo - {k})
  {
    hide Try;
  }

  /** The removals withdrawn and the attempts counted for the keys outside `todo`. */
  ghost predicate Tally(added: set<EntryKey>, failed: set<EntryKey>, todo: set<EntryKey>,
                        before: set<EntryKey>, pending: set<EntryKey>, numAdded: nat, numFailed: nat)
  {
    pending == before - (added - todo) && numAdded == |added - todo| && numFailed == |failed - todo|
  }

  lemma TallyStart(added: set<EntryKey>, failed: set<EntryKey>, todo: set<EntryKey>, pending: set<EntryKey>)
    requires added - todo == {} && failed - todo == {}
    ensures Tally(added, failed, todo, pending, pending, 0, 0)
  {
  }

  lemma TallyStep(added: set<EntryKey>, failed: set<EntryKey>, todo: set<EntryKey>, k: EntryKey,
                  before: set<EntryKey>, pending: set<EntryKey>, numAdded: nat, numFailed: nat)
    requires Tally(added, failed, todo, before, pending, numAdded, numFailed) && k in todo
    ensures Tally(added, failed, todo - {k}, before, if k in added then pending - {k} else pending,
                  if k in added then numAdded + 1 else numAdded, if k in failed then numFailed + 1 else numFailed)
  {
    Counted(added, todo, k);
    Counted(failed, todo, k);
  }

  lemma TallyDone(added: set<EntryKey>, failed: set<EntryKey>, before: set<EntryKey>, pending: set<EntryKey>,
                  numAdded: nat, numFailed: nat)
    requires Tally(added, failed, {}, before, pending, numAdded, numFailed)
    ensures pending == before - added && numAdded == |added| && numFailed == |failed|
  {
    assert added - {} == added && failed - {} == failed;
  }

  lemma OverlayIsCombined(s: State, w: World)
    ensures Retained(s, w) + HeldOnDisk(s) + Remembered(s.entries) - s.pending == Combined(s, w)
  {
    hide ByKey;
  }

  lemma Counted(all: set<EntryKey>, todo: set<EntryKey>, k: EntryKey)
    requires k in todo
    ensures |all - (todo - {k})| == |all - todo| + (if k in all then 1 else 0)
  {
    if k in all { assert all - (todo - {k}) == (all - todo) + {k}; } else { assert all - (todo - {k}) == all - todo; }
  }
}
