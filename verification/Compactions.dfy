/** Level-0 compaction: merge all level-0 tables into one level-1 table, publish it,
    retire its inputs. */
module Compactions {
  import opened ByteStrings
  import opened Tables
  import opened MemTables
  import opened SSTableFormat
  import opened SSTables
  import opened Manifests
  import opened SSTableManagers
  import opened Merging

  const L0_THRESHOLD := 2

  function PathsOf(es: seq<Meta>): set<Path> {
    set e | e in es :: e.path
  }

  ghost predicate DistinctPaths(es: seq<Meta>) {
    forall i, j :: 0 <= i < j < |es| ==> es[i].path != es[j].path
  }

  /** What the engine maintains about its manifest and the files behind it. */
  ghost predicate ManifestOk(files: map<Path, Bytes>, levels: Levels) {
    && levels.Keys <= {0, 1}
    && AllBounded(files, LevelOf(levels, 0)) && AllBounded(files, LevelOf(levels, 1))
    && InOrder(LevelOf(levels, 0)) && InOrder(LevelOf(levels, 1))
    && DistinctPaths(LevelOf(levels, 0)) && DistinctPaths(LevelOf(levels, 1))
    && PathsOf(LevelOf(levels, 0)) !! PathsOf(LevelOf(levels, 1))
  }

  /** A path no manifest entry uses, and a time no older than a level's entries: what a
      clock that advances between table creations gives. */
  ghost predicate FreshFor(levels: Levels, level: nat, path: Path, now: nat) {
    && path !in PathsOf(LevelOf(levels, 0)) && path !in PathsOf(LevelOf(levels, 1))
    && forall e :: e in LevelOf(levels, level) ==>
         e.createdAt < now || (e.createdAt == now && Le(e.path, path))
  }

  /** Files agree on every path of the entries, so the entries mean the same tables. */
  ghost predicate SameFiles(files: map<Path, Bytes>, files': map<Path, Bytes>, es: seq<Meta>) {
    forall e :: e in es && e.path in files ==> e.path in files' && files'[e.path] == files[e.path]
  }

  lemma SameFilesSameTables(files: map<Path, Bytes>, files': map<Path, Bytes>, es: seq<Meta>)
    requires SameFiles(files, files', es) && AllBounded(files, es)
    ensures AllBounded(files', es)
    ensures LevelTables(files', es) == LevelTables(files, es)
  {
    hide Readable, TableIn, Lt;
    forall e | e in es
      ensures FileTable(files', e.path) == FileTable(files, e.path) && Bounded(files', e)
    {
      assert Bounded(files, e);
    }
  }

  lemma BoundedInReadOrder(files: map<Path, Bytes>, levels: Levels)
    requires ManifestOk(files, levels)
    ensures AllBounded(files, ReadOrder(levels))
  {
    hide Bounded, ReadOrder, NewestFirst, InOrder, DistinctPaths;
    TwoLevels(levels);
    var l0, l1 := LevelOf(levels, 0), LevelOf(levels, 1);
    forall m | m in ReadOrder(levels) ensures Bounded(files, m) {
      SameMembers(l0, m);
      SameMembers(l1, m);
    }
  }

  lemma SameMembers(es: seq<Meta>, m: Meta)
    ensures m in NewestFirst(es) <==> m in es
  {
    assert m in multiset(NewestFirst(es)) <==> m in multiset(es);
  }

  /** Entries added at the end of a level keep the manifest in order. */
  lemma AddKeepsManifest(files: map<Path, Bytes>, levels: Levels, level: nat, m: Meta)
    requires ManifestOk(files, levels) && level <= 1
    requires FreshFor(levels, level, m.path, m.createdAt) && Bounded(files, m)
    ensures ManifestOk(files, levels[level := LevelOf(levels, level) + [m]])
  {
    hide Bounded, Lt;
    var es := LevelOf(levels, level);
    assert forall e :: e in es ==> e.path in PathsOf(es);
    forall i | 0 <= i < |es| ensures es[i].path != m.path && KeyLe(es[i], m) {
      assert es[i] in es;
    }
  }

  /** Table files appearing or changing elsewhere do not disturb the manifest. */
  lemma FilesKeepManifest(files: map<Path, Bytes>, files': map<Path, Bytes>, levels: Levels)
    requires ManifestOk(files, levels)
    requires forall p :: p in PathsOf(LevelOf(levels, 0)) + PathsOf(LevelOf(levels, 1)) && p in files ==>
               p in files' && files'[p] == files[p]
    ensures ManifestOk(files', levels)
    ensures LevelTables(files', LevelOf(levels, 0)) == LevelTables(files, LevelOf(levels, 0))
    ensures LevelTables(files', LevelOf(levels, 1)) == LevelTables(files, LevelOf(levels, 1))
  {
    hide Bounded, InOrder, DistinctPaths, LevelTables;
    assert forall e :: e in LevelOf(levels, 0) ==> e.path in PathsOf(LevelOf(levels, 0));
    assert forall e :: e in LevelOf(levels, 1) ==> e.path in PathsOf(LevelOf(levels, 1));
    SameFilesSameTables(files, files', LevelOf(levels, 0));
    SameFilesSameTables(files, files', LevelOf(levels, 1));
  }

  /* --------------------------------------------- the effect on the view */

  /** A completed compaction: the captured tables `c`, oldest first, are replaced by their
      overlay on top of level 1, below whatever was flushed meanwhile.  No reading changes. */
  lemma {:induction false} CompactionPreservesView(l1: seq<Table>, c: seq<Table>, flushed: seq<Table>)
    ensures Stack(l1) + Stack(c + flushed) == Stack(l1 + [Stack(c)]) + Stack(flushed)
  {
    StackConcat(c, flushed);
    StackSnoc(l1, Stack(c));
  }

  /** Tombstones must be kept: between an older level 1 and the tables flushed since, an
      output without them shows the same live contents if and only if no key deleted in the
      captured tables, and not flushed since, is live in level 1. */
  lemma {:induction false} DroppingTombstonesResurfaces(level1: Table, captured: Table, flushed: Table)
    ensures (forall k :: Read(level1 + Live(captured) + flushed, k) == Read(level1 + captured + flushed, k))
       <==> !exists k :: k !in flushed && Find(captured, k) == Some(TOMBSTONE) && Read(level1, k).Some?
  {
    forall k
      ensures Read(level1 + Live(captured) + flushed, k) == Read(level1 + captured + flushed, k)
         <==> !(k !in flushed && Find(captured, k) == Some(TOMBSTONE) && Read(level1, k).Some?)
    {
    }
  }

  /** The entry describes the table `t` at its path: its least and greatest key, the number
      of its entries and the size of its file. */
  ghost predicate Describes(files: map<Path, Bytes>, m: Meta, t: Table) {
    && m.path in files && m.sizeBytes == |files[m.path]|
    && FileTable(files, m.path) == t && m.entryCount == |t|
    && m.minKey in t && m.maxKey in t && forall k :: k in t ==> Le(m.minKey, k) && Le(k, m.maxKey)
  }

  /** The overlay of level 0: what a compaction of it writes. */
  function Merged(files: map<Path, Bytes>, levels: Levels): Table {
    Stack(LevelTables(files, LevelOf(levels, 0)))
  }

  /** There is something on level 0, and its overlay fits the fields of a table file. */
  ghost predicate CanCompact(files: map<Path, Bytes>, levels: Levels) {
    LevelOf(levels, 0) != [] && Writable(Merged(files, levels))
  }

  /* ------------------------------------------------------------ the class */

  class CompactionManager {
    var compactionInProgress: bool

    constructor ()
      ensures !compactionInProgress
    {
      compactionInProgress := false;
    }

    /** True hands the caller the only licence to compact. */
    method MayStart(manifest: Manifest) returns (started: bool)
      modifies this
      ensures started <==> !old(compactionInProgress) && |LevelOf(manifest.levels, 0)| > 2
      ensures compactionInProgress <==> old(compactionInProgress) || started
    {
      if compactionInProgress {
        return false;
      }
      if |LevelOf(manifest.levels, 0)| <= L0_THRESHOLD {
        return false;
      }
      compactionInProgress := true;
      return true;
    }

    /** The sorted contents of the overlay of the listed tables, newest first. */
    static method MergeSstables(disk: Disk, metas: seq<Meta>) returns (items: seq<Item>)
      requires AllBounded(disk.files, metas)
      ensures items == SortedItems(LevelView(disk.files, metas))
    {
      hide Bounded, HoldsTable, SortedItems, LevelView, TableAt, FileTable, LoadedIndex, NewestWins;
      var lists: seq<seq<Item>> := [];
      var i := 0;
      while i < |metas|
        invariant 0 <= i <= |metas| == |lists| + (|metas| - i)
        invariant forall j :: 0 <= j < i ==> lists[j] == SortedItems(FileTable(disk.files, metas[j].path))
      {
        assert metas[i] in metas;
        BoundedHolds(disk.files, metas[i]);
        var sstable := new SSTable(disk, metas[i].path, metas[i].level);
        var list := sstable.IterItems();
        lists := lists + [list];
        i := i + 1;
      }
      forall j | 0 <= j < |lists| ensures ItemsSorted(lists[j]) {
        SortedItemsSorted(FileTable(disk.files, metas[j].path));
      }
      items := Merge(lists);
      SortedItemsUnique(items);
      MergedIsLevelView(disk.files, metas, lists);
    }

    /** Writes a table to a new file and builds its manifest entry; None: it cannot be
        written, or there is nothing in it. */
    static method WriteTable(manager: SSTableManager, items: seq<Item>, path: Path, level: nat, now: nat, ghost t: Table)
      returns (metadata: Option<Meta>)
      requires items == SortedItems(t)
      modifies manager.disk
      ensures metadata.Some? <==> Writable(t)
      ensures metadata.Some? ==>
                && manager.disk.files == old(manager.disk.files)[path := FileBytes(items)]
                && metadata.value.path == path && metadata.value.level == level && metadata.value.createdAt == now
                && Describes(manager.disk.files, metadata.value, t) && Bounded(manager.disk.files, metadata.value)
      ensures metadata.None? ==> manager.disk.files - {path} == old(manager.disk.files) - {path}
    {
      hide Bounded, SortedItems, FileBytes, ParseIndex, FileTable, TableFits, HoldsTable, SSTable.IndexCurrent,
           LoadedIndex, Describes, Le, IndexOf, IndexEntries, ItemsSorted;
      var sstable := new SSTable(manager.disk, path, level);
      SortedItemsSorted(t);
      var written := sstable.Write(items);
      if !written {
        return None;
      }
      WrittenTable(items, manager.disk.files, path, t);
      EmptyIndexIff(sstable.index, manager.disk.files, path, t);
      metadata := manager.BuildMetadata(sstable, level, now);
      if metadata.Some? {
        BuiltDescribes(manager.disk.files, metadata.value, sstable.index, t);
      }
    }

    /** Writes the overlay of level 0 to a new file and builds its manifest entry. */
    static method WriteMerged(manifest: Manifest, disk: Disk, newPath: Path, now: nat) returns (metadata: Option<Meta>)
      requires ManifestOk(disk.files, manifest.levels)
      modifies disk
      ensures metadata.Some? <==> old(CanCompact(disk.files, manifest.levels))
      ensures metadata.Some? ==>
                && disk.files == old(disk.files[newPath := FileBytes(SortedItems(Merged(disk.files, manifest.levels)))])
                && metadata.value.path == newPath && metadata.value.level == 1 && metadata.value.createdAt == now
                && Describes(disk.files, metadata.value, old(Merged(disk.files, manifest.levels)))
                && Bounded(disk.files, metadata.value)
      ensures metadata.None? ==> disk.files - {newPath} == old(disk.files) - {newPath}
    {
      hide Bounded, KeyLe, NewestFirst, SortedItems, FileBytes, FileTable, InOrder, DistinctPaths, Stack, TableFits,
           LevelTables, Describes, Le, LevelView;
      ghost var files0 := disk.files;
      ghost var l0 := LevelOf(manifest.levels, 0);
      var order := NewestFirst(LevelOf(manifest.levels, 0));
      assert order == [] <==> l0 == [];
      if order == [] {
        return None;
      }
      forall m | m in order ensures Bounded(files0, m) {
        SameMembers(l0, m);
      }
      var items := MergeSstables(disk, order);
      LevelIsStack(files0, l0);
      var manager := new SSTableManager(disk, manifest);
      metadata := WriteTable(manager, items, newPath, 1, now, Merged(files0, manifest.levels));
    }

    /** On success level 0 is empty, level 1 has the overlay of its tables on top, and the
        level view is what it was; the merged files are gone, the new one is there, and
        every other file is what it was.  On failure the levels, and all files but one at
        the new path, are what they were. */
    method Compact(manifest: Manifest, disk: Disk, newPath: Path, now: nat) returns (ok: bool)
      requires ManifestOk(disk.files, manifest.levels)
      requires FreshFor(manifest.levels, 1, newPath, now)
      modifies this, manifest, disk
      ensures !compactionInProgress
      ensures ManifestOk(disk.files, manifest.levels)
      ensures old(manifest.Synced()) ==> manifest.Synced()
      ensures ok <==> old(CanCompact(disk.files, manifest.levels))
      ensures !ok ==> manifest.levels == old(manifest.levels) && disk.files - {newPath} == old(disk.files) - {newPath}
      ensures ok ==> disk.files.Keys == old(disk.files.Keys) - PathsOf(old(LevelOf(manifest.levels, 0))) + {newPath}
      ensures ok ==> disk.files
                     == old(disk.files[newPath := FileBytes(SortedItems(Merged(disk.files, manifest.levels)))]
                            - PathsOf(LevelOf(manifest.levels, 0)))
      ensures ok ==> exists m: Meta :: m.path == newPath && m.level == 1 && m.createdAt == now
                       && Describes(disk.files, m, old(Merged(disk.files, manifest.levels)))
                       && LevelOf(manifest.levels, 1) == old(LevelOf(manifest.levels, 1)) + [m]
      ensures LevelTables(disk.files, LevelOf(manifest.levels, 0))
           == if ok then [] else old(LevelTables(disk.files, LevelOf(manifest.levels, 0)))
      ensures LevelTables(disk.files, LevelOf(manifest.levels, 1))
           == old(LevelTables(disk.files, LevelOf(manifest.levels, 1)))
                + if ok then [old(Merged(disk.files, manifest.levels))] else []
    {
      hide ManifestOk, FreshFor, KeyLe, NewestFirst, FileTable, Stack, LevelTables, Describes, CanCompact, FileBytes,
           SortedItems, Merged, Bounded, PathsOf;
      compactionInProgress := true;
      ghost var files0, levels0 := disk.files, manifest.levels;
      var order := NewestFirst(LevelOf(manifest.levels, 0));
      var metadata := WriteMerged(manifest, disk, newPath, now);
      FreshPath(levels0, 1, newPath, now);
      WrittenElsewhere(files0, disk.files, levels0, newPath);
      if metadata.None? {
        compactionInProgress := false;
        return false;
      }
      OnlyTwoLevels(files0, levels0);
      manifest.AddSstable(1, metadata.value);
      SameMembersAll(LevelOf(levels0, 0));
      RetireInputs(manifest, order);
      RemoveOldFiles(disk, order);
      Compacted(files0, levels0, metadata.value, FileBytes(SortedItems(Merged(files0, levels0))), manifest.levels);
      compactionInProgress := false;
      return true;
    }

    /** Removes the merged entries from level 0 one at a time, saving after each. */
    static method RetireInputs(manifest: Manifest, order: seq<Meta>)
      requires manifest.levels.Keys <= {0, 1}
      requires forall e :: e in LevelOf(manifest.levels, 0) ==> e in order
      requires manifest.Synced()
      modifies manifest
      ensures manifest.Synced()
      ensures manifest.levels.Keys <= {0, 1}
      ensures LevelOf(manifest.levels, 0) == []
      ensures LevelOf(manifest.levels, 1) == old(LevelOf(manifest.levels, 1))
    {
      var i := 0;
      while i < |order|
        invariant 0 <= i <= |order|
        invariant manifest.levels.Keys <= {0, 1} && manifest.Synced()
        invariant LevelOf(manifest.levels, 1) == old(LevelOf(manifest.levels, 1))
        invariant forall e :: e in LevelOf(manifest.levels, 0) ==> e in order && e.path !in PathsOf(order[..i])
      {
        manifest.RemoveSstable(0, order[i].path);
        assert order[..i + 1] == order[..i] + [order[i]];
        i := i + 1;
      }
      assert order[..i] == order;
      if LevelOf(manifest.levels, 0) != [] {
        HasMember(LevelOf(manifest.levels, 0));
      }
    }

    static method RemoveOldFiles(disk: Disk, metas: seq<Meta>)
      modifies disk
      ensures disk.files == old(disk.files) - PathsOf(metas)
    {
      var i := 0;
      while i < |metas|
        invariant 0 <= i <= |metas|
        invariant disk.files == old(disk.files) - PathsOf(metas[..i])
      {
        disk.files := disk.files - {metas[i].path};
        assert metas[..i + 1] == metas[..i] + [metas[i]];
        i := i + 1;
      }
      assert metas[..i] == metas;
    }
  }

  lemma SameMembersAll(es: seq<Meta>)
    ensures forall m :: m in NewestFirst(es) <==> m in es
    ensures PathsOf(NewestFirst(es)) == PathsOf(es)
  {
    hide NewestFirst;
    forall m ensures m in NewestFirst(es) <==> m in es {
      SameMembers(es, m);
    }
  }

  lemma SortedItemsSorted(t: Table)
    ensures ItemsSorted(SortedItems(t))
  {
  }

  lemma HasMember(es: seq<Meta>)
    requires es != []
    ensures exists e :: e in es
  {
    assert es[0] in es;
  }

  lemma BoundedHolds(files: map<Path, Bytes>, m: Meta)
    requires Bounded(files, m)
    ensures HoldsTable(files, m.path) && FileTable(files, m.path) == TableAt(files, m.path)
  {
  }

  lemma {:induction false} MergedIsLevelView(files: map<Path, Bytes>, metas: seq<Meta>, lists: seq<seq<Item>>)
    requires |lists| == |metas|
    requires forall i :: 0 <= i < |lists| ==> lists[i] == SortedItems(FileTable(files, metas[i].path))
    ensures NewestWins(lists) == LevelView(files, metas)
    decreases |metas|
  {
    hide SortedItems, FileTable;
    if metas != [] {
      MergedIsLevelView(files, metas[1..], lists[1..]);
      SortedItemsTable(FileTable(files, metas[0].path));
    }
  }

  lemma WrittenTable(items: seq<Item>, files: map<Path, Bytes>, path: Path, t: Table)
    requires items == SortedItems(t) && TableFits(items)
    requires path in files && files[path] == FileBytes(items)
    ensures HoldsTable(files, path) && FileTable(files, path) == t
  {
    hide FileBytes, Readable, TableIn, TableFits, SortedItems, TableOf;
    FileRoundTrip(items);
    SortedItemsTable(t);
  }

  /** Writing or removing a file no entry is at leaves what the entries mean. */
  lemma WrittenElsewhere(files: map<Path, Bytes>, files': map<Path, Bytes>, levels: Levels, path: Path)
    requires ManifestOk(files, levels)
    requires path !in PathsOf(LevelOf(levels, 0)) && path !in PathsOf(LevelOf(levels, 1))
    requires files' - {path} == files - {path}
    ensures ManifestOk(files', levels)
    ensures LevelTables(files', LevelOf(levels, 0)) == LevelTables(files, LevelOf(levels, 0))
    ensures LevelTables(files', LevelOf(levels, 1)) == LevelTables(files, LevelOf(levels, 1))
  {
    hide ManifestOk, LevelTables;
    forall p | p != path && p in files ensures p in files' && files'[p] == files[p] {
      assert p in files - {path} && (files - {path})[p] == (files' - {path})[p];
    }
    FilesKeepManifest(files, files', levels);
  }

  lemma FreshPath(levels: Levels, level: nat, path: Path, now: nat)
    requires FreshFor(levels, level, path, now)
    ensures path !in PathsOf(LevelOf(levels, 0)) && path !in PathsOf(LevelOf(levels, 1))
  {
  }

  lemma OnlyTwoLevels(files: map<Path, Bytes>, levels: Levels)
    requires ManifestOk(files, levels)
    ensures levels.Keys <= {0, 1}
  {
    hide AllBounded, InOrder, DistinctPaths;
  }

  /** What the steps of a compaction add up to: the new file written, its entry added to
      level 1, level 0 emptied, its files unlinked. */
  lemma Compacted(files: map<Path, Bytes>, levels: Levels, m: Meta, file: Bytes, levels': Levels)
    requires ManifestOk(files, levels) && FreshFor(levels, 1, m.path, m.createdAt)
    requires var written := files[m.path := file];
             Bounded(written, m) && Describes(written, m, Merged(files, levels))
    requires levels'.Keys <= {0, 1} && LevelOf(levels', 0) == [] && LevelOf(levels', 1) == LevelOf(levels, 1) + [m]
    ensures var files' := files[m.path := file] - PathsOf(LevelOf(levels, 0));
            && files'.Keys == files.Keys - PathsOf(LevelOf(levels, 0)) + {m.path}
            && ManifestOk(files', levels')
            && Describes(files', m, Merged(files, levels))
            && LevelTables(files', LevelOf(levels', 0)) == []
            && LevelTables(files', LevelOf(levels', 1)) == LevelTables(files, LevelOf(levels, 1)) + [Merged(files, levels)]
  {
    hide ManifestOk, Bounded, KeyLe, FileTable, Stack, LevelTables, Describes, Merged, FreshFor, Le;
    FreshPath(levels, 1, m.path, m.createdAt);
    var written, levels1 := files[m.path := file], levels[1 := LevelOf(levels, 1) + [m]];
    assert written - {m.path} == files - {m.path};
    WrittenElsewhere(files, written, levels, m.path);
    AddKeepsManifest(written, levels, 1, m);
    Retired(written, levels1, levels');
    TablesSnoc(written, LevelOf(levels, 1), m);
    TablesOfNone(written - PathsOf(LevelOf(levels, 0)));
    StillDescribes(written, PathsOf(LevelOf(levels, 0)), m, Merged(files, levels));
    assert FileTable(written, m.path) == Merged(files, levels) by { DescribesTable(written, m, Merged(files, levels)); }
  }

  lemma DescribesTable(files: map<Path, Bytes>, m: Meta, t: Table)
    requires Describes(files, m, t)
    ensures m.path in files && FileTable(files, m.path) == t
  {
    hide FileTable, Le;
  }

  lemma BuiltDescribes(files: map<Path, Bytes>, m: Meta, index: Index, t: Table)
    requires HoldsTable(files, m.path) && FileTable(files, m.path) == t && Bounded(files, m)
    requires index == LoadedIndex(files, m.path) && m.entryCount == |index| && m.minKey in index && m.maxKey in index
    requires m.sizeBytes == |files[m.path]|
    ensures Describes(files, m, t)
  {
    hide ParseIndex, ReadValue, Le, LookupIn;
    TableAtIndex(files, m.path);
    assert t.Keys == index.Keys;
    assert |t.Keys| == |t| && |index.Keys| == |index|;
  }

  /** Unlinking other tables leaves what an entry describes. */
  lemma StillDescribes(files: map<Path, Bytes>, gone: set<Path>, m: Meta, t: Table)
    requires Describes(files, m, t) && m.path !in gone
    ensures Describes(files - gone, m, t)
  {
    hide Readable, TableIn, Le;
  }

  /** The loaded index is empty exactly for an empty table. */
  lemma EmptyIndexIff(index: Index, files: map<Path, Bytes>, path: Path, t: Table)
    requires HoldsTable(files, path) && FileTable(files, path) == t
    requires index == LoadedIndex(files, path)
    ensures index == map[] <==> t == map[]
  {
    hide ParseIndex, ReadValue;
    TableAtIndex(files, path);
    if t != map[] {
      var k :| k in t;
      assert k in index;
    }
    if index != map[] {
      var k :| k in index;
      assert k in t;
    }
  }

  /** Dropping level 0 and its files leaves level 1 as it was. */
  lemma Retired(files: map<Path, Bytes>, levels: Levels, levels': Levels)
    requires ManifestOk(files, levels)
    requires levels'.Keys <= {0, 1} && LevelOf(levels', 0) == [] && LevelOf(levels', 1) == LevelOf(levels, 1)
    ensures ManifestOk(files - PathsOf(LevelOf(levels, 0)), levels')
    ensures LevelTables(files - PathsOf(LevelOf(levels, 0)), LevelOf(levels, 1)) == LevelTables(files, LevelOf(levels, 1))
  {
    hide Bounded, LevelTables, KeyLe;
    var files' := files - PathsOf(LevelOf(levels, 0));
    assert forall e :: e in LevelOf(levels, 1) ==> e.path in PathsOf(LevelOf(levels, 1));
    SameFilesSameTables(files, files', LevelOf(levels, 1));
  }
}
