/** The storage engine: memtable, log, manifest and table files behind one interface. */
module Engines {
  import opened ByteStrings
  import opened Tables
  import opened MemTables
  import opened WalCodec
  import opened WriteAheadLog
  import opened SSTableFormat
  import opened SSTables
  import opened Manifests
  import opened SSTableManagers
  import opened Compactions
  import opened EngineSteps

  /** Replaying the log into a memtable: unknown operations only move the offset. */
  function ReplayInto(m: Mem, entries: seq<Entry>): Mem {
    if entries == [] then m
    else
      var before, e := ReplayInto(m, entries[..|entries| - 1]), entries[|entries| - 1];
      var stored := if e.rec.op == PUT then PutMem(before, e.rec.key, e.rec.value)
                    else if e.rec.op == DELETE then PutMem(before, e.rec.key, TOMBSTONE)
                    else before;
      RaiseOffset(stored, e.offset)
  }

  /** A reading of the clock taken while a table is created. */
  datatype Tick = Tick(path: Path, now: nat)

  datatype GetResult = Value(value: Bytes) | KeyMissing | Raised

  /** What opening makes of the stored bytes; None: the replay raised. */
  function Reopen(crc: Checksum, c: Core): Option<Core> {
    var replayed := ReplayFrom(crc, c.wal.log, 0);
    if replayed.outcome == WalCodec.Failed then None
    else Some(Core(ReplayInto(Mem(c.mem.maxSize, map[], [], 0, 0), replayed.entries), Wal(c.wal.log, Closed), c.l0, c.l1))
  }

  class Engine {
    const memtable: MemTable
    const wal: WAL
    const manifest: Manifest
    const disk: Disk
    const manager: SSTableManager
    const compaction: CompactionManager

    ghost predicate Valid()
      reads memtable, wal, manifest, disk
    {
      && memtable.Valid()
      && manager.disk == disk && manager.manifest == manifest
      && ManifestOk(disk.files, manifest.levels) && manifest.Synced()
    }

    ghost function Value(): Core
      reads memtable, wal, manifest, disk
    {
      Core(memtable.Value(), wal.Value(),
           LevelTables(disk.files, LevelOf(manifest.levels, 0)),
           LevelTables(disk.files, LevelOf(manifest.levels, 1)))
    }

    /** Everything but replaying the log: empty memory over the stored files. */
    constructor (crc: Checksum, maxSize: int, log: Bytes, saved: Option<Saved>, files: map<Path, Bytes>)
      requires saved.Some? ==> ManifestOk(files, saved.value.levels)
      ensures Valid()
      ensures fresh(memtable) && fresh(wal) && fresh(manifest) && fresh(disk) && fresh(compaction)
      ensures wal.crc == crc && disk.files == files && manifest.file == saved
      ensures memtable.Value() == Mem(maxSize, map[], [], 0, 0)
      ensures wal.Value() == Wal(log, Closed)
      ensures !compaction.compactionInProgress
      ensures manifest.levels == if saved.Some? then saved.value.levels else map[]
    {
      hide Bounded, KeyLe;
      memtable := new MemTable(maxSize);
      var w := new WAL(crc, log);
      wal := w;
      var d := new Disk(files);
      disk := d;
      var m := new Manifest(saved);
      manifest := m;
      manager := new SSTableManager(d, m);
      compaction := new CompactionManager();
      new;
      manifest.Load();
    }

    /** False: the replay raised, and the engine does not open. */
    method ReplayWal() returns (ok: bool)
      requires Valid()
      modifies memtable
      ensures Valid()
      ensures ok <==> ReplayFrom(wal.crc, wal.log, 0).outcome != WalCodec.Failed
      ensures memtable.Value() == ReplayInto(old(memtable.Value()), ReplayFrom(wal.crc, wal.log, 0).entries)
    {
      hide ManifestOk, ReplayFrom, SizeExact, PutMem;
      var replayed := wal.Replay();
      var es := replayed.entries;
      var i := 0;
      while i < |es|
        invariant 0 <= i <= |es|
        invariant memtable.Valid()
        invariant memtable.Value() == ReplayInto(old(memtable.Value()), es[..i])
      {
        var e := es[i];
        if e.rec.op == PUT {
          memtable.PutUnlocked(e.rec.key, e.rec.value);
        } else if e.rec.op == DELETE {
          memtable.Delete(e.rec.key);
        }
        memtable.SetMaxWalOffset(e.offset);
        assert es[..i + 1][..i] == es[..i];
        i := i + 1;
      }
      assert es[..i] == es;
      return replayed.outcome != WalCodec.Failed;
    }

    /** Append, then store, raise the offset and rotate under one write lock.  `spawn`
        says that a flush is to be started. */
    method Put(key: Bytes, value: Bytes) returns (ok: bool, spawn: bool)
      requires Valid()
      modifies memtable, wal
      ensures Valid()
      ensures ok <==> 13 + |key| + |value| < 0x1_0000_0000
      ensures Value() == PutCore(wal.crc, old(Value()), key, value)
      ensures spawn <==> |memtable.frozenQueue| > old(|memtable.frozenQueue|)
      ensures spawn <==> ok && ValueBytes(old(memtable.data)[key := value]) >= memtable.maxSize
    {
      hide ManifestOk, Fits, Record, View, LevelTables;
      ValueBytesPut(memtable.data, key, value);
      FitsIff(Rec(PUT, key, value));
      var appended := wal.Append(PUT, key, value);
      if !appended.Appended? {
        return false, false;
      }
      memtable.PutUnlocked(key, value);
      memtable.SetMaxWalOffset(appended.offset);
      var shouldRotate := memtable.currentSize >= memtable.maxSize;
      if shouldRotate {
        memtable.RotateUnlocked();
      }
      return true, shouldRotate;
    }

    method Delete(key: Bytes) returns (ok: bool)
      requires Valid()
      modifies memtable, wal
      ensures Valid()
      ensures ok <==> 13 + |key| < 0x1_0000_0000
      ensures Value() == DeleteCore(wal.crc, old(Value()), key)
      ensures memtable.frozenQueue == old(memtable.frozenQueue)
    {
      hide ManifestOk, Fits, Record, View, LevelTables, SizeExact;
      FitsIff(Rec(DELETE, key, []));
      var appended := wal.Append(DELETE, key, []);
      if !appended.Appended? {
        return false;
      }
      memtable.Delete(key);
      memtable.SetMaxWalOffset(appended.offset);
      return true;
    }

    /** Active table, frozen buffers newest first, then the levels; a tombstone found
        anywhere ends the search, and any other value is returned as it is. */
    method Get(key: Bytes) returns (r: GetResult)
      requires Valid()
      ensures r == match Read(Contents(Value()), key) case Some(v) => GetResult.Value(v) case None => KeyMissing
      ensures r == if key !in Contents(Value())
                     || Contents(Value())[key] == [95, 95, 84, 79, 77, 66, 83, 84, 79, 78, 69, 95, 95] then KeyMissing
                   else GetResult.Value(Contents(Value())[key])
    {
      hide View, ReadOrder, LevelView, LevelTables, ManifestOk, Stack, AllBounded;
      BoundedInReadOrder(disk.files, manifest.levels);
      ManifestIsLevels(disk.files, manifest.levels);
      var found := memtable.Get(key);
      if found.None? {
        var looked := manager.Get(key);
        match looked
        case Failed => return Raised;
        case Absent => return KeyMissing;
        case Found(v) => found := Some(v);
      }
      if found.value == TOMBSTONE {
        return KeyMissing;
      }
      return GetResult.Value(found.value);
    }

    /** The size estimate of a batch, read key by key from the memtable. */
    method EstimateBatch(keys: seq<Bytes>, values: seq<Bytes>) returns (size: int)
      requires |keys| == |values|
      ensures size == Estimate(View(memtable.Value()), keys, values)
    {
      hide View;
      size := 0;
      var i := 0;
      while i < |keys|
        invariant 0 <= i <= |keys|
        invariant size == Estimate(View(memtable.Value()), keys[..i], values[..i])
      {
        var prev := memtable.Get(keys[i]);
        assert keys[..i + 1][..i] == keys[..i] && values[..i + 1][..i] == values[..i];
        if prev.Some? && prev.value != [] {
          size := size + |values[i]| + ENTRY_OVERHEAD - |prev.value|;
        } else {
          size := size + |values[i]| + ENTRY_OVERHEAD + |keys[i]|;
        }
        i := i + 1;
      }
      assert keys[..i] == keys && values[..i] == values;
    }

    method BatchPut(keys: seq<Bytes>, values: seq<Bytes>) returns (result: BatchResult, spawn: bool)
      requires Valid()
      modifies memtable, wal
      ensures Valid()
      ensures result == BatchOutcome(old(Value()), keys, values)
      ensures result.LengthsDiffer? <==> |keys| != |values|
      ensures result.TooLarge? <==>
                |keys| == |values| && Estimate(View(old(memtable.Value())), keys, values) > memtable.maxSize
      ensures result.Accepted? <==>
                && |keys| == |values| && Estimate(View(old(memtable.Value())), keys, values) <= memtable.maxSize
                && forall i :: 0 <= i < |keys| ==> 13 + |keys[i]| + |values[i]| < 0x1_0000_0000
      ensures Value() == BatchCore(wal.crc, old(Value()), keys, values)
      ensures spawn <==> |memtable.frozenQueue| > old(|memtable.frozenQueue|)
    {
      hide ManifestOk, Fits, LogBytes, View, LevelTables, ValueBytes, Estimate, PutMem;
      if |keys| != |values| {
        return LengthsDiffer, false;
      }
      AllFitIff(keys, values);
      var inputSize := EstimateBatch(keys, values);
      if inputSize > memtable.maxSize {
        return TooLarge, false;
      }
      var appended := wal.AppendBatch(PUT, keys, values);
      if !appended.Appended? {
        return RecordRejected, false;
      }
      assert AllFit(BatchRecs(PUT, keys, values));
      ghost var c := old(Value());
      ghost var recs := BatchRecs(PUT, keys, values);
      ghost var end := Opened(c.wal).handle.pos;
      assert keys != [] ==> appended.offset == end + |LogBytes(wal.crc, recs[..|recs| - 1])|;
      var shouldRotate := memtable.BatchWouldExceed(inputSize);
      if shouldRotate {
        memtable.RotateUnlocked();
      }
      PutAllView(memtable.Value(), keys, values);
      StoreBatch(keys, values);
      memtable.maxWalOffset := appended.offset;
      return Accepted, shouldRotate;
    }

    method StoreBatch(keys: seq<Bytes>, values: seq<Bytes>)
      requires |keys| == |values| && memtable.Valid()
      modifies memtable
      ensures memtable.Valid()
      ensures memtable.Value() == PutAll(old(memtable.Value()), keys, values)
    {
      hide SizeExact, PutMem;
      var i := 0;
      while i < |keys|
        invariant 0 <= i <= |keys|
        invariant memtable.Valid()
        invariant memtable.Value() == PutAll(old(memtable.Value()), keys[..i], values[..i])
      {
        memtable.PutUnlocked(keys[i], values[i]);
        assert keys[..i + 1][..i] == keys[..i] && values[..i + 1][..i] == values[..i];
        i := i + 1;
      }
      assert keys[..i] == keys && values[..i] == values;
    }

    /** Writes a buffer to a new level-0 file and builds its manifest entry. */
    method WriteBuffer(frozen: Table, tick: Tick) returns (metadata: Option<Meta>)
      requires manager.disk == disk && frozen != map[]
      modifies disk
      ensures metadata.Some? <==> Writable(frozen)
      ensures metadata.Some? ==>
                && disk.files == old(disk.files)[tick.path := FileBytes(SortedItems(frozen))]
                && metadata.value.path == tick.path && metadata.value.level == 0 && metadata.value.createdAt == tick.now
                && Describes(disk.files, metadata.value, frozen) && Bounded(disk.files, metadata.value)
      ensures disk.files - {tick.path} == old(disk.files) - {tick.path}
    {
      hide SortedItems, FileBytes, Describes, Bounded, Writable;
      var items := SortedItems(frozen);
      OtherFiles(disk.files, tick.path, FileBytes(items), {});
      metadata := CompactionManager.WriteTable(manager, items, tick.path, 0, tick.now, frozen);
    }

    /** Write the oldest buffer, publish it, drop it, cut the log.  `compact` says that a
        compaction is to be started: the caller has the licence, and no other is given out
        until it is returned.  With a path and time of its own, the new table is the newest
        of level 0 and all others are what they were. */
    method Flush(tick: Tick) returns (flushed: bool, compact: bool)
      requires Valid()
      modifies memtable, wal, manifest, disk, compaction
      ensures memtable.Valid() && manifest.Synced()
      ensures memtable.Value() == old(FlushCore(Value())).mem && wal.Value() == old(FlushCore(Value())).wal
      ensures flushed <==> old(memtable.frozenQueue != [] && Writable(memtable.frozenQueue[0].data))
      ensures flushed ==> exists m: Meta :: m.path == tick.path && m.level == 0 && m.createdAt == tick.now
                            && Bounded(disk.files, m) && Describes(disk.files, m, old(memtable.frozenQueue[0].data))
                            && manifest.levels == old(manifest.levels)[0 := LevelOf(old(manifest.levels), 0) + [m]]
      ensures flushed ==> disk.files == old(disk.files)[tick.path := FileBytes(SortedItems(old(memtable.frozenQueue[0].data)))]
      ensures !flushed ==> manifest.levels == old(manifest.levels) && disk.files - {tick.path} == old(disk.files) - {tick.path}
      ensures FreshFor(old(manifest.levels), 0, tick.path, tick.now) ==> Valid() && Value() == FlushCore(old(Value()))
      ensures compact <==> flushed && !old(compaction.compactionInProgress) && |LevelOf(manifest.levels, 0)| > 2
      ensures compaction.compactionInProgress <==> old(compaction.compactionInProgress) || compact
    {
      hide ManifestOk, Bounded, LevelTables, SortedItems, FileTable, SizeExact, FreshFor, Truncate,
           Stack, View, FileBytes, Describes, Writable;
      ghost var files0, levels0 := disk.files, manifest.levels;
      var frozen := memtable.GetFrozenItems();
      EmptyStays();
      if frozen == map[] {
        return false, false;
      }
      var offset := memtable.GetMaxWalOffsetFrozen();
      var metadata := WriteBuffer(frozen, tick);
      if FreshFor(levels0, 0, tick.path, tick.now) {
        BufferWritten(files0, disk.files, levels0, tick, metadata, frozen);
      }
      if metadata.None? {
        return false, false;
      }
      manifest.AddSstable(0, metadata.value);
      manifest.Save();
      memtable.ClearFrozen();
      wal.TruncateUpto(offset);
      compact := compaction.MayStart(manifest);
      return true, compact;
    }

    /** As many turns of the loop as there are clock readings, or until the queue is empty:
        `EngineSteps.FlushAllTerminatesIff` says when it gets there.  `starts` counts the
        compactions the turns are to start, with none running meanwhile: one at most, and
        exactly when none was under way and some turn left more than two tables. */
    method FlushAll(ticks: seq<Tick>) returns (starts: nat)
      requires Valid()
      requires FreshTicks(manifest.levels, ticks)
      modifies memtable, wal, manifest, disk, compaction
      ensures Valid()
      ensures Value() == FlushTimes(old(Value()), |ticks|)
      ensures Contents(Value()) == old(Contents(Value()))
      ensures |ticks| >= old(|memtable.frozenQueue|) && old(forall f :: f in memtable.frozenQueue ==> Writable(f.data)) ==>
                memtable.frozenQueue == [] && Value().l0 == old(Value()).l0 + Buffers(old(memtable.frozenQueue))
      ensures starts <= 1
      ensures starts == 1 <==> !old(compaction.compactionInProgress) && |Value().l0| > old(|Value().l0|) && |Value().l0| > 2
      ensures compaction.compactionInProgress <==> old(compaction.compactionInProgress) || starts == 1
    {
      hide ManifestOk, LevelTables, Writable, View, EngineSteps.Levels, FreshFor, Bounded, FileTable, Truncate, Describes,
           SortedItems, FileBytes;
      ghost var c0 := Value();
      ghost var n0 := |LevelOf(manifest.levels, 0)|;
      starts := 0;
      var i := 0;
      while memtable.frozenQueue != [] && i < |ticks|
        invariant 0 <= i <= |ticks|
        invariant Valid()
        invariant Value() == FlushTimes(c0, i)
        invariant Contents(Value()) == Contents(c0)
        invariant FreshTicks(manifest.levels, ticks[i..])
        invariant starts <= 1
        invariant n0 <= |LevelOf(manifest.levels, 0)|
        invariant starts == 1 <==> !old(compaction.compactionInProgress)
                                   && |LevelOf(manifest.levels, 0)| > n0 && |LevelOf(manifest.levels, 0)| > 2
        invariant compaction.compactionInProgress <==> old(compaction.compactionInProgress) || starts == 1
      {
        ghost var before := manifest.levels;
        FlushPreservesContents(Value());
        assert FreshFor(before, 0, ticks[i..][0].path, ticks[i..][0].now);
        var flushed, compact := Flush(ticks[i]);
        if compact {
          starts := starts + 1;
        }
        FreshLater(before, ticks[i..]);
        if flushed {
          ghost var m: Meta :| m.path == ticks[i].path && m.createdAt == ticks[i].now
                               && manifest.levels == before[0 := LevelOf(before, 0) + [m]];
          FreshAfter(before, manifest.levels, ticks[i..], m);
        }
        assert ticks[i..][1..] == ticks[i + 1..];
        i := i + 1;
      }
      FlushTimesIdle(c0, i, |ticks|);
      ghost var q := c0.mem.frozen;
      if |ticks| >= |q| && forall f :: f in q ==> Writable(f.data) {
        FlushTimesDrains(c0, |q|);
        FlushTimesIdle(c0, |q|, |ticks|);
        assert q[..|q|] == q;
      }
    }

    /** A compaction thread's work, with no flush meanwhile. */
    method RunCompaction(newPath: Path, now: nat) returns (ok: bool)
      requires Valid() && FreshFor(manifest.levels, 1, newPath, now)
      modifies compaction, manifest, disk
      ensures Valid() && !compaction.compactionInProgress
      ensures ok <==> old(Value().l0 != [] && Writable(Stack(Value().l0)))
      ensures Value() == CompactCore(old(Value()))
      ensures disk.files - {newPath}
           == old(disk.files) - {newPath} - (if ok then PathsOf(old(LevelOf(manifest.levels, 0))) else {})
      ensures ok ==> disk.files.Keys == old(disk.files.Keys) - PathsOf(old(LevelOf(manifest.levels, 0))) + {newPath}
    {
      hide ManifestOk, LevelTables, Writable, FreshFor, Stack, Describes, FileBytes, SortedItems, PathsOf, Bounded;
      SameLength(disk.files, LevelOf(manifest.levels, 0));
      OtherFiles(disk.files, newPath, FileBytes(SortedItems(Merged(disk.files, manifest.levels))),
                 PathsOf(LevelOf(manifest.levels, 0)));
      ok := compaction.Compact(manifest, disk, newPath, now);
    }

    /** Fold the items of one older table under what has been collected: keys already
        seen are shadowed, tombstones are remembered but not returned. */
    static method TakeOlder(seen: set<Bytes>, result: Table, items: seq<Item>)
      returns (seen': set<Bytes>, result': Table)
      requires ItemsSorted(items) && result.Keys <= seen
      ensures seen' == seen + TableOf(items).Keys
      ensures result' == Live(TableOf(items) - seen) + result
    {
      hide TableOf, Live, ItemsSorted;
      seen', result' := seen, result;
      var i := 0;
      TableOfNone();
      LiveOfNone(seen, result);
      assert items[..0] == [];
      while i < |items|
        invariant 0 <= i <= |items|
        invariant seen' == seen + TableOf(items[..i]).Keys
        invariant result' == Live(TableOf(items[..i]) - seen) + result
      {
        var it := items[i];
        TakeOne(items, i, seen, result);
        if it.key !in seen' {
          seen' := seen' + {it.key};
          if it.value != TOMBSTONE {
            result' := result'[it.key := it.value];
          }
        }
        i := i + 1;
      }
      assert items[..i] == items;
    }

    /** All live pairs of the range in key order: exactly what point reads return. */
    method ReadKeyRange(start: Bytes, end: Bytes) returns (items: seq<Item>)
      requires Valid()
      ensures items == SortedItems(Slice(Live(Contents(Value())), start, end))
    {
      hide Bounded, IndexOf, Overlaps, Le, LookupIn, ManifestOk, Lt, View, Slice, Live, SortedItems, Stack, LevelView, LevelTables, AllBounded, ReadOrder,
           Overlapping, ItemsSorted, TableOf, HoldsTable, LoadedIndex, FileTable, TableAt;
      ghost var order := ReadOrder(manifest.levels);
      BoundedInReadOrder(disk.files, manifest.levels);
      ManifestIsLevels(disk.files, manifest.levels);
      RangePruningSound(disk.files, order, start, end);
      var memtableResult := memtable.GetRange(start, end);
      var seenKeys: set<Bytes>, result: Table := TakeNewest(memtableResult);
      var tables := manager.GetOverlapping(start, end);
      ghost var ms := Overlapping(order, start, end);
      ghost var acc := memtableResult;
      var i := 0;
      assert ms[..0] == [] && ms == ms[..|ms|];
      LevelViewOfNone(disk.files);
      SliceEmpty(start, end);
      assert map[] + acc == acc;
      while i < |tables|
        invariant 0 <= i <= |tables| == |ms|
        invariant forall j :: i <= j < |tables| ==>
                    tables[j].disk == disk && tables[j].path == ms[j].path && tables[j].index == map[]
        invariant acc == Slice(LevelView(disk.files, ms[..i]), start, end) + memtableResult
        invariant seenKeys == acc.Keys && result == Live(acc) && result.Keys <= seenKeys
      {
        assert ms[i] in ms && ms[i] in order;
        MemberBounded(disk.files, order, ms[i]);
        NotLoaded(tables[i]);
        var scanned := tables[i].RangeScan(start, end);
        ghost var t := Slice(FileTable(disk.files, ms[i].path), start, end);
        SortedItemsTable(t);
        SortedItemsSorted(t);
        seenKeys, result := TakeOlder(seenKeys, result, scanned);
        OlderUnder(t, acc);
        RangeStep(disk.files, ms, i, start, end, memtableResult);
        acc := t + acc;
        i := i + 1;
      }
      SliceOverlay(LevelView(disk.files, order), View(memtable.Value()), start, end);
      LiveSlice(Contents(Value()), start, end);
      items := SortedItems(result);
    }

    /** The memtable's part of a range read. */
    static method TakeNewest(memtableResult: Table) returns (seen: set<Bytes>, result: Table)
      ensures seen == memtableResult.Keys && result == Live(memtableResult) && result.Keys <= seen
    {
      hide Live;
      seen, result := {}, map[];
      var rest := memtableResult.Keys;
      assert memtableResult - rest == map[];
      LiveEnds(memtableResult);
      while rest != {}
        invariant rest <= memtableResult.Keys
        invariant seen == memtableResult.Keys - rest
        invariant result == Live(memtableResult - rest)
        decreases |rest|
      {
        var key :| key in rest;
        LiveOneMore(memtableResult, rest, key);
        seen := seen + {key};
        if memtableResult[key] != TOMBSTONE {
          result := result[key := memtableResult[key]];
        }
        rest := rest - {key};
      }
      assert memtableResult - rest == memtableResult;
    }
  }

  /** Open over stored files: load the manifest, replay the log into an empty memtable.
      None: the replay raised. */
  method Open(crc: Checksum, maxSize: int, log: Bytes, saved: Option<Saved>, files: map<Path, Bytes>)
    returns (e: Option<Engine>)
    requires saved.Some? ==> ManifestOk(files, saved.value.levels)
    ensures e.None? <==> ReplayFrom(crc, log, 0).outcome == WalCodec.Failed
    ensures e.Some? ==>
              && e.value.Valid()
              && e.value.memtable.Value() == ReplayInto(Mem(maxSize, map[], [], 0, 0), ReplayFrom(crc, log, 0).entries)
              && e.value.wal.Value() == Wal(log, Closed) && !e.value.compaction.compactionInProgress
              && e.value.disk.files == files && e.value.manifest.file == saved
              && e.value.manifest.levels == if saved.Some? then saved.value.levels else map[]
  {
    hide ManifestOk, ReplayFrom;
    var engine := new Engine(crc, maxSize, log, saved, files);
    var ok := engine.ReplayWal();
    return if ok then Some(engine) else None;
  }

  /** A crash or a stop, and an opening over what it left: the log's file, the manifest's
      file and the table files. */
  method Restart(e: Engine) returns (r: Option<Engine>)
    requires e.Valid()
    ensures match r
            case None => Reopen(e.wal.crc, e.Value()).None?
            case Some(after) =>
              after.Valid() && Reopen(e.wal.crc, e.Value()) == Some(after.Value()) && !after.compaction.compactionInProgress
  {
    hide ManifestOk, ReplayFrom, LevelTables, ReplayInto;
    r := Open(e.wal.crc, e.memtable.maxSize, e.wal.log, e.manifest.file, e.disk.files);
  }

  /* ------------------------------------------------------ supporting facts */

  lemma EmptyStays()
    ensures !Writable(map[])
  {
  }

  lemma OtherFiles(files: map<Path, Bytes>, path: Path, file: Bytes, gone: set<Path>)
    ensures files[path := file] - gone - {path} == files - {path} - gone
    ensures files - {path} - {} == files - {path}
  {
  }

  lemma SameLength(files: map<Path, Bytes>, es: seq<Meta>)
    ensures LevelTables(files, es) == [] <==> es == []
  {
  }

  /** Point reads and range reads agree: the range of the live contents holds exactly the
      keys in it that a point read finds, with the values it returns. */
  lemma {:induction false} RangeAgreesWithGet(t: Table, start: Bytes, end: Bytes)
    ensures ItemsSorted(SortedItems(Slice(Live(t), start, end)))
    ensures forall k, v :: Item(k, v) in SortedItems(Slice(Live(t), start, end))
              <==> Le(start, k) && Lt(k, end) && Read(t, k) == Some(v)
  {
    hide Lt, SortedItems;
    var s := Slice(Live(t), start, end);
    SortedItemsSorted(s);
    forall k, v ensures Item(k, v) in SortedItems(s) <==> k in s && s[k] == v {
      ItemListed(s, k, v);
    }
  }

  lemma ItemListed(t: Table, k: Bytes, v: Bytes)
    ensures Item(k, v) in SortedItems(t) <==> k in t && t[k] == v
  {
    hide SortedItems, SortedKeys;
    var items := SortedItems(t);
    if k in t {
      assert k in SortedKeys(t.Keys);
      var i :| 0 <= i < |items| && Keys(items)[i] == k;
      assert items[i] == Item(k, t[k]) && items[i] in items;
    }
  }

  lemma LiveEnds(t: Table)
    ensures Live(map[]) == map[]
    ensures Live(t).Keys <= t.Keys
  {
  }

  lemma LiveOneMore(t: Table, rest: set<Bytes>, key: Bytes)
    requires key in rest && rest <= t.Keys
    ensures Live(t - (rest - {key}))
         == if t[key] == TOMBSTONE then Live(t - rest) else Live(t - rest)[key := t[key]]
  {
    assert t - (rest - {key}) == (t - rest)[key := t[key]];
  }

  lemma LiveOfNone(seen: set<Bytes>, result: Table)
    ensures Live(TableOf([]) - seen) + result == result
  {
  }

  lemma TakeOne(items: seq<Item>, i: nat, seen: set<Bytes>, result: Table)
    requires ItemsSorted(items) && i < |items| && result.Keys <= seen
    ensures items[i].key !in TableOf(items[..i])
    ensures TableOf(items[..i + 1]).Keys == TableOf(items[..i]).Keys + {items[i].key}
    ensures var before := Live(TableOf(items[..i]) - seen) + result;
            Live(TableOf(items[..i + 1]) - seen) + result
              == if items[i].key in seen || items[i].value == TOMBSTONE then before
                 else before[items[i].key := items[i].value]
  {
    hide Live, TableOf, ItemsSorted, Lt;
    NextItem(items, i);
    LiveWithout(TableOf(items[..i]), seen, result, items[i].key, items[i].value);
  }

  lemma NextItem(items: seq<Item>, i: nat)
    requires ItemsSorted(items) && i < |items|
    ensures items[i].key !in TableOf(items[..i])
    ensures TableOf(items[..i + 1]) == TableOf(items[..i])[items[i].key := items[i].value]
  {
    hide Lt;
    assert items[..i + 1][..i] == items[..i];
    TableOfKeys(items[..i]);
    LtIsTotalOrder();
    forall k | k in TableOf(items[..i]) ensures k != items[i].key {
      var j :| 0 <= j < i && Keys(items[..i])[j] == k;
      assert Lt(items[j].key, items[i].key);
    }
  }

  lemma LiveWithout(t: Table, seen: set<Bytes>, result: Table, k: Bytes, v: Bytes)
    requires k !in t && result.Keys <= seen
    ensures Live(t[k := v] - seen) + result
         == if k in seen || v == TOMBSTONE then Live(t - seen) + result else (Live(t - seen) + result)[k := v]
  {
    if k in seen {
      assert t[k := v] - seen == t - seen;
    } else {
      assert t[k := v] - seen == (t - seen)[k := v];
    }
  }

  lemma OlderUnder(t: Table, acc: Table)
    ensures Live(t + acc).Keys <= (t + acc).Keys
    ensures Live(t - acc.Keys) + Live(acc) == Live(t + acc)
    ensures acc.Keys + t.Keys == (t + acc).Keys
  {
  }

  lemma LiveSlice(t: Table, start: Bytes, end: Bytes)
    ensures Slice(Live(t), start, end) == Live(Slice(t, start, end))
  {
    hide Lt;
  }

  lemma LevelViewOfNone(files: map<Path, Bytes>)
    ensures LevelView(files, []) == map[]
  {
  }

  lemma LevelViewSnoc(files: map<Path, Bytes>, ms: seq<Meta>, m: Meta)
    ensures LevelView(files, ms + [m]) == FileTable(files, m.path) + LevelView(files, ms)
  {
    hide FileTable;
    LevelViewConcat(files, ms, [m]);
    assert [m][1..] == [];
    assert LevelView(files, [m]) == LevelView(files, []) + FileTable(files, m.path);
  }

  /** Taking in table `i` overlays its slice under those of the tables before it. */
  lemma RangeStep(files: map<Path, Bytes>, ms: seq<Meta>, i: nat, start: Bytes, end: Bytes, newest: Table)
    requires i < |ms|
    ensures Slice(LevelView(files, ms[..i + 1]), start, end) + newest
         == Slice(FileTable(files, ms[i].path), start, end) + (Slice(LevelView(files, ms[..i]), start, end) + newest)
  {
    hide Slice, LevelView, FileTable;
    assert ms[..i + 1] == ms[..i] + [ms[i]];
    LevelViewSnoc(files, ms[..i], ms[i]);
    SliceOverlay(FileTable(files, ms[i].path), LevelView(files, ms[..i]), start, end);
    OverlayAssoc(Slice(FileTable(files, ms[i].path), start, end), Slice(LevelView(files, ms[..i]), start, end), newest);
  }

  lemma MemberBounded(files: map<Path, Bytes>, ms: seq<Meta>, m: Meta)
    requires AllBounded(files, ms) && m in ms
    ensures HoldsTable(files, m.path) && FileTable(files, m.path) == TableAt(files, m.path)
  {
  }

  lemma NotLoaded(s: SSTable)
    requires s.index == map[]
    ensures s.IndexCurrent()
  {
  }

  /** A new table's file disturbs no table the manifest lists; its entry, once added, puts
      it on top of level 0. */
  lemma BufferWritten(files: map<Path, Bytes>, files': map<Path, Bytes>, levels: Manifests.Levels, tick: Tick,
                      metadata: Option<Meta>, t: Table)
    requires ManifestOk(files, levels) && FreshFor(levels, 0, tick.path, tick.now)
    requires files' - {tick.path} == files - {tick.path}
    requires metadata.Some? ==>
               && metadata.value.path == tick.path && metadata.value.createdAt == tick.now
               && Bounded(files', metadata.value) && Describes(files', metadata.value, t)
    ensures metadata.None? ==>
              && ManifestOk(files', levels)
              && LevelTables(files', LevelOf(levels, 0)) == LevelTables(files, LevelOf(levels, 0))
              && LevelTables(files', LevelOf(levels, 1)) == LevelTables(files, LevelOf(levels, 1))
    ensures metadata.Some? ==>
              var levels' := levels[0 := LevelOf(levels, 0) + [metadata.value]];
              && ManifestOk(files', levels')
              && LevelTables(files', LevelOf(levels', 0)) == LevelTables(files, LevelOf(levels, 0)) + [t]
              && LevelTables(files', LevelOf(levels', 1)) == LevelTables(files, LevelOf(levels, 1))
  {
    hide ManifestOk, LevelTables, Bounded, Describes, FreshFor, FileTable;
    FreshPath(levels, 0, tick.path, tick.now);
    WrittenElsewhere(files, files', levels, tick.path);
    if metadata.Some? {
      AddToLevel0(files', levels, metadata.value);
      DescribesTable(files', metadata.value, t);
    }
  }

  lemma AddToLevel0(files: map<Path, Bytes>, levels: Manifests.Levels, m: Meta)
    requires ManifestOk(files, levels)
    requires FreshFor(levels, 0, m.path, m.createdAt) && Bounded(files, m)
    ensures var levels' := levels[0 := LevelOf(levels, 0) + [m]];
            && ManifestOk(files, levels')
            && LevelTables(files, LevelOf(levels', 0)) == LevelTables(files, LevelOf(levels, 0)) + [FileTable(files, m.path)]
            && LevelOf(levels', 1) == LevelOf(levels, 1)
  {
    hide Bounded, KeyLe, FileTable;
    AddKeepsManifest(files, levels, 0, m);
    TablesSnoc(files, LevelOf(levels, 0), m);
  }

  /** A run of clock readings, each fresh for level 0 and for those before it. */
  ghost predicate FreshTicks(levels: Manifests.Levels, ticks: seq<Tick>) {
    && (forall i :: 0 <= i < |ticks| ==> FreshFor(levels, 0, ticks[i].path, ticks[i].now))
    && (forall i, j :: 0 <= i < j < |ticks| ==>
          && ticks[i].path != ticks[j].path
          && (ticks[i].now < ticks[j].now || (ticks[i].now == ticks[j].now && Le(ticks[i].path, ticks[j].path))))
  }

  lemma FreshLater(levels: Manifests.Levels, ticks: seq<Tick>)
    requires ticks != [] && FreshTicks(levels, ticks)
    ensures FreshTicks(levels, ticks[1..])
  {
    hide FreshFor, Lt;
  }

  lemma FreshAfter(levels: Manifests.Levels, levels': Manifests.Levels, ticks: seq<Tick>, m: Meta)
    requires ticks != [] && FreshTicks(levels, ticks)
    requires levels' == levels[0 := LevelOf(levels, 0) + [m]]
    requires m.path == ticks[0].path && m.createdAt == ticks[0].now
    ensures FreshTicks(levels', ticks[1..])
  {
    hide Lt;
  }

  lemma ManifestIsLevels(files: map<Path, Bytes>, levels: Manifests.Levels)
    requires ManifestOk(files, levels)
    ensures LevelView(files, ReadOrder(levels))
         == EngineSteps.Levels(LevelTables(files, LevelOf(levels, 0)), LevelTables(files, LevelOf(levels, 1)))
  {
    hide AllBounded, InOrder, DistinctPaths, LevelView, LevelTables, ReadOrder, Stack;
    LevelsAreStacks(files, levels);
  }
}
