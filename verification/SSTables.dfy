/** Sorted tables on disk: writing one from a sorted stream of items, loading its index
    lazily, point reads and scans. */
module SSTables {
  import opened ByteStrings
  import opened Tables
  import opened SSTableFormat
  import opened MemTables

  type Path = Bytes

  /** The files of the storage directory. */
  class Disk {
    var files: map<Path, Bytes>

    constructor (files: map<Path, Bytes>)
      ensures this.files == files
    {
      this.files := files;
    }
  }

  /** A lookup finds a value, finds nothing, or raises on a missing or malformed file. */
  datatype Lookup = Absent | Found(value: Bytes) | Failed

  /** What `_load_index` leaves in memory. */
  function LoadedIndex(files: map<Path, Bytes>, path: Path): Index {
    if path in files then ParseIndex(files[path]) else map[]
  }

  function LookupIn(files: map<Path, Bytes>, path: Path, index: Index, key: Bytes): Lookup {
    if key !in index then Absent
    else if path !in files then Failed
    else
      match ReadValue(files[path], index[key])
      case None => Failed
      case Some(v) => Found(v)
  }

  /** The file at `path` holds a readable table. */
  predicate HoldsTable(files: map<Path, Bytes>, path: Path) {
    path in files && Readable(files[path])
  }

  function TableAt(files: map<Path, Bytes>, path: Path): Table
    requires HoldsTable(files, path)
  {
    TableIn(files[path])
  }

  class SSTable {
    const disk: Disk
    const path: Path
    const level: nat
    var index: Index

    constructor (disk: Disk, path: Path, level: nat)
      ensures this.disk == disk && this.path == path && this.level == level && index == map[]
    {
      this.disk := disk;
      this.path := path;
      this.level := level;
      index := map[];
    }

    /** The index in memory is the file's, or has not been loaded yet. */
    ghost predicate IndexCurrent()
      reads this, disk
    {
      index == map[] || index == LoadedIndex(disk.files, path)
    }

    /** Succeeds exactly when every length and offset fits its field; otherwise the
        incomplete file is removed. */
    method Write(items: seq<Item>) returns (ok: bool)
      requires ItemsSorted(items)
      modifies this, disk
      ensures ok <==> TableFits(items)
      ensures ok ==> disk.files == old(disk.files)[path := FileBytes(items)]
      ensures ok ==> index == IndexOf(IndexEntries(items)) == LoadedIndex(disk.files, path)
      ensures !ok ==> disk.files == old(disk.files) - {path} && index == old(index)
    {
      hide EntryBytes, IndexEntryBytes, IndexOf, ParseIndex, DataBytes, ItemFits, ItemsSorted;
      var entries: seq<IndexEntry> := [];
      var built: Index := map[];
      var f: Bytes := [];
      var i := 0;
      DataOfNone();
      IndexOfNone();
      while i < |items|
        invariant 0 <= i <= |items|
        invariant f == DataBytes(items[..i])
        invariant entries == IndexEntries(items)[..i]
        invariant built == IndexOf(entries)
        invariant forall it :: it in items[..i] ==> ItemFits(it)
        invariant disk.files == old(disk.files) && index == old(index)
      {
        if !ItemFits(items[i]) {
          assert items[i] in items;
          disk.files := disk.files - {path};
          return false;
        }
        IndexOfSnoc(entries, IndexEntry(items[i].key, |f|));
        entries := entries + [IndexEntry(items[i].key, |f|)];
        built := built[items[i].key := |f|];
        DataSnoc(items, i);
        f := f + EntryBytes(items[i]);
        assert items[..i + 1] == items[..i] + [items[i]];
        i := i + 1;
      }
      assert items[..i] == items && entries == IndexEntries(items);
      var indexOffset := |f|;
      if indexOffset >= U64 {
        disk.files := disk.files - {path};
        return false;
      }
      IndexRoundTrip(items);
      var block := IndexBlock(entries);
      f := f + block;
      f := f + Be64(indexOffset);
      disk.files := disk.files[path := f];
      index := built;
      return true;
    }

    /** The index entries, in the order their keys were written. */
    static method IndexBlock(entries: seq<IndexEntry>) returns (f: Bytes)
      ensures f == Flat(IndexEntryBytes, entries)
    {
      hide IndexEntryBytes;
      f := [];
      var i := 0;
      while i < |entries|
        invariant 0 <= i <= |entries|
        invariant f == Flat(IndexEntryBytes, entries[..i])
      {
        assert entries[..i + 1] == entries[..i] + [entries[i]];
        FlatSnoc(IndexEntryBytes, entries[..i], entries[i]);
        f := f + IndexEntryBytes(entries[i]);
        i := i + 1;
      }
      assert entries[..i] == entries;
    }

    method LoadIndex()
      modifies this
      ensures index == LoadedIndex(disk.files, path)
    {
      hide ReadIndexEntry, FromBigEndian;
      index := map[];
      if path !in disk.files {
        return;
      }
      var file := disk.files[path];
      if |file| < 8 {
        return;
      }
      var pos, indexEnd := FromBigEndian(file[|file| - 8..]), |file| - 8;
      while pos < indexEnd
        invariant ReadIndex(file, pos, indexEnd, index)
               == ReadIndex(file, FromBigEndian(file[|file| - 8..]), indexEnd, map[])
        decreases |file| - pos
      {
        match ReadIndexEntry(file, pos)
        case None =>
          index := map[];
          return;
        case Some((e, next)) =>
          index := index[e.key := e.offset];
          pos := next;
      }
    }

    method Get(key: Bytes) returns (r: Lookup)
      modifies this
      ensures index == if old(index) == map[] then LoadedIndex(disk.files, path) else old(index)
      ensures r == LookupIn(disk.files, path, index, key)
      ensures r.Absent? <==> key !in index
      ensures r.Failed? <==> key in index && (path !in disk.files || ReadValue(disk.files[path], index[key]).None?)
      ensures r.Found? ==> Some(r.value) == ReadValue(disk.files[path], index[key])
    {
      if index == map[] {
        LoadIndex();
      }
      if key !in index {
        return Absent;
      }
      if path !in disk.files {
        return Failed;
      }
      match ReadValue(disk.files[path], index[key])
      case None => return Failed;
      case Some(value) => return Found(value);
    }

    /** The items of a readable table inside [start, end), in key order. */
    method RangeScan(start: Bytes, end: Bytes) returns (items: seq<Item>)
      requires IndexCurrent() && HoldsTable(disk.files, path)
      modifies this
      ensures IndexCurrent()
      ensures items == SortedItems(Slice(TableAt(disk.files, path), start, end))
    {
      hide LookupIn, TableAt, LoadedIndex, HoldsTable, SortedKeys, SortedItems, TableOf, Slice, Lt, Le, Part,
           ItemsSorted, ReadValue, ReadUpTo;
      if index == map[] {
        LoadIndex();
      }
      ghost var t := TableAt(disk.files, path);
      TableAtIndex(disk.files, path);
      var ks := SortedKeys(index.Keys);
      items := [];
      PartEnds(t, ks, start, end);
      TableOfNone();
      var i := 0;
      while i < |ks|
        invariant 0 <= i <= |ks|
        invariant IndexCurrent() && index == LoadedIndex(disk.files, path)
        invariant ItemsSorted(items) && forall it :: it in items ==> it.key in ks[..i]
        invariant TableOf(items) == Slice(Part(t, ks, i), start, end)
      {
        var key := ks[i];
        PartStep(t, ks, i, start, end);
        if Le(start, key) && Lt(key, end) {
          var value := Get(key);
          assert value == Found(t[key]);
          if value.Found? {
            AppendSorted(items, Item(key, value.value), ks, i);
            items := items + [Item(key, value.value)];
          }
        } else if Le(end, key) {
          SliceStops(t, ks, i, start, end);
          SortedItemsUnique(items);
          return;
        }
        assert ks[..i + 1] == ks[..i] + [ks[i]];
        i := i + 1;
      }
      SortedItemsUnique(items);
    }

    /** All items of a readable table, in key order. */
    method IterItems() returns (items: seq<Item>)
      requires IndexCurrent() && HoldsTable(disk.files, path)
      modifies this
      ensures IndexCurrent()
      ensures items == SortedItems(TableAt(disk.files, path))
    {
      hide LookupIn, TableAt, LoadedIndex, HoldsTable, SortedKeys, SortedItems, Lt, ReadValue, ReadUpTo;
      if index == map[] {
        LoadIndex();
      }
      ghost var t := TableAt(disk.files, path);
      TableAtIndex(disk.files, path);
      var ks := SortedKeys(index.Keys);
      items := [];
      var i := 0;
      while i < |ks|
        invariant 0 <= i <= |ks|
        invariant IndexCurrent() && index == LoadedIndex(disk.files, path)
        invariant Keys(items) == ks[..i]
        invariant forall it :: it in items ==> it.key in t && it.value == t[it.key]
      {
        assert ks[i] in ks;
        var value := Get(ks[i]);
        if value.Found? {
          items := items + [Item(ks[i], value.value)];
        }
        assert ks[..i + 1] == ks[..i] + [ks[i]];
        i := i + 1;
      }
      assert ks[..i] == ks;
      ListingIsSortedItems(items, t);
    }
  }

  lemma DataOfNone()
    ensures forall items: seq<Item> {:trigger items[..0]} :: DataBytes(items[..0]) == []
  {
  }

  lemma TableOfNone()
    ensures TableOf([]) == map[]
    ensures ItemsSorted([])
  {
  }

  lemma IndexOfNone()
    ensures IndexOf([]) == map[]
  {
  }

  lemma IndexOfSnoc(es: seq<IndexEntry>, e: IndexEntry)
    ensures IndexOf(es + [e]) == IndexOf(es)[e.key := e.offset]
  {
    assert (es + [e])[..|es|] == es;
  }

  lemma DataSnoc(items: seq<Item>, i: nat)
    requires i < |items|
    ensures DataBytes(items[..i + 1]) == DataBytes(items[..i]) + EntryBytes(items[i])
  {
    hide EntryBytes;
    assert items[..i + 1] == items[..i] + [items[i]];
    FlatSnoc(EntryBytes, items[..i], items[i]);
  }

  /** Every key of a table is in its index, and a lookup answers from the table. */
  lemma {:induction false} TableAtIndex(files: map<Path, Bytes>, path: Path)
    requires HoldsTable(files, path)
    ensures forall k :: k in TableAt(files, path) <==> k in LoadedIndex(files, path)
    ensures forall k :: k in TableAt(files, path) ==>
              LookupIn(files, path, LoadedIndex(files, path), k) == Found(TableAt(files, path)[k])
  {
    hide ParseIndex, ReadValue;
  }

  lemma AppendSorted(items: seq<Item>, it: Item, ks: seq<Bytes>, i: nat)
    requires ItemsSorted(items) && StrictlySorted(ks) && i < |ks| && it.key == ks[i]
    requires forall jt :: jt in items ==> jt.key in ks[..i]
    ensures ItemsSorted(items + [it])
    ensures TableOf(items + [it]) == TableOf(items)[it.key := it.value]
  {
    hide Lt;
    assert (items + [it])[..|items|] == items;
    forall j | 0 <= j < |items| ensures Lt(items[j].key, it.key) {
      assert items[j] in items;
      var m :| 0 <= m < i && ks[..i][m] == items[j].key;
    }
  }

  lemma ListingIsSortedItems(items: seq<Item>, t: Table)
    requires StrictlySorted(Keys(items))
    requires forall k :: k in Keys(items) <==> k in t
    requires forall it :: it in items ==> it.key in t && it.value == t[it.key]
    ensures items == SortedItems(t)
  {
    hide Lt;
    var sorted := SortedItems(t);
    forall k ensures k in Keys(sorted) <==> k in Keys(items) {
      assert k in SortedKeys(t.Keys) <==> k in t.Keys;
    }
    SortedListingUnique(Keys(items), Keys(sorted));
    forall i | 0 <= i < |items| ensures items[i] == sorted[i] {
      assert Keys(items)[i] == Keys(sorted)[i];
      assert items[i] in items;
    }
  }
}
