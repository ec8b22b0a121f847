/** Which tables a read consults and in which order: lower levels first, newest first
    within a level, skipping tables whose key bounds exclude the request. */
module SSTableManagers {
  import opened ByteStrings
  import opened Tables
  import opened MemTables
  import opened SSTableFormat
  import opened SSTables
  import opened Manifests

  /* ------------------------------------------------------ read order */

  /** The sort key of an entry is its creation time, then its path, then its position. */
  predicate KeyLe(a: Meta, b: Meta) {
    a.createdAt < b.createdAt || (a.createdAt == b.createdAt && Le(a.path, b.path))
  }

  /** Put an entry that comes later in the list where a descending sort puts it. */
  function Insert(e: Meta, sorted: seq<Meta>): (r: seq<Meta>)
    ensures multiset(r) == multiset(sorted) + multiset{e}
  {
    if sorted == [] || KeyLe(sorted[0], e) then [e] + sorted
    else
      assert sorted == [sorted[0]] + sorted[1..];
      [sorted[0]] + Insert(e, sorted[1..])
  }

  /** The entries of a level in read order. */
  function NewestFirst(es: seq<Meta>): (r: seq<Meta>)
    ensures multiset(r) == multiset(es)
  {
    if es == [] then []
    else
      assert es == es[..|es| - 1] + [es[|es| - 1]];
      Insert(es[|es| - 1], NewestFirst(es[..|es| - 1]))
  }

  /** The read order is descending: newer entries first, of one time the greater path. */
  lemma {:induction false} NewestFirstDescends(es: seq<Meta>)
    ensures forall i, j :: 0 <= i < j < |NewestFirst(es)| ==> KeyLe(NewestFirst(es)[j], NewestFirst(es)[i])
    ensures forall i, j :: 0 <= i < j < |NewestFirst(es)| ==>
              var a, b := NewestFirst(es)[i], NewestFirst(es)[j];
              b.createdAt < a.createdAt || (b.createdAt == a.createdAt && (b.path == a.path || Lt(b.path, a.path)))
    decreases |es|
  {
    if es != [] {
      NewestFirstDescends(es[..|es| - 1]);
      InsertDescends(es[|es| - 1], NewestFirst(es[..|es| - 1]));
    }
  }

  lemma {:induction false} InsertDescends(e: Meta, s: seq<Meta>)
    requires forall i, j :: 0 <= i < j < |s| ==> KeyLe(s[j], s[i])
    ensures forall i, j :: 0 <= i < j < |Insert(e, s)| ==> KeyLe(Insert(e, s)[j], Insert(e, s)[i])
    decreases |s|
  {
    hide Lt;
    LtIsTotalOrder();
    if s != [] && !KeyLe(s[0], e) {
      InsertDescends(e, s[1..]);
      var r := Insert(e, s[1..]);
      forall i | 0 <= i < |r| ensures KeyLe(r[i], s[0]) {
        assert r[i] in multiset(r);
        assert r[i] in multiset(s[1..]) + multiset{e};
        if r[i] != e {
          assert r[i] in s[1..];
        }
      }
    }
  }

  /** Each entry is no older, in sort order, than those added before it. */
  ghost predicate InOrder(es: seq<Meta>) {
    forall i, j :: 0 <= i < j < |es| ==> KeyLe(es[i], es[j])
  }

  /** With a clock that does not run backwards the newest entry is read first. */
  lemma NewestIsFirst(es: seq<Meta>, m: Meta)
    requires InOrder(es + [m])
    ensures InOrder(es)
    ensures NewestFirst(es + [m]) == [m] + NewestFirst(es)
  {
    hide Lt;
    var s := NewestFirst(es);
    assert (es + [m])[..|es|] == es;
    forall i, j | 0 <= i < j < |es| ensures KeyLe(es[i], es[j]) {
      assert (es + [m])[i] == es[i] && (es + [m])[j] == es[j];
    }
    if s != [] {
      assert s[0] in multiset(s);
      assert s[0] in es;
      var i :| 0 <= i < |es| && es[i] == s[0];
      assert (es + [m])[i] == s[0] && (es + [m])[|es|] == m;
    }
  }

  lemma {:induction false} LeastNat(s: set<nat>) returns (m: nat)
    requires s != {}
    ensures m in s && forall k :: k in s ==> m <= k
  {
    var first :| first in s;
    m := first;
    var rest := s - {first};
    assert s == rest + {first};
    if rest != {} {
      var n := LeastNat(rest);
      m := if n < first then n else first;
    }
  }

  lemma SomeLeastNat(s: set<nat>)
    requires s != {}
    ensures exists m :: m in s && forall k :: k in s ==> m <= k
  {
    var m := LeastNat(s);
  }

  function MinNat(s: set<nat>): (m: nat)
    requires s != {}
    ensures m in s && forall k :: k in s ==> m <= k
  {
    SomeLeastNat(s);
    var m :| m in s && forall k :: k in s ==> m <= k;
    m
  }

  /** `sorted(levels.keys())` */
  function SortedNats(s: set<nat>): (ns: seq<nat>)
    ensures forall i, j :: 0 <= i < j < |ns| ==> ns[i] < ns[j]
    ensures forall n :: n in ns <==> n in s
  {
    if s == {} then []
    else
      var m := MinNat(s);
      [m] + SortedNats(s - {m})
  }

  function ReadLevels(levels: Levels, ids: seq<nat>): seq<Meta> {
    if ids == [] then [] else NewestFirst(LevelOf(levels, ids[0])) + ReadLevels(levels, ids[1..])
  }

  /** The order in which a read visits the tables of all levels. */
  function ReadOrder(levels: Levels): seq<Meta> {
    ReadLevels(levels, SortedNats(levels.Keys))
  }

  lemma NewestOfNone()
    ensures NewestFirst([]) == []
  {
  }

  lemma {:induction false} NatListingUnique(xs: seq<nat>, ys: seq<nat>)
    requires forall i, j :: 0 <= i < j < |xs| ==> xs[i] < xs[j]
    requires forall i, j :: 0 <= i < j < |ys| ==> ys[i] < ys[j]
    requires forall n :: n in xs <==> n in ys
    ensures xs == ys
    decreases |xs|
  {
    assert |ys| > 0 ==> ys[0] in ys && ys[0] in xs;
    if xs != [] {
      assert xs[0] in ys;
      assert xs[0] == ys[0];
      forall n ensures n in xs[1..] <==> n in ys[1..] {
        assert n in xs <==> n == xs[0] || n in xs[1..];
        assert n in ys <==> n == ys[0] || n in ys[1..];
      }
      NatListingUnique(xs[1..], ys[1..]);
      assert xs == [xs[0]] + xs[1..] && ys == [ys[0]] + ys[1..];
    }
  }

  lemma TwoLevels(levels: Levels)
    requires levels.Keys <= {0, 1}
    ensures ReadOrder(levels) == NewestFirst(LevelOf(levels, 0)) + NewestFirst(LevelOf(levels, 1))
  {
    hide NewestFirst, SortedNats, ReadLevels;
    var ids := SortedNats(levels.Keys);
    NewestOfNone();
    ReadPair(levels);
    if 0 in levels && 1 in levels {
      NatListingUnique(ids, [0, 1]);
    } else if 0 in levels {
      NatListingUnique(ids, [0]);
    } else if 1 in levels {
      NatListingUnique(ids, [1]);
    } else {
      NatListingUnique(ids, []);
    }
  }

  lemma ReadPair(levels: Levels)
    ensures ReadLevels(levels, []) == []
    ensures ReadLevels(levels, [0]) == NewestFirst(LevelOf(levels, 0))
    ensures ReadLevels(levels, [1]) == NewestFirst(LevelOf(levels, 1))
    ensures ReadLevels(levels, [0, 1]) == NewestFirst(LevelOf(levels, 0)) + NewestFirst(LevelOf(levels, 1))
  {
    hide NewestFirst;
    assert [0, 1][1..] == [1] && [0][1..] == [] && [1][1..] == [];
  }

  /* ---------------------------------------------------- what reads see */

  /** The table behind a path; a missing or unreadable file counts as empty. */
  function FileTable(files: map<Path, Bytes>, path: Path): Table {
    if HoldsTable(files, path) then TableAt(files, path) else map[]
  }

  /** An unpruned newest-first search, as a table: overlay of the tables of `ms`, the
      first entry on top. */
  function LevelView(files: map<Path, Bytes>, ms: seq<Meta>): Table {
    if ms == [] then map[] else LevelView(files, ms[1..]) + FileTable(files, ms[0].path)
  }

  /** The file is readable and the bounds its entry carries enclose every key. */
  ghost predicate Bounded(files: map<Path, Bytes>, m: Meta) {
    HoldsTable(files, m.path) &&
    forall k :: k in FileTable(files, m.path) ==> Le(m.minKey, k) && Le(k, m.maxKey)
  }

  ghost predicate AllBounded(files: map<Path, Bytes>, ms: seq<Meta>) {
    forall m :: m in ms ==> Bounded(files, m)
  }

  lemma {:induction false} LevelViewConcat(files: map<Path, Bytes>, a: seq<Meta>, b: seq<Meta>)
    ensures LevelView(files, a + b) == LevelView(files, b) + LevelView(files, a)
    decreases |a|
  {
    hide FileTable;
    if a == [] {
      assert a + b == b;
    } else {
      LevelViewConcat(files, a[1..], b);
      assert (a + b)[1..] == a[1..] + b;
      OverlayAssoc(LevelView(files, b), LevelView(files, a[1..]), FileTable(files, a[0].path));
    }
  }

  /** The tables of a level in the order they were added. */
  function LevelTables(files: map<Path, Bytes>, es: seq<Meta>): (ts: seq<Table>)
    ensures |ts| == |es|
  {
    seq(|es|, i requires 0 <= i < |es| => FileTable(files, es[i].path))
  }

  /** Reading a level newest first sees its tables stacked in the order of addition. */
  lemma {:induction false} LevelIsStack(files: map<Path, Bytes>, es: seq<Meta>)
    requires InOrder(es)
    ensures LevelView(files, NewestFirst(es)) == Stack(LevelTables(files, es))
    decreases |es|
  {
    hide FileTable, KeyLe, Insert, InOrder, LevelTables, NewestFirst;
    if es == [] {
      NewestOfNone();
      assert LevelTables(files, es) == [] by { TablesOfNone(files); }
    } else {
      var init, m := es[..|es| - 1], es[|es| - 1];
      assert es == init + [m];
      NewestIsFirst(init, m);
      LevelIsStack(files, init);
      assert ([m] + NewestFirst(init))[1..] == NewestFirst(init);
      TablesSnoc(files, init, m);
      StackSnoc(LevelTables(files, init), FileTable(files, m.path));
    }
  }

  lemma TablesSnoc(files: map<Path, Bytes>, es: seq<Meta>, m: Meta)
    ensures LevelTables(files, es + [m]) == LevelTables(files, es) + [FileTable(files, m.path)]
  {
    hide FileTable;
  }

  lemma TablesOfNone(files: map<Path, Bytes>)
    ensures LevelTables(files, []) == []
  {
  }

  lemma {:induction false} LevelsAreStacks(files: map<Path, Bytes>, levels: Levels)
    requires levels.Keys <= {0, 1}
    requires InOrder(LevelOf(levels, 0)) && InOrder(LevelOf(levels, 1))
    ensures LevelView(files, ReadOrder(levels))
         == Stack(LevelTables(files, LevelOf(levels, 1))) + Stack(LevelTables(files, LevelOf(levels, 0)))
  {
    hide *;
    TwoLevels(levels);
    LevelViewConcat(files, NewestFirst(LevelOf(levels, 0)), NewestFirst(LevelOf(levels, 1)));
    LevelIsStack(files, LevelOf(levels, 0));
    LevelIsStack(files, LevelOf(levels, 1));
  }

  /* ------------------------------------------------------- range pruning */

  predicate Overlaps(m: Meta, start: Bytes, end: Bytes) {
    !(Le(end, m.minKey) || Lt(m.maxKey, start))
  }

  function Overlapping(ms: seq<Meta>, start: Bytes, end: Bytes): seq<Meta> {
    if ms == [] then []
    else (if Overlaps(ms[0], start, end) then [ms[0]] else []) + Overlapping(ms[1..], start, end)
  }

  lemma OverlappingSnoc(ms: seq<Meta>, m: Meta, start: Bytes, end: Bytes)
    ensures Overlapping(ms + [m], start, end)
         == Overlapping(ms, start, end) + (if Overlaps(m, start, end) then [m] else [])
  {
    hide Overlaps;
    if ms == [] {
      assert ms + [m] == [m];
      assert Overlapping([m], start, end) == (if Overlaps(m, start, end) then [m] else []) + Overlapping([], start, end);
    } else {
      OverlappingSnoc(ms[1..], m, start, end);
      assert (ms + [m])[1..] == ms[1..] + [m];
    }
  }

  /** The tables kept are those with a key below `end` and a key from `start` on, as far as
      the bounds tell, in the order given. */
  lemma {:induction false} OverlappingIff(ms: seq<Meta>, start: Bytes, end: Bytes)
    ensures forall m :: m in Overlapping(ms, start, end) <==> m in ms && Lt(m.minKey, end) && Le(start, m.maxKey)
    decreases |ms|
  {
    hide Lt;
    if ms != [] {
      OverlappingIff(ms[1..], start, end);
      LtIsTotalOrder();
    }
  }

  /** Leaving out the tables whose bounds miss the range changes nothing inside it. */
  lemma {:induction false} RangePruningSound(files: map<Path, Bytes>, ms: seq<Meta>, start: Bytes, end: Bytes)
    requires AllBounded(files, ms)
    ensures Slice(LevelView(files, Overlapping(ms, start, end)), start, end) == Slice(LevelView(files, ms), start, end)
    ensures forall m :: m in Overlapping(ms, start, end) ==> m in ms
    decreases |ms|
  {
    hide Lt, Slice, FileTable;
    if ms != [] {
      RangePruningSound(files, ms[1..], start, end);
      var rest, t := LevelView(files, ms[1..]), FileTable(files, ms[0].path);
      SliceOverlay(rest, t, start, end);
      if Overlaps(ms[0], start, end) {
        var kept := Overlapping(ms[1..], start, end);
        assert ([ms[0]] + kept)[1..] == kept;
        SliceOverlay(LevelView(files, kept), t, start, end);
      } else {
        assert ms[0] in ms;
        DisjointSlice(t, ms[0].minKey, ms[0].maxKey, start, end);
        assert Overlapping(ms, start, end) == Overlapping(ms[1..], start, end);
        assert Slice(rest, start, end) + map[] == Slice(rest, start, end);
      }
    }
  }

  lemma DisjointSlice(t: Table, low: Bytes, high: Bytes, start: Bytes, end: Bytes)
    requires forall k :: k in t ==> Le(low, k) && Le(k, high)
    requires Le(end, low) || Lt(high, start)
    ensures Slice(t, start, end) == map[]
  {
    hide Lt;
    LtIsTotalOrder();
  }

  /* ------------------------------------------------------------ the class */

  function Answer(v: Option<Bytes>): Lookup {
    match v
    case None => Absent
    case Some(x) => Found(x)
  }

  class SSTableManager {
    const disk: Disk
    const manifest: Manifest

    constructor (disk: Disk, manifest: Manifest)
      ensures this.disk == disk && this.manifest == manifest
    {
      this.disk := disk;
      this.manifest := manifest;
    }

    /** The early-return search with bounds pruning answers as the unpruned search. */
    method Get(key: Bytes) returns (r: Lookup)
      ensures AllBounded(disk.files, ReadOrder(manifest.levels)) ==>
                r == Answer(Find(LevelView(disk.files, ReadOrder(manifest.levels)), key))
    {
      hide Lt, ReadOrder, FileTable, LookupIn, LoadedIndex;
      var order := ReadOrder(manifest.levels);
      ghost var good := AllBounded(disk.files, order);
      var i := 0;
      assert order[0..] == order;
      while i < |order|
        invariant 0 <= i <= |order|
        invariant good ==> Find(LevelView(disk.files, order), key) == Find(LevelView(disk.files, order[i..]), key)
      {
        var m := order[i];
        assert m in order;
        assert order[i..][1..] == order[i + 1..];
        if Lt(key, m.minKey) || Lt(m.maxKey, key) {
          LtIsTotalOrder();
          i := i + 1;
          continue;
        }
        var sstable := new SSTable(disk, m.path, m.level);
        var value := sstable.Get(key);
        if good {
          FreshLookup(disk.files, m.path, key);
        }
        if value != Absent {
          return value;
        }
        i := i + 1;
      }
      return Absent;
    }

    /** Fresh table objects for the entries whose bounds meet the range, in read order. */
    method GetOverlapping(start: Bytes, end: Bytes) returns (tables: seq<SSTable>)
      ensures var ms := Overlapping(ReadOrder(manifest.levels), start, end);
              && |tables| == |ms|
              && forall i :: 0 <= i < |tables| ==>
                   && tables[i].disk == disk && tables[i].path == ms[i].path
                   && tables[i].level == ms[i].level && tables[i].index == map[]
      ensures forall m :: m in Overlapping(ReadOrder(manifest.levels), start, end) <==>
                m in ReadOrder(manifest.levels) && Lt(m.minKey, end) && Le(start, m.maxKey)
      ensures forall i :: 0 <= i < |tables| ==> fresh(tables[i])
      ensures forall i, j :: 0 <= i < j < |tables| ==> tables[i] != tables[j]
    {
      hide Lt, ReadOrder;
      var order := ReadOrder(manifest.levels);
      OverlappingIff(order, start, end);
      tables := [];
      var i := 0;
      while i < |order|
        invariant 0 <= i <= |order|
        invariant var ms := Overlapping(order[..i], start, end);
                  && |tables| == |ms|
                  && forall j :: 0 <= j < |tables| ==>
                       && tables[j].disk == disk && tables[j].path == ms[j].path
                       && tables[j].level == ms[j].level && tables[j].index == map[]
        invariant forall j :: 0 <= j < |tables| ==> fresh(tables[j])
        invariant forall j, l :: 0 <= j < l < |tables| ==> tables[j] != tables[l]
      {
        var m := order[i];
        assert order[..i + 1] == order[..i] + [m];
        OverlappingSnoc(order[..i], m, start, end);
        if Le(end, m.minKey) || Lt(m.maxKey, start) {
          i := i + 1;
          continue;
        }
        var sstable := new SSTable(disk, m.path, m.level);
        tables := tables + [sstable];
        i := i + 1;
      }
      assert order[..i] == order;
    }

    /** None: the table has no index to take bounds from.  Otherwise the bounds enclose
        every key of the table. */
    method BuildMetadata(sstable: SSTable, level: nat, now: nat) returns (r: Option<Meta>)
      requires sstable.disk == disk
      modifies sstable
      ensures sstable.index == if old(sstable.index) == map[] then LoadedIndex(disk.files, sstable.path) else old(sstable.index)
      ensures r.None? <==> sstable.index == map[]
      ensures r.Some? ==> r.value.path == sstable.path && r.value.level == level && r.value.createdAt == now
      ensures r.Some? ==> r.value.minKey in sstable.index && r.value.maxKey in sstable.index
      ensures r.Some? ==> r.value.entryCount == |sstable.index|
                          && r.value.sizeBytes == if sstable.path in disk.files then |disk.files[sstable.path]| else 0
      ensures r.Some? && sstable.index == LoadedIndex(disk.files, sstable.path) && HoldsTable(disk.files, sstable.path) ==> Bounded(disk.files, r.value)
    {
      hide Lt, ParseIndex, ReadValue;
      if sstable.index == map[] {
        sstable.LoadIndex();
      }
      if sstable.index == map[] {
        return None;
      }
      var ks := SortedKeys(sstable.index.Keys);
      var k0 :| k0 in sstable.index;
      assert k0 in ks;
      assert ks[0] in ks && ks[|ks| - 1] in ks;
      assert |sstable.index.Keys| == |sstable.index|;
      var size := if sstable.path in disk.files then |disk.files[sstable.path]| else 0;
      var m := Meta(sstable.path, level, now, size, |ks|, ks[0], ks[|ks| - 1]);
      if sstable.index == LoadedIndex(disk.files, sstable.path) && HoldsTable(disk.files, sstable.path) {
        TableAtIndex(disk.files, sstable.path);
        forall k | k in TableAt(disk.files, sstable.path)
          ensures Le(m.minKey, k) && Le(k, m.maxKey)
        {
          assert k in ks;
          var i :| 0 <= i < |ks| && ks[i] == k;
        }
      }
      return Some(m);
    }
  }

  /** A lookup through a freshly opened table answers from the table. */
  lemma FreshLookup(files: map<Path, Bytes>, path: Path, key: Bytes)
    requires HoldsTable(files, path)
    ensures LookupIn(files, path, LoadedIndex(files, path), key) == Answer(Find(FileTable(files, path), key))
  {
    hide ParseIndex, ReadValue;
    TableAtIndex(files, path);
  }
}
