/** A run with no crash until its end in which an acknowledged write is lost, one after
    which the store does not open, and two flushes that share a path. */
module Limits {
  import opened ByteStrings
  import opened Tables
  import opened MemTables
  import opened EngineSteps
  import opened EngineRuns
  import opened Refinement
  import Engines
  import EngineCalls
  import OnBytes
  import Recovery
  import opened WalCodec
  import WAL = WriteAheadLog
  import opened SSTableFormat
  import opened SSTables
  import opened Manifests
  import opened SSTableManagers
  import opened Compactions

  /** Two puts of `key` that fill and rotate a table of one byte, and a flush thread. */
  function Filled(key: Bytes, first: byte): seq<Step> {
    [LogStep(PutOp(key, [])), ApplyStep, LogStep(PutOp(key, [first]))] + [ApplyStep, SpawnStep(0)]
  }

  lemma FillFirst(key: Bytes, first: byte) returns (s: State)
    ensures Legal(Init(1), Filled(key, first)[..3]) && s == After(Init(1), Filled(key, first)[..3])
    ensures s.mem == Mem(1, map[key := []], [], 0, 0)
    ensures s.log == Log(Records([Put(key, []), Put(key, [first])]), Attached(35 + 2 * |key|))
    ensures s.client == Logged(PutOp(key, [first]), 17 + |key|)
    ensures s.l0 == [] && s.l1 == [] && s.holder.Nobody? && s.waiting == {}
  {
    hide Legal, After, Size;
    var steps := [LogStep(PutOp(key, [])), ApplyStep, LogStep(PutOp(key, [first]))];
    assert Filled(key, first)[..3] == steps;
    FirstPut(key);
    var s2 := Next(Next(Init(1), steps[0]), ApplyStep);
    s := Next(s2, steps[2]);
    SecondLog(s2, key, first);
    ThreeSteps(Init(1), steps[0], steps[1], steps[2]);
  }

  lemma FirstPut(key: Bytes)
    ensures var s := Next(Next(Init(1), LogStep(PutOp(key, []))), ApplyStep);
            && s.mem == Mem(1, map[key := []], [], 0, 0) && s.client.Idle?
            && s.log == Log(Records([Put(key, [])]), Attached(17 + |key|))
            && s.l0 == [] && s.l1 == [] && s.holder.Nobody? && s.waiting == {}
  {
    hide Size;
    Recovery.SizeOfOne(Put(key, []));
    Recovery.LastAtConcat([], []);
    assert [Put(key, [])][..0] == [];
    assert [] + [Put(key, [])] == [Put(key, [])];
  }

  lemma SecondLog(s: State, key: Bytes, first: byte)
    requires s.client.Idle? && s.log == Log(Records([Put(key, [])]), Attached(17 + |key|))
    ensures var t := Next(s, LogStep(PutOp(key, [first])));
            && t.log == Log(Records([Put(key, []), Put(key, [first])]), Attached(35 + 2 * |key|))
            && t.client == Logged(PutOp(key, [first]), 17 + |key|)
  {
    hide Size;
    Recovery.SizeOfOne(Put(key, []));
    Recovery.SizeOfOne(Put(key, [first]));
    Recovery.LastAtConcat([], []);
    assert [Put(key, [first])][..0] == [];
    assert [Put(key, [])] + [Put(key, [first])] == [Put(key, []), Put(key, [first])];
  }

  lemma FillRun(key: Bytes, first: byte) returns (s: State)
    ensures Legal(Init(1), Filled(key, first)) && s == After(Init(1), Filled(key, first))
    ensures s.mem == Mem(1, map[], [Frozen(map[key := [first]], 17 + |key|)], 0, 0)
    ensures s.log == Log(Records([Put(key, []), Put(key, [first])]), Attached(35 + 2 * |key|))
    ensures s.l0 == [] && s.l1 == [] && s.client.Idle? && s.holder.Nobody? && s.waiting == {0}
  {
    hide Legal, After, Stack, View, Size, ValueBytes;
    var s3 := FillFirst(key, first);
    var m := MemPut(s3.mem, key, [first], 17 + |key|);
    assert map[key := []][key := [first]] == map[key := [first]];
    assert m == Mem(1, map[], [Frozen(map[key := [first]], 17 + |key|)], 0, 0);
    var s4 := Next(s3, ApplyStep);
    s := Next(s4, SpawnStep(0));
    TwoSteps(s3, ApplyStep, SpawnStep(0));
    assert Filled(key, first) == Filled(key, first)[..3] + [ApplyStep, SpawnStep(0)];
    ThenRun(Init(1), Filled(key, first)[..3], [ApplyStep, SpawnStep(0)]);
  }

  /** The run: fill and rotate, flush, then put `value`. */
  function LosingRun(key: Bytes, first: byte, value: Bytes): seq<Step> {
    (Filled(key, first) + FlushSteps(0)) + [LogStep(PutOp(key, value)), ApplyStep]
  }

  /** The first flush of an opening that shortens the log leaves the append handle on the
      replaced file: the next put is stored, acknowledged and readable, and a restart shows
      the value before it -- for every key and every value. */
  lemma {:induction false} AcknowledgedPutLost(key: Bytes, value: Bytes, first: byte)
    requires value != [first]
    ensures Legal(Init(1), LosingRun(key, first, value)) && NoCrash(LosingRun(key, first, value))
    ensures var s := After(Init(1), LosingRun(key, first, value));
            && s.client.Idle?
            && Find(Shown(s), key) == Some(value)
            && s.log.file.Records?
            && Find(Shown(Restart(s)), key) == Some([first])
            && Read(Shown(Restart(s)), key) != Read(Shown(s), key)
  {
    hide Legal, After, Stack, View, Size, MemPut, Truncated, FlushSteps, Filled, LastAt, RecordSize,
         NoCrash, Restart;
    QuietRun(key, first, value);
    var s := FillRun(key, first);
    Boundary(s.log, key, first);
    assert s.mem.frozen[0].data == map[key := [first]] && key in s.mem.frozen[0].data;
    OnBytes.FlushRun(s, 0);
    ThenRun(Init(1), Filled(key, first), FlushSteps(0));
    var t := After(s, FlushSteps(0));
    var put := LogStep(PutOp(key, value));
    TwoSteps(t, put, ApplyStep);
    ThenRun(Init(1), Filled(key, first) + FlushSteps(0), [put, ApplyStep]);
    var r := Next(Next(t, put), ApplyStep);
    MemPutView(t.mem, key, value, Next(t, put).client.offset);
    assert r.log.file == Records([Put(key, [first])]);
    LastShown(r, key, first);
  }

  lemma QuietRun(key: Bytes, first: byte, value: Bytes)
    ensures NoCrash(LosingRun(key, first, value))
  {
  }

  lemma Boundary(log: Log, key: Bytes, first: byte)
    requires log == Log(Records([Put(key, []), Put(key, [first])]), Attached(35 + 2 * |key|))
    ensures Truncated(log, 17 + |key|) == Log(Records([Put(key, [first])]), Orphan(35 + 2 * |key|, 35 + 2 * |key|))
  {
    var ops := log.file.ops;
    assert ops[..1] == [Put(key, [])];
    Recovery.SizeOfOne(Put(key, []));
    assert ops[1..] == [Put(key, [first])];
    assert From(ops[1..], 0) == Some(ops[1..]);
  }

  lemma LastShown(s: State, key: Bytes, first: byte)
    requires s.log.file == Records([Put(key, [first])])
    ensures Find(Shown(Restart(s)), key) == Some([first])
    ensures [first] != TOMBSTONE
  {
    hide EngineSteps.Levels;
    Recovery.RestartShows(s);
    Refinement.TabOne(Put(key, [first]));
  }

  /* --------------------------------------------- a store that no longer opens */

  function ThreePuts(crc: Checksum, a: Item, b: Item, c: Item): Core {
    PutCore(crc, PutCore(crc, PutCore(crc, EngineCalls.Empty(1), a.key, a.value), b.key, b.value), c.key, c.value)
  }

  function PutRecord(crc: Checksum, it: Item): Bytes {
    Record(crc, Rec(PUT, it.key, it.value))
  }

  /** A put that fills a table of one byte. */
  predicate Fills(it: Item) {
    it.value != [] && Fits(Rec(PUT, it.key, it.value))
  }

  /** Three puts that each fill the table and are each flushed: when the third record is
      one to three bytes longer than the first, the second truncation leaves that many
      bytes, and the store does not open again for any checksum -- although everything
      acknowledged is on disk. */
  lemma {:induction false} StopsOpening(crc: Checksum, a: Item, b: Item, c: Item)
    requires Fills(a) && Fills(b) && Fills(c)
    requires 1 <= |c.key| + |c.value| - (|a.key| + |a.value|) <= 3
    ensures var d := FlushTimes(ThreePuts(crc, a, b, c), 3);
            && EngineSteps.Levels(d.l0, d.l1) == Contents(d)
            && Contents(d) == map[a.key := a.value] + map[b.key := b.value] + map[c.key := c.value]
            && d.mem.frozen == []
            && Engines.Reopen(crc, d).None?
  {
    hide Record, Writable, View, Stack, Engines.Reopen, ThreePuts, Fills, FlushTimes, WAL.Truncate;
    var ra, rb, rc := PutRecord(crc, a), PutRecord(crc, b), PutRecord(crc, c);
    var ta, tb, tc := map[a.key := a.value], map[b.key := b.value], map[c.key := c.value];
    var s := ThreePuts(crc, a, b, c);
    FillingPuts(crc, a, b, c);
    OneWritable(a);
    OneWritable(b);
    OneWritable(c);
    ThreeFlushes(s, s.mem.frozen[0], s.mem.frozen[1], s.mem.frozen[2]);
    var d2 := FlushTimes(s, 2);
    FirstTwoCuts(s.wal, ra, rb + rc);
    OnBytes.CutInside(crc, d2, |ra| + |rb|);
    var d := FlushTimes(s, 3);
    assert d.wal == WAL.Truncate(d2.wal, |ra| + |rb|);
    ReopenReadsLog(crc, d, d2.(wal := d.wal));
    ThreeTables(ta, tb, tc);
    OnBytes.OnlyActive(d.mem);
    AddNone(EngineSteps.Levels(d.l0, d.l1));
  }

  lemma ReopenReadsLog(crc: Checksum, c: Core, c': Core)
    requires c.wal.log == c'.wal.log
    ensures Engines.Reopen(crc, c).None? <==> Engines.Reopen(crc, c').None?
  {
    hide ReplayFrom;
  }

  lemma FillingPut(crc: Checksum, c: Core, it: Item)
    requires Fills(it)
    requires c.mem == Mem(1, map[], c.mem.frozen, 0, 0) && !c.wal.handle.Orphan?
    requires c.wal.handle.Attached? ==> c.wal.handle.pos == |c.wal.log|
    ensures var log := c.wal.log + PutRecord(crc, it);
            PutCore(crc, c, it.key, it.value)
              == c.(wal := WAL.Wal(log, WAL.Attached(|log|)),
                    mem := c.mem.(frozen := c.mem.frozen + [Frozen(map[it.key := it.value], |c.wal.log|)]))
  {
    hide Record, Fits;
  }

  lemma FillingPuts(crc: Checksum, a: Item, b: Item, c: Item)
    requires Fills(a) && Fills(b) && Fills(c)
    ensures var ra, rb, rc := PutRecord(crc, a), PutRecord(crc, b), PutRecord(crc, c);
            var s := ThreePuts(crc, a, b, c);
            && s.wal == WAL.Wal(ra + (rb + rc), WAL.Attached(|ra + (rb + rc)|))
            && s.mem == Mem(1, map[], [Frozen(map[a.key := a.value], 0), Frozen(map[b.key := b.value], |ra|),
                                       Frozen(map[c.key := c.value], |ra| + |rb|)], 0, 0)
            && s.l0 == [] == s.l1
  {
    hide Record, Fills, PutCore;
    var ra, rb, rc := PutRecord(crc, a), PutRecord(crc, b), PutRecord(crc, c);
    var s1 := PutCore(crc, EngineCalls.Empty(1), a.key, a.value);
    FillingPut(crc, EngineCalls.Empty(1), a);
    assert s1.wal.log == ra;
    FillingPut(crc, s1, b);
    var s2 := PutCore(crc, s1, b.key, b.value);
    FillingPut(crc, s2, c);
    assert ra + rb + rc == ra + (rb + rc);
  }

  /** The first buffer's offset is 0; the second's cuts the first record off. */
  lemma FirstTwoCuts(w: WAL.Wal, first: Bytes, rest: Bytes)
    requires w.log == first + rest && first != [] && rest != []
    ensures WAL.Truncate(WAL.Truncate(w, 0), |first|).log == rest
  {
  }

  lemma OneWritable(it: Item)
    requires Fills(it)
    ensures Writable(map[it.key := it.value])
  {
    hide SortedItems, EntryBytes;
    var t := map[it.key := it.value];
    var items := SortedItems(t);
    assert t.Keys == {it.key};
    assert items == [it];
    assert DataBytes(items) == EntryBytes(it) + DataBytes(items[1..]);
  }

  lemma OneFlush(s: Core, n: nat)
    requires var c := FlushTimes(s, n); c.mem.frozen != [] && Writable(c.mem.frozen[0].data)
    ensures var c := FlushTimes(s, n);
            FlushTimes(s, n + 1) == c.(wal := WAL.Truncate(c.wal, c.mem.frozen[0].offset),
                                       mem := c.mem.(frozen := c.mem.frozen[1..]), l0 := c.l0 + [c.mem.frozen[0].data])
  {
    hide Writable, WAL.Truncate;
  }

  lemma ThreeFlushes(s: Core, a: Frozen, b: Frozen, c: Frozen)
    requires Writable(a.data) && Writable(b.data) && Writable(c.data) && s.l0 == [] && s.mem.frozen == [a, b, c]
    ensures var wal2 := WAL.Truncate(WAL.Truncate(s.wal, a.offset), b.offset);
            && FlushTimes(s, 2) == s.(wal := wal2, mem := s.mem.(frozen := [c]), l0 := [a.data, b.data])
            && FlushTimes(s, 3) == s.(wal := WAL.Truncate(wal2, c.offset), mem := s.mem.(frozen := []),
                                      l0 := [a.data, b.data, c.data])
  {
    hide Writable, WAL.Truncate, FlushTimes;
    assert FlushTimes(s, 0) == s by { NoFlush(s); }
    OneFlush(s, 0);
    assert [a, b, c][1..] == [b, c];
    OneFlush(s, 1);
    assert [b, c][1..] == [c];
    OneFlush(s, 2);
  }

  lemma NoFlush(s: Core)
    ensures FlushTimes(s, 0) == s
  {
  }

  lemma ThreeTables(a: Table, b: Table, c: Table)
    ensures EngineSteps.Levels([a, b, c], []) == a + b + c
  {
    assert [a, b, c][1..] == [b, c] && [b, c][1..] == [c] && [c][1..] == [];
    assert Stack([c]) == c + Stack([]);
    assert Stack([b, c]) == b + c;
  }

  /* ------------------------------------------------------- shared paths */

  /** Two flushes within one clock tick share a path: the second overwrites the first
      one's file, and nothing is lost if and only if every key of the first table is in
      the second or already shown below with the same value. */
  lemma {:induction false} SamePathFlush(files: map<Path, Bytes>, es: seq<Meta>, e: Meta, m: Meta, file: Bytes)
    requires m.path == e.path && e.path !in PathsOf(es) && Readable(file)
    ensures var files' := files[e.path := file];
            var first, second := FileTable(files, e.path), TableIn(file);
            (Stack(LevelTables(files', es + [e, m])) == Stack(LevelTables(files, es + [e])) + second)
              <==> forall k :: k in first && k !in second ==>
                     Find(Stack(LevelTables(files, es)), k) == Some(first[k])
  {
    hide Readable, TableIn, Stack;
    var files' := files[e.path := file];
    var first, second := FileTable(files, e.path), TableIn(file);
    var below := LevelTables(files, es);
    forall i | 0 <= i < |es| ensures FileTable(files', es[i].path) == FileTable(files, es[i].path) {
      assert es[i] in es;
    }
    assert LevelTables(files', es + [e, m]) == (below + [second]) + [second];
    assert LevelTables(files, es + [e]) == below + [first];
    StackSnoc(below, second);
    StackSnoc(below + [second], second);
    StackSnoc(below, first);
    var got, want := Stack(below) + second + second, Stack(below) + first + second;
    if got == want {
      forall k | k in first && k !in second ensures Find(Stack(below), k) == Some(first[k]) {
        assert k in want && k in got && got[k] == want[k];
      }
    }
  }

  lemma OneTable(t: Table)
    ensures Stack([t]) == t
  {
  }

  /** So a flush within the tick of the one before it loses that one's key. */
  lemma {:induction false} SamePathFlushLoses(path: Path, e: Meta, m: Meta, a: Item, b: Item)
    requires e.path == m.path == path && a.key != b.key
    requires ItemFits(a) && ItemFits(b)
    ensures var files := map[path := FileBytes([a])];
            var files' := files[path := FileBytes([b])];
            && Stack(LevelTables(files, [e])) == map[a.key := a.value]
            && Stack(LevelTables(files', [e, m])) == map[b.key := b.value]
  {
    hide Readable, TableIn, FileBytes, TableFits;
    OneFile(path, a);
    OneFile(path, b);
    var files := map[path := FileBytes([a])];
    var files' := files[path := FileBytes([b])];
    assert files' == map[path := FileBytes([b])];
    var t, u := map[a.key := a.value], map[b.key := b.value];
    assert LevelTables(files, [e]) == [t] && LevelTables(files', [e, m]) == [u, u];
    OneTable(t);
    OneTable(u);
    assert [u, u][1..] == [u];
    assert Stack([u, u]) == u + Stack([u]);
  }

  lemma OneFile(path: Path, it: Item)
    requires ItemFits(it)
    ensures FileTable(map[path := FileBytes([it])], path) == map[it.key := it.value]
  {
    hide FileBytes, Readable, TableIn, EntryBytes;
    assert DataBytes([it]) == EntryBytes(it) + DataBytes([it][1..]);
    FileRoundTrip([it]);
    assert [it][..0] == [];
    assert TableOf([it]) == TableOf([])[it.key := it.value];
  }
}
