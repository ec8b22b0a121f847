/** The transition system's record log is the log file's bytes: every engine operation on
    bytes is a run of its steps, and opening the bytes is its reopening. */
module OnBytes {
  import opened ByteStrings
  import opened Tables
  import opened MemTables
  import opened WalCodec
  import WAL = WriteAheadLog
  import opened SSTableFormat
  import opened EngineSteps
  import opened EngineRuns
  import Engines
  import Recovery

  function OpRec(op: Op): Rec {
    match op
    case Put(k, v) => Rec(PUT, k, v)
    case Delete(k) => Rec(DELETE, k, [])
  }

  function Recs(ops: seq<Op>): (rs: seq<Rec>)
    ensures |rs| == |ops|
  {
    seq(|ops|, i requires 0 <= i < |ops| => OpRec(ops[i]))
  }

  /** The bytes of a log holding the given operations. */
  function FileOf(crc: Checksum, ops: seq<Op>): Bytes {
    LogBytes(crc, Recs(ops))
  }

  ghost predicate SameHandle(a: WAL.Handle, b: EngineRuns.Handle) {
    match a
    case Closed => b.Closed?
    case Attached(p) => b == EngineRuns.Attached(p)
    case Orphan(inode, p) => b == EngineRuns.Orphan(|inode|, p)
  }

  ghost predicate SameFile(crc: Checksum, bytes: Bytes, f: File) {
    match f
    case Records(ops) => AllFit(Recs(ops)) && bytes == FileOf(crc, ops)
    case Mangled(_, size) => |bytes| == size
  }

  /** The engine's state in memory and on disk is the machine's. */
  ghost predicate Stores(crc: Checksum, c: Core, s: State) {
    && c.mem == s.mem && c.l0 == s.l0 && c.l1 == s.l1
    && SameFile(crc, c.wal.log, s.log.file)
    && SameHandle(c.wal.handle, s.log.handle)
  }

  /* ------------------------------------------------------ bytes and sizes */

  /** The fifth byte of a record says what it does: 1 stores, 2 deletes. */
  lemma {:induction false} KindBytes(crc: Checksum, op: Op)
    requires Fits(OpRec(op))
    ensures Record(crc, OpRec(op))[4] == if op.Put? then 1 else 2
  {
    hide Record;
    RecordLayout(crc, OpRec(op));
  }

  /** An entry of any other kind stores nothing; only the offset moves. */
  lemma {:induction false} OtherKindsStoreNothing(m: Mem, entries: seq<Entry>, e: Entry)
    requires e.rec.op != 1 && e.rec.op != 2
    ensures var before := Engines.ReplayInto(m, entries);
            Engines.ReplayInto(m, entries + [e]) == before.(maxOffset := Max(before.maxOffset, e.offset))
    ensures OpsFound(entries + [e]) == OpsFound(entries)
  {
    assert (entries + [e])[..|entries|] == entries;
  }

  lemma RecsConcat(a: seq<Op>, b: seq<Op>)
    ensures Recs(a + b) == Recs(a) + Recs(b)
  {
  }

  lemma FileConcat(crc: Checksum, a: seq<Op>, b: seq<Op>)
    ensures FileOf(crc, a + b) == FileOf(crc, a) + FileOf(crc, b)
  {
    hide *;
    RecsConcat(a, b);
    assert FileOf(crc, a + b) == FileOf(crc, a) + FileOf(crc, b) by {
      FileIsLog(crc, a);
      FileIsLog(crc, b);
      FileIsLog(crc, a + b);
      LogConcat(crc, Recs(a), Recs(b));
    }
  }

  lemma FileIsLog(crc: Checksum, ops: seq<Op>)
    ensures FileOf(crc, ops) == LogBytes(crc, Recs(ops))
  {
    hide LogBytes;
  }

  lemma FileOfOne(crc: Checksum, op: Op)
    ensures FileOf(crc, [op]) == Record(crc, OpRec(op))
    ensures |FileOf(crc, [op])| == RecordSize(op)
  {
    hide Record, LogBytes;
    assert Recs([op]) == [OpRec(op)];
    LogHead(crc, [OpRec(op)]);
    assert [OpRec(op)][1..] == [];
  }

  lemma {:induction false} FileOfSize(crc: Checksum, ops: seq<Op>)
    ensures |FileOf(crc, ops)| == Size(ops)
    decreases |ops|
  {
    hide LogBytes, Record;
    if ops == [] {
      FileOfNone(crc);
    } else {
      var n := |ops| - 1;
      FileOfSize(crc, ops[..n]);
      assert ops == ops[..n] + [ops[n]];
      FileConcat(crc, ops[..n], [ops[n]]);
      FileOfOne(crc, ops[n]);
    }
  }

  lemma FileOfNone(crc: Checksum)
    ensures FileOf(crc, []) == []
  {
  }

  /** Cutting the bytes where a record starts is dropping the records before it. */
  lemma {:induction false} CutBytes(crc: Checksum, ops: seq<Op>, offset: nat)
    requires From(ops, offset).Some?
    ensures offset <= |FileOf(crc, ops)|
    ensures FileOf(crc, ops)[offset..] == FileOf(crc, From(ops, offset).value)
    decreases |ops|
  {
    hide FileOf, LogBytes;
    if offset > 0 {
      CutBytes(crc, ops[1..], offset - RecordSize(ops[0]));
      assert ops == [ops[0]] + ops[1..];
      FileConcat(crc, [ops[0]], ops[1..]);
      FileOfOne(crc, ops[0]);
    }
  }

  /* -------------------------------------------------- writes on bytes */

  lemma FitConcat(a: seq<Op>, b: seq<Op>)
    requires AllFit(Recs(a)) && AllFit(Recs(b))
    ensures AllFit(Recs(a + b))
  {
    hide Fits;
    RecsConcat(a, b);
  }

  lemma SameSize(crc: Checksum, bytes: Bytes, f: File)
    requires SameFile(crc, bytes, f)
    ensures |bytes| == FileSize(f)
  {
    hide FileOf, Size, Fits;
    FileOfSize(crc, f.ops);
  }

  lemma OpenedOnBytes(crc: Checksum, w: WAL.Wal, log: Log)
    requires SameFile(crc, w.log, log.file) && SameHandle(w.handle, log.handle)
    ensures WAL.Opened(w).log == w.log && Opened(log).file == log.file
    ensures SameHandle(WAL.Opened(w).handle, Opened(log).handle)
    ensures WAL.Opened(w).handle.pos == Opened(log).handle.pos
  {
    hide FileOf, Size, Fits;
    SameSize(crc, w.log, log.file);
  }

  lemma AppendOnBytes(crc: Checksum, w: WAL.Wal, log: Log, ops: seq<Op>)
    requires SameFile(crc, w.log, log.file) && SameHandle(w.handle, log.handle)
    requires AllFit(Recs(ops)) && ops != []
    ensures SameFile(crc, WAL.AppendTo(w, FileOf(crc, ops)).log, Append(log, ops).file)
    ensures SameHandle(WAL.AppendTo(w, FileOf(crc, ops)).handle, Append(log, ops).handle)
  {
    hide FileOf, Size, Fits, Recs;
    SameSize(crc, w.log, log.file);
    FileOfSize(crc, ops);
    FileConcat(crc, log.file.ops, ops);
    if log.file.Records? {
      FitConcat(log.file.ops, ops);
    }
  }

  /** One client write as the machine takes it: log, then apply. */
  function Written(s: State, op: ClientOp): State
    requires s.client.Idle? && WellFormed(op)
  {
    Next(Next(s, LogStep(op)), ApplyStep)
  }

  lemma WrittenParts(s: State, op: ClientOp)
    requires s.client.Idle? && WellFormed(op)
    ensures Written(s, op).log == Append(s.log, OpsOf(op))
    ensures Written(s, op).mem == ApplyTo(s.mem, op, LastStart(s.log, OpsOf(op)))
    ensures Written(s, op).l0 == s.l0 && Written(s, op).l1 == s.l1 && Written(s, op).client.Idle?
    ensures Written(s, op).holder == s.holder && Written(s, op).waiting == s.waiting
    ensures Written(s, op).hist == s.hist + OpsOf(op)
  {
    hide ApplyTo, Append, LastStart, OpsOf;
  }

  lemma {:induction false} PutOnBytes(crc: Checksum, c: Core, s: State, key: Bytes, value: Bytes)
    requires Stores(crc, c, s) && s.client.Idle? && Fits(Rec(PUT, key, value))
    ensures Stores(crc, PutCore(crc, c, key, value), Written(s, PutOp(key, value)))
  {
    hide FileOf, Record, MemPut, Size, Fits, Written, Append, SameFile;
    var op := PutOp(key, value);
    WrittenParts(s, op);
    FileOfOne(crc, Put(key, value));
    assert Recs([Put(key, value)]) == [Rec(PUT, key, value)];
    assert AllFit(Recs([Put(key, value)]));
    AppendOnBytes(crc, c.wal, s.log, [Put(key, value)]);
    OpenedOnBytes(crc, c.wal, s.log);
    Recovery.LastAtConcat([], []);
    assert [Put(key, value)][..0] == [];
  }

  lemma {:induction false} DeleteOnBytes(crc: Checksum, c: Core, s: State, key: Bytes)
    requires Stores(crc, c, s) && s.client.Idle? && Fits(Rec(DELETE, key, []))
    ensures Stores(crc, DeleteCore(crc, c, key), Written(s, DeleteOp(key)))
  {
    hide FileOf, Record, MemDelete, Size, Fits, Written, Append, SameFile;
    var op := DeleteOp(key);
    WrittenParts(s, op);
    FileOfOne(crc, Delete(key));
    assert Recs([Delete(key)]) == [Rec(DELETE, key, [])];
    assert AllFit(Recs([Delete(key)]));
    AppendOnBytes(crc, c.wal, s.log, [Delete(key)]);
    OpenedOnBytes(crc, c.wal, s.log);
    Recovery.LastAtConcat([], []);
    assert [Delete(key)][..0] == [];
  }

  /** A write whose record is too long only opens the handle. */
  lemma {:induction false} RejectOnBytes(crc: Checksum, c: Core, s: State, key: Bytes, value: Bytes)
    requires Stores(crc, c, s) && s.client.Idle? && !Fits(Rec(PUT, key, value))
    ensures Stores(crc, PutCore(crc, c, key, value), Next(s, RejectStep))
  {
    hide FileOf, Record, MemPut, Size, Fits, SameFile;
    OpenedOnBytes(crc, c.wal, s.log);
  }

  lemma {:induction false} RejectDeleteOnBytes(crc: Checksum, c: Core, s: State, key: Bytes)
    requires Stores(crc, c, s) && s.client.Idle? && !Fits(Rec(DELETE, key, []))
    ensures Stores(crc, DeleteCore(crc, c, key), Next(s, RejectStep))
  {
    hide FileOf, Record, MemDelete, Size, Fits, SameFile;
    OpenedOnBytes(crc, c.wal, s.log);
  }

  lemma BatchRecords(keys: seq<Bytes>, values: seq<Bytes>)
    requires |keys| == |values|
    ensures Recs(BatchOps(keys, values)) == WAL.BatchRecs(PUT, keys, values)
    ensures keys != [] ==> Recs(BatchOps(keys, values)[..|keys| - 1]) == WAL.BatchRecs(PUT, keys, values)[..|keys| - 1]
  {
  }

  /** An empty batch is one too: it opens the handle and reports the position. */
  lemma {:induction false} BatchOnBytes(crc: Checksum, c: Core, s: State, keys: seq<Bytes>, values: seq<Bytes>)
    requires Stores(crc, c, s) && s.client.Idle?
    requires BatchOutcome(c, keys, values).Accepted?
    ensures Stores(crc, BatchCore(crc, c, keys, values),
                   Written(s, BatchOp(keys, values, Estimate(View(c.mem), keys, values))))
  {
    hide LogBytes, MemBatch, Size, Fits, Written, Estimate, View, BatchOps, SameFile, AllFit, Recs, Opened,
         WAL.WriteTo, WAL.BatchRecs, WAL.Opened;
    var op := BatchOp(keys, values, Estimate(View(c.mem), keys, values));
    var ops := BatchOps(keys, values);
    WrittenParts(s, op);
    BatchRecords(keys, values);
    OpenedOnBytes(crc, c.wal, s.log);
    if keys != [] {
      AppendOnBytes(crc, c.wal, s.log, ops);
      FileOfSize(crc, ops[..|ops| - 1]);
    }
  }

  /** A batch with an oversize record only opens the handle. */
  lemma {:induction false} RejectBatchOnBytes(crc: Checksum, c: Core, s: State, keys: seq<Bytes>, values: seq<Bytes>)
    requires Stores(crc, c, s) && s.client.Idle? && BatchOutcome(c, keys, values).RecordRejected?
    ensures Stores(crc, BatchCore(crc, c, keys, values), Next(s, RejectStep))
  {
    hide FileOf, Estimate, View, Size, AllFit, SameFile;
    OpenedOnBytes(crc, c.wal, s.log);
  }

  /* ---------------------------------------------------- flush on bytes */

  /** Truncation, at any offset: dropping whole records, or leaving bytes that are none. */
  lemma TruncateOnBytes(crc: Checksum, w: WAL.Wal, log: Log, offset: int)
    requires SameFile(crc, w.log, log.file) && SameHandle(w.handle, log.handle)
    ensures SameFile(crc, WAL.Truncate(w, offset).log, Truncated(log, offset).file)
    ensures SameHandle(WAL.Truncate(w, offset).handle, Truncated(log, offset).handle)
  {
    hide FileOf, Size, Fits, From, Dropped;
    SameSize(crc, w.log, log.file);
    FileOfSize(crc, log.file.ops);
    FileOfNone(crc);
    if 0 < offset < FileSize(log.file) && log.file.Records? && From(log.file.ops, offset).Some? {
      var rest := From(log.file.ops, offset).value;
      CutBytes(crc, log.file.ops, offset);
      Recovery.FromIsSuffix(log.file.ops, offset);
      RecsConcat(Dropped(log.file.ops, rest), rest);
    }
  }

  /** Where that run leads. */
  lemma FlushRun(s: State, t: nat)
    requires s.holder.Nobody? && t in s.waiting
    requires s.mem.frozen != [] && s.mem.frozen[0].data != map[]
    ensures Legal(s, FlushSteps(t))
    ensures var r := After(s, FlushSteps(t));
            && r.mem == ClearMem(s.mem) && r.l0 == s.l0 + [s.mem.frozen[0].data] && r.l1 == s.l1
            && r.log == Truncated(s.log, s.mem.frozen[0].offset) && r.holder.Nobody?
            && r.client == s.client && r.hist == s.hist && r.waiting == s.waiting - {t}
  {
    hide Truncated, Legal, After, Enabled, Next;
    var s3 := FlushReads(s, t);
    var s6 := FlushWrites(s3);
    assert FlushSteps(t) == [AcquireStep(t), ReadHead, ReadOffset] + [Publish, Clear, Cut];
    ThenRun(s, [AcquireStep(t), ReadHead, ReadOffset], [Publish, Clear, Cut]);
  }

  /** Taking the lock and reading the head of the queue. */
  lemma FlushReads(s: State, t: nat) returns (r: State)
    requires s.holder.Nobody? && t in s.waiting
    requires s.mem.frozen != [] && s.mem.frozen[0].data != map[]
    ensures Legal(s, [AcquireStep(t), ReadHead, ReadOffset])
    ensures r == After(s, [AcquireStep(t), ReadHead, ReadOffset])
    ensures r.mem == s.mem && r.l0 == s.l0 && r.l1 == s.l1 && r.log == s.log
    ensures r.client == s.client && r.hist == s.hist && r.waiting == s.waiting - {t}
    ensures r.holder == Held(t, Ready(s.mem.frozen[0].data, s.mem.frozen[0].offset))
  {
    var s1 := Next(s, AcquireStep(t));
    var s2 := Next(s1, ReadHead);
    r := Next(s2, ReadOffset);
    ThreeSteps(s, AcquireStep(t), ReadHead, ReadOffset);
  }

  /** Publishing it, dropping it and cutting the log. */
  lemma FlushWrites(s: State) returns (r: State)
    requires s.holder.Held? && s.holder.pc.Ready? && s.mem.frozen != []
    ensures Legal(s, [Publish, Clear, Cut])
    ensures r == After(s, [Publish, Clear, Cut])
    ensures r.mem == ClearMem(s.mem) && r.l0 == s.l0 + [s.holder.pc.buffer] && r.l1 == s.l1
    ensures r.log == Truncated(s.log, s.holder.pc.offset) && r.holder.Nobody?
    ensures r.client == s.client && r.hist == s.hist && r.waiting == s.waiting
  {
    hide Dropped, FileSize, Rest;
    var s1 := Next(s, Publish);
    var s2 := Next(s1, Clear);
    r := Next(s2, Cut);
    ThreeSteps(s, Publish, Clear, Cut);
  }

  /** The engine's `flush` is one flush thread's run through the machine, wherever the
      truncation falls. */
  lemma {:induction false} FlushOnBytes(crc: Checksum, c: Core, s: State, t: nat)
    requires Stores(crc, c, s) && s.holder.Nobody? && t in s.waiting
    requires s.mem.frozen != [] && Writable(s.mem.frozen[0].data)
    ensures Legal(s, FlushSteps(t))
    ensures Stores(crc, FlushCore(c), After(s, FlushSteps(t)))
  {
    hide Truncated, Legal, After, FlushSteps, SameFile, SortedItems, TableFits, WAL.Truncate;
    FlushRun(s, t);
    TruncateOnBytes(crc, c.wal, s.log, s.mem.frozen[0].offset);
  }

  /* ----------------------------------------------------- opening bytes */

  /** The memtable a restart builds from a log of `ops`. */
  function Recovered(maxSize: int, ops: seq<Op>): Mem {
    Mem(maxSize, Tab(ops), [], ValueBytes(Tab(ops)), LastAt(ops))
  }

  lemma {:induction false} EntriesSnoc(crc: Checksum, rs: seq<Rec>, r: Rec)
    ensures Entries(rs + [r], 0) == Entries(rs, 0) + [Entry(r, |LogBytes(crc, rs)|)]
  {
    hide Entries, LogBytes;
    var all := rs + [r];
    forall j | 0 <= j < |all| ensures Entries(all, 0)[j] == (Entries(rs, 0) + [Entry(r, |LogBytes(crc, rs)|)])[j] {
      EntryOffsets(crc, all, 0, j);
      assert all[..j] == rs[..j];
      if j < |rs| {
        EntryOffsets(crc, rs, 0, j);
      } else {
        assert rs[..j] == rs;
      }
    }
  }

  /** One more record replayed on top of a rebuilt memtable. */
  lemma RebuildOne(maxSize: int, init: seq<Op>, op: Op)
    ensures RaiseOffset(PutMem(Recovered(maxSize, init), op.key, Tables.Stored(op)), Size(init))
         == Recovered(maxSize, init + [op])
  {
    hide ValueBytes, Size, Tab;
    TabSnoc(init, op);
    ValueBytesPut(Tab(init), op.key, Tables.Stored(op));
    assert (init + [op])[..|init|] == init;
    if init != [] {
      var n := |init| - 1;
      assert init == init[..n] + [init[n]];
      Recovery.SizeConcat(init[..n], [init[n]]);
    }
  }

  lemma ReplaySnoc(m: Mem, es: seq<Entry>, op: Op, offset: nat)
    ensures Engines.ReplayInto(m, es + [Entry(OpRec(op), offset)])
         == RaiseOffset(PutMem(Engines.ReplayInto(m, es), op.key, Tables.Stored(op)), offset)
  {
    assert (es + [Entry(OpRec(op), offset)])[..|es|] == es;
  }

  /** Replaying the records of `ops` rebuilds exactly their table, sizes and offset. */
  lemma {:induction false} ReplayRebuilds(crc: Checksum, maxSize: int, ops: seq<Op>)
    ensures Engines.ReplayInto(Mem(maxSize, map[], [], 0, 0), Entries(Recs(ops), 0)) == Recovered(maxSize, ops)
    decreases |ops|
  {
    hide LogBytes, Entries, ValueBytes, Size, RaiseOffset, PutMem;
    var empty := Mem(maxSize, map[], [], 0, 0);
    if ops == [] {
      NoBytes();
      assert Entries(Recs([]), 0) == [];
    } else {
      hide Recs, Recovered, Engines.ReplayInto;
      var n := |ops| - 1;
      var init, op := ops[..n], ops[n];
      assert ops == init + [op];
      ReplayRebuilds(crc, maxSize, init);
      RecsSnoc(init, op);
      EntriesSnoc(crc, Recs(init), OpRec(op));
      FileOfSize(crc, init);
      FileIsLog(crc, init);
      ReplaySnoc(empty, Entries(Recs(init), 0), op, Size(init));
      RebuildOne(maxSize, init, op);
    }
  }

  lemma RecsSnoc(init: seq<Op>, op: Op)
    ensures Recs(init + [op]) == Recs(init) + [OpRec(op)]
  {
  }

  lemma NoBytes()
    ensures ValueBytes(map[]) == 0
  {
  }

  /** The operations a restart applies: entries of an unknown kind change nothing. */
  function OpsFound(entries: seq<Entry>): seq<Op> {
    if entries == [] then []
    else
      var before, rec := OpsFound(entries[..|entries| - 1]), entries[|entries| - 1].rec;
      if rec.op == PUT then before + [Put(rec.key, rec.value)]
      else if rec.op == DELETE then before + [Delete(rec.key)]
      else before
  }

  /** Replaying any entries builds the table, and the exact size, of the operations found. */
  lemma {:induction false} ReplayFinds(maxSize: int, entries: seq<Entry>)
    ensures var m := Engines.ReplayInto(Mem(maxSize, map[], [], 0, 0), entries);
            m.maxOffset >= 0 && m == Mem(maxSize, Tab(OpsFound(entries)), [], ValueBytes(Tab(OpsFound(entries))), m.maxOffset)
    decreases |entries|
  {
    hide ValueBytes, Tab;
    TabOfNone();
    NoBytes();
    if entries != [] {
      var n := |entries| - 1;
      ReplayFinds(maxSize, entries[..n]);
      var before, rec := OpsFound(entries[..n]), entries[n].rec;
      TabSnoc(before, Put(rec.key, rec.value));
      TabSnoc(before, Delete(rec.key));
      ValueBytesPut(Tab(before), rec.key, rec.value);
      ValueBytesPut(Tab(before), rec.key, TOMBSTONE);
    }
  }

  lemma {:induction false} RecsFound(ops: seq<Op>)
    ensures OpsFound(Entries(Recs(ops), 0)) == ops
    decreases |ops|
  {
    hide Entries;
    if ops == [] {
      assert Entries(Recs([]), 0) == [];
    } else {
      var n := |ops| - 1;
      RecsFound(ops[..n]);
      assert ops == ops[..n] + [ops[n]];
      RecsSnoc(ops[..n], ops[n]);
      EntriesSnoc(_ => 0, Recs(ops[..n]), OpRec(ops[n]));
      var es := Entries(Recs(ops), 0);
      assert es[..n] == Entries(Recs(ops[..n]), 0);
    }
  }

  /** Opening the bytes of any state the machine is in reopens the machine: it always opens
      over whole records. */
  lemma {:induction false} OpenOnBytes(crc: Checksum, c: Core, s: State)
    requires Stores(crc, c, s)
    ensures var entries := ReplayFrom(crc, c.wal.log, 0).entries;
            var found, m := OpsFound(entries), Engines.ReplayInto(Mem(c.mem.maxSize, map[], [], 0, 0), entries);
            && m.maxOffset >= 0
            && (s.log.file.Records? ==> Engines.Reopen(crc, c).Some?)
            && (match Engines.Reopen(crc, c)
                case None => true
                case Some(after) =>
                  Enabled(s, Crash(found, m.maxOffset)) && Stores(crc, after, Reopened(s, found, m.maxOffset)))
  {
    hide LogBytes, Entries, ReplayFrom, ValueBytes, Fits, Size, Tab, LastAt;
    ReplayFinds(c.mem.maxSize, ReplayFrom(crc, c.wal.log, 0).entries);
    if s.log.file.Records? {
      var ops := s.log.file.ops;
      ReplayRoundTrip(crc, Recs(ops));
      ReplayRebuilds(crc, s.mem.maxSize, ops);
      RecsFound(ops);
    }
  }

  /* --------------------------------------------- cuts inside a record */

  /** What any cut inside the file leaves, as bytes: the store opens again unless replaying
      the rest raises, and then shows the disk overlaid by what that replay finds; one to
      three bytes left never replay, whatever the checksum. */
  lemma {:induction false} CutInside(crc: Checksum, c: Core, offset: nat)
    requires 0 < offset < |c.wal.log|
    ensures var left := c.wal.log[offset..];
            var replayed := ReplayFrom(crc, left, 0);
            && (|left| < 4 ==> replayed.outcome == WalCodec.Failed)
            && var after := Engines.Reopen(crc, c.(wal := WAL.Truncate(c.wal, offset)));
            && (after.None? <==> replayed.outcome == WalCodec.Failed)
            && (after.Some? ==>
                  Contents(after.value) == EngineSteps.Levels(c.l0, c.l1) + Tab(OpsFound(replayed.entries)))
  {
    hide ReadRecord, Tab, EngineSteps.Levels, Engines.ReplayInto, OpsFound;
    var left := c.wal.log[offset..];
    if |left| < 4 {
      ShortFile(crc, left);
    }
    var entries := ReplayFrom(crc, left, 0).entries;
    ReplayFinds(c.mem.maxSize, entries);
    OnlyActive(Engines.ReplayInto(Mem(c.mem.maxSize, map[], [], 0, 0), entries));
  }

  lemma OnlyActive(m: Mem)
    requires m.frozen == []
    ensures View(m) == m.data
  {
    assert Buffers([]) == [];
  }

  lemma ShortFile(crc: Checksum, file: Bytes)
    requires 0 < |file| < 4
    ensures ReplayFrom(crc, file, 0) == Replayed([], WalCodec.Failed)
  {
    assert |ReadUpTo(file, 0, 4)| < 4;
  }

  /* --------------------------------------------------- torn appends */

  /** A crash in the middle of an append: the store reopens, with everything before that
      append, unless exactly one to three bytes of the length field were written -- then
      the replay raises and the store does not open. */
  lemma {:induction false} TornAppend(crc: Checksum, maxSize: int, ops: seq<Op>, op: Op, n: nat)
    requires AllFit(Recs(ops)) && Fits(OpRec(op))
    requires n < |Record(crc, OpRec(op))|
    ensures var replayed := ReplayFrom(crc, FileOf(crc, ops) + Record(crc, OpRec(op))[..n], 0);
            && (replayed.outcome == WalCodec.Failed <==> 1 <= n <= 3)
            && Engines.ReplayInto(Mem(maxSize, map[], [], 0, 0), replayed.entries) == Recovered(maxSize, ops)
  {
    hide LogBytes, Entries, ReplayFrom, Record, Fits, Engines.ReplayInto, Recovered;
    var file := FileOf(crc, ops) + Record(crc, OpRec(op))[..n];
    if n == 0 {
      assert file == FileOf(crc, ops);
      ReplayRoundTrip(crc, Recs(ops));
    } else {
      TornTail(crc, Recs(ops), OpRec(op), n);
    }
    ReplayRebuilds(crc, maxSize, ops);
  }

  /** A torn tail is not trimmed: whatever later openings append behind it is lost, and the
      store opens with exactly what was before the torn record, if and only if it does not
      complete that record or the checksum read across the joint is wrong. */
  lemma {:induction false} AppendBehindTornTailIsLost(crc: Checksum, maxSize: int, ops: seq<Op>, op: Op, n: nat, more: Bytes)
    requires AllFit(Recs(ops)) && Fits(OpRec(op))
    requires 4 <= n < |Record(crc, OpRec(op))|
    ensures var size, tail := |Record(crc, OpRec(op))|, Record(crc, OpRec(op))[..n] + more;
            var replayed := ReplayFrom(crc, FileOf(crc, ops) + tail, 0);
            var lost := replayed.outcome != WalCodec.Failed && |replayed.entries| == |ops|;
            && (lost <==> |tail| < size || crc(tail[4..size - 4]) != FromBigEndian(tail[size - 4..size]))
            && (lost ==> Engines.ReplayInto(Mem(maxSize, map[], [], 0, 0), replayed.entries) == Recovered(maxSize, ops))
  {
    hide LogBytes, ReplayFrom, Record, Fits, Engines.ReplayInto, Recovered, DecodePayload, FromBigEndian;
    TornRecordSwallowsIff(crc, Recs(ops), OpRec(op), n, more);
    ReplayRebuilds(crc, maxSize, ops);
  }
}
