/** The engine's operations as functions on its state as a value, and what they do to the
    contents a client reads. */
module EngineSteps {
  import opened ByteStrings
  import opened Tables
  import opened MemTables
  import opened WalCodec
  import opened WriteAheadLog
  import opened SSTableFormat

  /** `l0` and `l1` are the tables of each level, oldest first. */
  datatype Core = Core(mem: Mem, wal: Wal, l0: seq<Table>, l1: seq<Table>)

  function Levels(l0: seq<Table>, l1: seq<Table>): Table {
    Stack(l1) + Stack(l0)
  }

  /** Everything a read consults, as one table. */
  function Contents(c: Core): Table {
    Levels(c.l0, c.l1) + View(c.mem)
  }

  /* ------------------------------------------- the memory half of a write */

  /** Under one write lock: store, raise the offset, rotate if full. */
  function MemPut(m: Mem, key: Bytes, value: Bytes, offset: int): Mem {
    var stored := RaiseOffset(PutMem(m, key, value), offset);
    if IsFull(stored) then RotateMem(stored) else stored
  }

  function MemDelete(m: Mem, key: Bytes, offset: int): Mem {
    RaiseOffset(PutMem(m, key, TOMBSTONE), offset)
  }

  function PutAll(m: Mem, keys: seq<Bytes>, values: seq<Bytes>): Mem
    requires |keys| == |values|
  {
    if keys == [] then m
    else PutMem(PutAll(m, keys[..|keys| - 1], values[..|values| - 1]), keys[|keys| - 1], values[|values| - 1])
  }

  const ENTRY_OVERHEAD := 64

  /** What one entry of a batch is charged: an empty previous value counts as none. */
  function EntryEstimate(t: Table, key: Bytes, value: Bytes): int {
    if key in t && t[key] != [] then |value| + ENTRY_OVERHEAD - |t[key]|
    else |value| + ENTRY_OVERHEAD + |key|
  }

  function Estimate(t: Table, keys: seq<Bytes>, values: seq<Bytes>): int
    requires |keys| == |values|
  {
    if keys == [] then 0
    else Estimate(t, keys[..|keys| - 1], values[..|values| - 1])
           + EntryEstimate(t, keys[|keys| - 1], values[|values| - 1])
  }

  /** Rotate first if the estimate does not fit, then store the whole batch. */
  function MemBatch(m: Mem, keys: seq<Bytes>, values: seq<Bytes>, estimate: int, offset: int): Mem
    requires |keys| == |values|
  {
    var room := if m.size + estimate >= m.maxSize then RotateMem(m) else m;
    PutAll(room, keys, values).(maxOffset := offset)
  }

  /* -------------------------------------------------------- operations */

  /** A record too long for its length fields raises before anything is stored. */
  function PutCore(crc: Checksum, c: Core, key: Bytes, value: Bytes): Core {
    var r, w := Rec(PUT, key, value), Opened(c.wal);
    if Fits(r) then c.(wal := WriteTo(w, Record(crc, r)), mem := MemPut(c.mem, key, value, w.handle.pos))
    else c.(wal := w)
  }

  function DeleteCore(crc: Checksum, c: Core, key: Bytes): Core {
    var r, w := Rec(DELETE, key, []), Opened(c.wal);
    if Fits(r) then c.(wal := WriteTo(w, Record(crc, r)), mem := MemDelete(c.mem, key, w.handle.pos))
    else c.(wal := w)
  }

  datatype BatchResult = Accepted | LengthsDiffer | TooLarge | RecordRejected

  function BatchOutcome(c: Core, keys: seq<Bytes>, values: seq<Bytes>): BatchResult {
    if |keys| != |values| then LengthsDiffer
    else if Estimate(View(c.mem), keys, values) > c.mem.maxSize then TooLarge
    else if !AllFit(BatchRecs(PUT, keys, values)) then RecordRejected
    else Accepted
  }

  function BatchCore(crc: Checksum, c: Core, keys: seq<Bytes>, values: seq<Bytes>): Core {
    match BatchOutcome(c, keys, values)
    case LengthsDiffer => c
    case TooLarge => c
    case RecordRejected => c.(wal := Opened(c.wal))
    case Accepted =>
      var recs, w, estimate := BatchRecs(PUT, keys, values), Opened(c.wal), Estimate(View(c.mem), keys, values);
      var last := if recs == [] then w.handle.pos else w.handle.pos + |LogBytes(crc, recs[..|recs| - 1])|;
      c.(wal := if recs == [] then w else WriteTo(w, LogBytes(crc, recs)),
         mem := MemBatch(c.mem, keys, values, estimate, last))
  }

  /** Publish the oldest frozen buffer, drop it from memory, cut the log at its offset.
      A buffer that cannot be written out is left where it is. */
  function FlushCore(c: Core): Core {
    if c.mem.frozen == [] || !Writable(c.mem.frozen[0].data) then c
    else c.(l0 := c.l0 + [c.mem.frozen[0].data],
            mem := ClearMem(c.mem),
            wal := Truncate(c.wal, c.mem.frozen[0].offset))
  }

  /** Replace all of level 0 by its overlay on level 1, if that can be written out. */
  function CompactCore(c: Core): Core {
    if c.l0 == [] || !Writable(Stack(c.l0)) then c else c.(l0 := [], l1 := c.l1 + [Stack(c.l0)])
  }

  /* ------------------------------------------------ effect on contents */

  lemma MemPutView(m: Mem, key: Bytes, value: Bytes, offset: int)
    ensures View(MemPut(m, key, value, offset)) == View(m)[key := value]
  {
    PutView(m, key, value);
    RotateView(RaiseOffset(PutMem(m, key, value), offset));
  }

  /** The operations of a batch, in order. */
  function BatchOps(keys: seq<Bytes>, values: seq<Bytes>): (ops: seq<Op>)
    requires |keys| == |values|
    ensures |ops| == |keys|
  {
    seq(|keys|, i requires 0 <= i < |keys| => Put(keys[i], values[i]))
  }

  lemma TabOfNone()
    ensures Tab([]) == map[]
  {
  }

  lemma {:induction false} PutAllView(m: Mem, keys: seq<Bytes>, values: seq<Bytes>)
    requires |keys| == |values|
    ensures View(PutAll(m, keys, values)) == View(m) + Tab(BatchOps(keys, values))
    ensures PutAll(m, keys, values).data == m.data + Tab(BatchOps(keys, values))
    ensures PutAll(m, keys, values).frozen == m.frozen && PutAll(m, keys, values).maxSize == m.maxSize
    ensures SizeExact(m) ==> SizeExact(PutAll(m, keys, values))
    decreases |keys|
  {
    hide View, ValueBytes, Tab;
    if keys == [] {
      assert BatchOps(keys, values) == [];
      assert Tab([]) == map[] by { TabOfNone(); }
    } else {
      var n := |keys| - 1;
      PutAllView(m, keys[..n], values[..n]);
      assert BatchOps(keys, values) == BatchOps(keys[..n], values[..n]) + [Put(keys[n], values[n])];
      TabSnoc(BatchOps(keys[..n], values[..n]), Put(keys[n], values[n]));
      var before := PutAll(m, keys[..n], values[..n]);
      PutView(before, keys[n], values[n]);
      ValueBytesPut(before.data, keys[n], values[n]);
      OverlayPut(View(m), Tab(BatchOps(keys[..n], values[..n])), keys[n], values[n]);
      OverlayPut(m.data, Tab(BatchOps(keys[..n], values[..n])), keys[n], values[n]);
    }
  }

  lemma MemBatchView(m: Mem, keys: seq<Bytes>, values: seq<Bytes>, estimate: int, offset: int)
    requires |keys| == |values|
    ensures View(MemBatch(m, keys, values, estimate, offset)) == View(m) + Tab(BatchOps(keys, values))
  {
    RotateView(m);
    var room := if m.size + estimate >= m.maxSize then RotateMem(m) else m;
    PutAllView(room, keys, values);
  }

  /** Each accepted write has exactly its effect on the contents, a rejected one none: what
      does not fit is a record of 2^32 bytes or more behind its length. */
  lemma {:induction false} WritesTakeEffect(crc: Checksum, c: Core, key: Bytes, value: Bytes)
    ensures Contents(PutCore(crc, c, key, value))
         == if 13 + |key| + |value| < 0x1_0000_0000 then Contents(c)[key := value] else Contents(c)
    ensures Contents(DeleteCore(crc, c, key))
         == if 13 + |key| < 0x1_0000_0000 then Contents(c)[key := TOMBSTONE] else Contents(c)
  {
    hide View, Fits, Record, Levels, WriteTo;
    FitsIff(Rec(PUT, key, value));
    FitsIff(Rec(DELETE, key, []));
    MemPutView(c.mem, key, value, Opened(c.wal).handle.pos);
    PutView(c.mem, key, TOMBSTONE);
    RaiseView(PutMem(c.mem, key, TOMBSTONE), Opened(c.wal).handle.pos);
  }

  /** What a read answers after a put: the value, the empty one included, unless it is the
      thirteen bytes of `__TOMBSTONE__`; after a delete, nothing.  Other keys read as
      before. */
  lemma {:induction false} WritesAreReadBack(crc: Checksum, c: Core, key: Bytes, value: Bytes)
    requires 13 + |key| + |value| < 0x1_0000_0000
    ensures Read(Contents(PutCore(crc, c, key, value)), key)
         == if value == [95, 95, 84, 79, 77, 66, 83, 84, 79, 78, 69, 95, 95] then None else Some(value)
    ensures Read(Contents(DeleteCore(crc, c, key)), key) == None
    ensures forall k :: k != key ==> Read(Contents(PutCore(crc, c, key, value)), k) == Read(Contents(c), k)
    ensures forall k :: k != key ==> Read(Contents(DeleteCore(crc, c, key)), k) == Read(Contents(c), k)
  {
    hide Contents, PutCore, DeleteCore;
    WritesTakeEffect(crc, c, key, value);
  }

  lemma RaiseView(m: Mem, offset: int)
    ensures View(RaiseOffset(m, offset)) == View(m)
  {
  }

  /** A batch takes effect as a whole or not at all. */
  lemma {:induction false} BatchIsAtomic(crc: Checksum, c: Core, keys: seq<Bytes>, values: seq<Bytes>)
    ensures Contents(BatchCore(crc, c, keys, values))
         == if BatchOutcome(c, keys, values).Accepted? then Contents(c) + Tab(BatchOps(keys, values)) else Contents(c)
  {
    hide View, Levels, LogBytes, Fits, MemBatch, Estimate;
    if BatchOutcome(c, keys, values).Accepted? {
      var recs, w := BatchRecs(PUT, keys, values), Opened(c.wal);
      var last := if recs == [] then w.handle.pos else w.handle.pos + |LogBytes(crc, recs[..|recs| - 1])|;
      MemBatchView(c.mem, keys, values, Estimate(View(c.mem), keys, values), last);
    }
  }

  lemma AllFitIff(keys: seq<Bytes>, values: seq<Bytes>)
    requires |keys| == |values|
    ensures AllFit(BatchRecs(PUT, keys, values))
       <==> forall i :: 0 <= i < |keys| ==> 13 + |keys[i]| + |values[i]| < 0x1_0000_0000
  {
    hide Fits;
    var rs := BatchRecs(PUT, keys, values);
    forall i | 0 <= i < |keys| ensures rs[i] in rs && (Fits(rs[i]) <==> 13 + |keys[i]| + |values[i]| < 0x1_0000_0000) {
      FitsIff(rs[i]);
    }
  }

  /** Which batches are stored, and what happens to the others: with lists of one length,
      everything is stored exactly when the estimate is at most the limit and every record
      fits; above the limit nothing changes at all, and an oversize record only opens the
      log. */
  lemma {:induction false} BatchAcceptedIff(crc: Checksum, c: Core, keys: seq<Bytes>, values: seq<Bytes>)
    requires |keys| == |values|
    ensures var fit := forall i :: 0 <= i < |keys| ==> 13 + |keys[i]| + |values[i]| < 0x1_0000_0000;
            var after := BatchCore(crc, c, keys, values);
            && (Estimate(View(c.mem), keys, values) > c.mem.maxSize ==> after == c)
            && (Estimate(View(c.mem), keys, values) <= c.mem.maxSize && !fit ==> after == c.(wal := Opened(c.wal)))
            && (Estimate(View(c.mem), keys, values) <= c.mem.maxSize && fit ==>
                  Contents(after) == Contents(c) + Tab(BatchOps(keys, values)))
  {
    hide View, Contents, LogBytes, AllFit, MemBatch, Estimate, Tab, BatchOps;
    AllFitIff(keys, values);
    BatchIsAtomic(crc, c, keys, values);
  }

  /** The bytes of keys and values, and 64 for each entry. */
  function FullCharge(keys: seq<Bytes>, values: seq<Bytes>): nat
    requires |keys| == |values|
  {
    if keys == [] then 0 else |keys[0]| + |values[0]| + 64 + FullCharge(keys[1..], values[1..])
  }

  lemma {:induction false} FullChargeSnoc(keys: seq<Bytes>, values: seq<Bytes>)
    requires |keys| == |values| && keys != []
    ensures var n := |keys| - 1;
            FullCharge(keys, values) == FullCharge(keys[..n], values[..n]) + |keys[n]| + |values[n]| + 64
    decreases |keys|
  {
    var n := |keys| - 1;
    if n > 0 {
      FullChargeSnoc(keys[1..], values[1..]);
      assert keys[1..][..n - 1] == keys[..n][1..] && values[1..][..n - 1] == values[..n][1..];
    }
  }

  lemma {:induction false} EstimateOfNewKeys(t: Table, keys: seq<Bytes>, values: seq<Bytes>)
    requires |keys| == |values|
    requires forall i :: 0 <= i < |keys| ==> keys[i] !in t
    ensures Estimate(t, keys, values) == FullCharge(keys, values)
    decreases |keys|
  {
    if keys != [] {
      FullChargeSnoc(keys, values);
      EstimateOfNewKeys(t, keys[..|keys| - 1], values[..|keys| - 1]);
    }
  }

  /** A batch of fitting records for keys not in memory is stored if their bytes and 64 for
      each entry are within the limit, and changes nothing otherwise. */
  lemma {:induction false} NewKeysAcceptedIff(crc: Checksum, c: Core, keys: seq<Bytes>, values: seq<Bytes>)
    requires |keys| == |values|
    requires forall i :: 0 <= i < |keys| ==> keys[i] !in View(c.mem) && 13 + |keys[i]| + |values[i]| < 0x1_0000_0000
    ensures if FullCharge(keys, values) <= c.mem.maxSize
            then Contents(BatchCore(crc, c, keys, values)) == Contents(c) + Tab(BatchOps(keys, values))
            else BatchCore(crc, c, keys, values) == c
  {
    hide View, Contents, BatchCore, Estimate, Tab, BatchOps, FullCharge;
    EstimateOfNewKeys(View(c.mem), keys, values);
    BatchAcceptedIff(crc, c, keys, values);
  }

  /** Overwriting a key that memory holds: its current value is set off, unless it is
      empty, when the key is charged again. */
  lemma {:induction false} OverwriteAcceptedIff(crc: Checksum, c: Core, key: Bytes, value: Bytes)
    requires key in View(c.mem) && 13 + |key| + |value| < 0x1_0000_0000
    ensures var current, after := View(c.mem)[key], BatchCore(crc, c, [key], [value]);
            if |value| + 64 + (if current == [] then |key| else -|current|) <= c.mem.maxSize
            then Contents(after) == Contents(c)[key := value]
            else after == c
  {
    hide View, Contents, BatchCore, Tab;
    OneEntry(c.mem, key, value);
    BatchAcceptedIff(crc, c, [key], [value]);
    assert BatchOps([key], [value]) == [] + [Put(key, value)];
    TabSnoc([], Put(key, value));
    TabOfNone();
  }

  lemma Regroup(a: Table, b: Table, c: Table, d: Table)
    ensures a + (b + c) + d == a + b + (c + d)
  {
  }

  /** Moving the oldest buffer to disk changes nothing a client reads. */
  lemma {:induction false} FlushPreservesContents(c: Core)
    ensures Contents(FlushCore(c)) == Contents(c)
  {
    hide View, ClearMem, Stack, Truncate, Writable;
    if c.mem.frozen != [] {
      StackSnoc(c.l0, c.mem.frozen[0].data);
      ClearView(c.mem);
      Regroup(Stack(c.l1), Stack(c.l0), c.mem.frozen[0].data, View(ClearMem(c.mem)));
    }
  }

  /* ------------------------------------------------------ memory bounds */

  function Overhead(keys: seq<Bytes>): nat {
    if keys == [] then 0 else Overhead(keys[..|keys| - 1]) + ENTRY_OVERHEAD + |keys[|keys| - 1]|
  }

  /** A put leaves the active table exactly counted and below its limit: it freezes the
      table, with the entry in it, if and only if the values then reach the limit. */
  lemma {:induction false} PutBounds(m: Mem, key: Bytes, value: Bytes, offset: int)
    requires SizeExact(m) && m.maxSize > 0
    ensures var m', data := MemPut(m, key, value, offset), m.data[key := value];
            && SizeExact(m') && m'.size < m'.maxSize
            && (if ValueBytes(data) >= m.maxSize
                then m'.frozen == m.frozen + [Frozen(data, Max(m.maxOffset, offset))] && m'.data == map[] && m'.maxOffset == 0
                else m'.frozen == m.frozen && m'.data == data && m'.maxOffset == Max(m.maxOffset, offset))
  {
    ValueBytesPut(m.data, key, value);
  }

  /** A delete never freezes the table, however full: it only stores the marker. */
  lemma {:induction false} DeleteNeverRotates(m: Mem, key: Bytes, offset: int)
    requires SizeExact(m)
    ensures var m' := MemDelete(m, key, offset);
            && SizeExact(m') && m'.frozen == m.frozen && m'.data == m.data[key := TOMBSTONE]
            && m'.maxOffset == Max(m.maxOffset, offset)
  {
    ValueBytesPut(m.data, key, TOMBSTONE);
  }

  /** What an estimate charges beyond the bytes a batch adds. */
  function Charge(t: Table, keys: seq<Bytes>): nat {
    if keys == [] then 0
    else
      var key := keys[|keys| - 1];
      Charge(t, keys[..|keys| - 1]) + ENTRY_OVERHEAD + if key in t && t[key] != [] then 0 else |key|
  }

  function ValueLen(t: Table, key: Bytes): nat {
    if key in t then |t[key]| else 0
  }

  /** The bytes of values an estimate takes as replaced although they are not in the table
      written to. */
  function Credit(view: Table, written: Table, keys: seq<Bytes>): nat {
    if keys == [] then 0
    else
      var key := keys[|keys| - 1];
      Credit(view, written, keys[..|keys| - 1]) + if key in written then 0 else ValueLen(view, key)
  }

  /** What later entries of a batch replace of its earlier ones, beyond what each would
      have replaced alone. */
  function Repeats(written: Table, keys: seq<Bytes>, values: seq<Bytes>): int
    requires |keys| == |values|
  {
    if keys == [] then 0
    else
      var n, key := |keys| - 1, keys[|keys| - 1];
      Repeats(written, keys[..n], values[..n])
        + ValueLen(written + Tab(BatchOps(keys[..n], values[..n])), key) - ValueLen(written, key)
  }

  /** Storing a batch: the bytes added are the estimate without its charge, plus the credit,
      less the repeats, for any table written to that the view shows on top. */
  lemma {:induction false} PutAllSize(m: Mem, view: Table, keys: seq<Bytes>, values: seq<Bytes>)
    requires |keys| == |values|
    requires forall k :: k in m.data ==> k in view && view[k] == m.data[k]
    ensures PutAll(m, keys, values).size
         == m.size + Estimate(view, keys, values) - Charge(view, keys) + Credit(view, m.data, keys) - Repeats(m.data, keys, values)
    decreases |keys|
  {
    hide Tab, BatchOps;
    if keys != [] {
      var n := |keys| - 1;
      PutAllSize(m, view, keys[..n], values[..n]);
      PutAllView(m, keys[..n], values[..n]);
    }
  }

  predicate Distinct(keys: seq<Bytes>) {
    forall i, j :: 0 <= i < j < |keys| ==> keys[i] != keys[j]
  }

  lemma {:induction false} DistinctRepeatNothing(written: Table, keys: seq<Bytes>, values: seq<Bytes>)
    requires |keys| == |values| && Distinct(keys)
    ensures Repeats(written, keys, values) == 0
    decreases |keys|
  {
    if keys != [] {
      var n := |keys| - 1;
      DistinctRepeatNothing(written, keys[..n], values[..n]);
      var before := BatchOps(keys[..n], values[..n]);
      if keys[n] in Tab(before) {
        TabHasKey(before, keys[n]);
      }
    }
  }

  lemma {:induction false} TabHasKey(ops: seq<Op>, k: Bytes)
    requires k in Tab(ops)
    ensures exists i :: 0 <= i < |ops| && ops[i].key == k
    decreases |ops|
  {
    var n := |ops| - 1;
    if ops[n].key != k {
      TabHasKey(ops[..n], k);
      var i :| 0 <= i < n && ops[..n][i].key == k;
      assert ops[i].key == k;
    }
  }

  /** A batch rotates first exactly when the estimate does not leave room. */
  predicate Rotates(m: Mem, keys: seq<Bytes>, values: seq<Bytes>)
    requires |keys| == |values|
  {
    m.size + Estimate(View(m), keys, values) >= m.maxSize
  }

  /** The size of the active table after a batch, from what is known before it. */
  function SizeAfter(m: Mem, keys: seq<Bytes>, values: seq<Bytes>): int
    requires |keys| == |values|
  {
    var written := if Rotates(m, keys, values) then map[] else m.data;
    (if Rotates(m, keys, values) then 0 else m.size)
      + Estimate(View(m), keys, values) - Charge(View(m), keys)
      + Credit(View(m), written, keys) - Repeats(written, keys, values)
  }

  /** A batch leaves the active table full if and only if what it held, the estimate without
      its charge, and the credit for values kept elsewhere, less the repeats, reach the
      limit; distinct keys have no repeats. */
  lemma {:induction false} BatchFullIff(m: Mem, keys: seq<Bytes>, values: seq<Bytes>, offset: int)
    requires |keys| == |values|
    ensures var m' := MemBatch(m, keys, values, Estimate(View(m), keys, values), offset);
            && m'.size == SizeAfter(m, keys, values) && m'.maxOffset == offset
            && (IsFull(m') <==> SizeAfter(m, keys, values) >= m.maxSize)
    ensures Distinct(keys) ==> Repeats(map[], keys, values) == 0 == Repeats(m.data, keys, values)
  {
    hide View, Estimate, Charge, Credit, Repeats, Tab, BatchOps;
    var room := if Rotates(m, keys, values) then RotateMem(m) else m;
    forall k | k in room.data ensures k in View(m) && View(m)[k] == room.data[k] {
      ActiveOnTop(m, k);
    }
    PutAllSize(room, View(m), keys, values);
    PutAllView(room, keys, values);
    if Distinct(keys) {
      DistinctRepeatNothing(map[], keys, values);
      DistinctRepeatNothing(m.data, keys, values);
    }
  }

  lemma ActiveOnTop(m: Mem, key: Bytes)
    ensures key in m.data ==> key in View(m) && View(m)[key] == m.data[key]
  {
  }

  lemma {:induction false} NoCredit(view: Table, written: Table, keys: seq<Bytes>)
    requires forall i :: 0 <= i < |keys| && keys[i] in view ==> keys[i] in written
    ensures Credit(view, written, keys) == 0
    ensures (forall i :: 0 <= i < |keys| ==> keys[i] !in view) ==> Charge(view, keys) == Overhead(keys)
    decreases |keys|
  {
    if keys != [] {
      NoCredit(view, written, keys[..|keys| - 1]);
    }
  }

  lemma {:induction false} RepeatsOfNew(written: Table, keys: seq<Bytes>, values: seq<Bytes>)
    requires |keys| == |values|
    requires forall i :: 0 <= i < |keys| ==> keys[i] !in written
    ensures Repeats(written, keys, values) >= 0
    decreases |keys|
  {
    if keys != [] {
      RepeatsOfNew(written, keys[..|keys| - 1], values[..|keys| - 1]);
    }
  }

  /** After an accepted batch of keys new to the memtable, values and overhead together
      stay within the limit, whether it rotated or not and however keys repeat. */
  lemma {:induction false} BatchBound(m: Mem, keys: seq<Bytes>, values: seq<Bytes>, offset: int)
    requires |keys| == |values| && SizeExact(m)
    requires forall i :: 0 <= i < |keys| ==> keys[i] !in View(m)
    requires Estimate(View(m), keys, values) <= m.maxSize
    ensures var m' := MemBatch(m, keys, values, Estimate(View(m), keys, values), offset);
            SizeExact(m') && m'.size + Overhead(keys) <= m'.maxSize
  {
    hide View, Estimate, Charge, Credit, Repeats;
    var room := if Rotates(m, keys, values) then RotateMem(m) else m;
    BatchFullIff(m, keys, values, offset);
    NoCredit(View(m), room.data, keys);
    forall i | 0 <= i < |keys| ensures keys[i] !in room.data {
      ActiveOnTop(m, keys[i]);
    }
    RepeatsOfNew(room.data, keys, values);
    PutAllView(room, keys, values);
  }

  /** For distinct keys whose current values are all in the active table, or that are new,
      the estimate is exactly the bytes added plus the charge. */
  lemma {:induction false} EstimateIsGrowth(m: Mem, keys: seq<Bytes>, values: seq<Bytes>)
    requires |keys| == |values| && Distinct(keys)
    requires forall i :: 0 <= i < |keys| && keys[i] in View(m) ==> keys[i] in m.data
    ensures PutAll(m, keys, values).size + Charge(View(m), keys) == m.size + Estimate(View(m), keys, values)
  {
    hide View, Estimate, Charge, Credit, Repeats;
    forall k | k in m.data ensures k in View(m) && View(m)[k] == m.data[k] {
      ActiveOnTop(m, k);
    }
    PutAllSize(m, View(m), keys, values);
    NoCredit(View(m), m.data, keys);
    DistinctRepeatNothing(m.data, keys, values);
  }

  /** The credit is real: an accepted entry that overwrites a value already frozen can fill
      the active table to its limit without rotating... */
  lemma {:induction false} BatchCanOverfill(m: Mem, key: Bytes, frozen: Bytes, value: Bytes, offset: int)
    requires m == Mem(m.maxSize, map[], [Frozen(map[key := frozen], 0)], 0, 0)
    requires |frozen| == |value| == m.maxSize > ENTRY_OVERHEAD
    ensures Estimate(View(m), [key], [value]) < m.maxSize
    ensures var m' := MemBatch(m, [key], [value], Estimate(View(m), [key], [value]), offset);
            m'.size == m'.maxSize && m'.frozen == m.frozen && IsFull(m')
  {
    assert Buffers(m.frozen) == [map[key := frozen]];
    assert Stack([map[key := frozen]]) == map[key := frozen] + Stack([]);
    assert View(m) == map[key := frozen];
    OneEntry(m, key, value);
  }

  /** ... and one that overwrites a value of the active table, which is then rotated away,
      can go past it by almost the size of that value. */
  lemma {:induction false} BatchCanOverfillRotated(m: Mem, key: Bytes, active: Bytes, value: Bytes, offset: int)
    requires m == Mem(m.maxSize, map[key := active], [], |active|, m.maxOffset)
    requires active != [] && m.maxSize < |value| <= m.maxSize + |active| - ENTRY_OVERHEAD
    ensures Estimate(View(m), [key], [value]) <= m.maxSize
    ensures var m' := MemBatch(m, [key], [value], Estimate(View(m), [key], [value]), offset);
            m'.size == |value| > m'.maxSize && m'.frozen == [Frozen(m.data, m.maxOffset)]
  {
    assert Buffers(m.frozen) == [];
    assert View(m) == map[key := active];
    OneEntry(m, key, value);
    OneEntry(RotateMem(m), key, value);
  }

  lemma OneEntry(m: Mem, key: Bytes, value: Bytes)
    ensures Estimate(View(m), [key], [value]) == EntryEstimate(View(m), key, value)
    ensures PutAll(m, [key], [value]) == PutMem(m, key, value)
  {
    hide View;
    assert Estimate(View(m), [key], [value]) == Estimate(View(m), [], []) + EntryEstimate(View(m), key, value);
    assert PutAll(m, [key], [value]) == PutMem(PutAll(m, [], []), key, value);
  }

  /** A batch freezes an empty buffer exactly when the active table is empty and the
      estimate is all the room there is. */
  lemma {:induction false} BatchFreezesEmpty(m: Mem, keys: seq<Bytes>, values: seq<Bytes>, estimate: int, offset: int)
    requires |keys| == |values| && SizeExact(m) && estimate <= m.maxSize
    requires forall f :: f in m.frozen ==> f.data != map[]
    ensures (exists f :: f in MemBatch(m, keys, values, estimate, offset).frozen && f.data == map[])
       <==> m.data == map[] && estimate == m.maxSize
  {
    var room := if m.size + estimate >= m.maxSize then RotateMem(m) else m;
    PutAllView(room, keys, values);
    var frozen := MemBatch(m, keys, values, estimate, offset).frozen;
    assert frozen == room.frozen;
    if m.data == map[] && estimate == m.maxSize {
      assert frozen[|frozen| - 1].data == map[] && frozen[|frozen| - 1] in frozen;
    }
    forall f | f in frozen && f.data == map[] ensures m.data == map[] && estimate == m.maxSize {
      assert f == Frozen(m.data, m.maxOffset);
    }
  }

  /* -------------------------------------------------------- flush_all */

  function FlushTimes(c: Core, n: nat): Core {
    if n == 0 then c else FlushCore(FlushTimes(c, n - 1))
  }

  /** Flushing an empty queue changes nothing. */
  lemma {:induction false} FlushTimesIdle(c: Core, n: nat, more: nat)
    requires n <= more && (FlushTimes(c, n).mem.frozen == [] || n == more)
    ensures FlushTimes(c, more) == FlushTimes(c, n)
    decreases more
  {
    hide Writable, Truncate;
    if n < more {
      FlushTimesIdle(c, n, more - 1);
    }
  }

  lemma {:induction false} FlushTimesDrains(c: Core, n: nat)
    requires n <= |c.mem.frozen|
    requires forall i :: 0 <= i < n ==> Writable(c.mem.frozen[i].data)
    ensures FlushTimes(c, n).mem.frozen == c.mem.frozen[n..]
    ensures FlushTimes(c, n).l0 == c.l0 + Buffers(c.mem.frozen[..n])
    decreases n
  {
    hide Writable;
    if n > 0 {
      FlushTimesDrains(c, n - 1);
      assert Buffers(c.mem.frozen[..n]) == Buffers(c.mem.frozen[..n - 1]) + [c.mem.frozen[n - 1].data];
    } else {
      assert Buffers(c.mem.frozen[..0]) == [];
    }
  }

  lemma {:induction false} FlushTimesSticks(c: Core, i: nat, n: nat)
    requires i < |c.mem.frozen| && !Writable(c.mem.frozen[i].data)
    requires forall j :: 0 <= j < i ==> Writable(c.mem.frozen[j].data)
    ensures FlushTimes(c, n).mem.frozen != []
    decreases n
  {
    hide Writable, FlushTimes;
    if n <= i {
      FlushTimesDrains(c, n);
    } else {
      FlushTimesStuck(c, i, n);
    }
  }

  lemma {:induction false} FlushTimesStuck(c: Core, i: nat, n: nat)
    requires i < |c.mem.frozen| && !Writable(c.mem.frozen[i].data) && i <= n
    requires forall j :: 0 <= j < i ==> Writable(c.mem.frozen[j].data)
    ensures FlushTimes(c, n).mem.frozen == c.mem.frozen[i..]
    decreases n
  {
    hide Writable, Truncate;
    if n == i {
      FlushTimesDrains(c, n);
    } else {
      FlushTimesStuck(c, i, n - 1);
    }
  }

  lemma {:induction false} FirstStuck(q: seq<Frozen>) returns (i: nat)
    requires exists f :: f in q && !Writable(f.data)
    ensures i < |q| && !Writable(q[i].data)
    ensures forall j :: 0 <= j < i ==> Writable(q[j].data)
    decreases |q|
  {
    hide Writable;
    if !Writable(q[0].data) {
      i := 0;
    } else {
      var f :| f in q && !Writable(f.data);
      assert q == [q[0]] + q[1..];
      assert f in q[1..];
      var k := FirstStuck(q[1..]);
      i := k + 1;
    }
  }

  /** `flush_all` reaches an empty queue if and only if every frozen buffer can be written;
      one that is empty or does not fit its file, at any depth, keeps it, and everything
      behind it, in memory forever. */
  lemma {:induction false} FlushAllTerminatesIff(c: Core)
    ensures (exists n :: FlushTimes(c, n).mem.frozen == []) <==> forall f :: f in c.mem.frozen ==> Writable(f.data)
  {
    hide Writable, FlushTimes;
    if forall f :: f in c.mem.frozen ==> Writable(f.data) {
      FlushTimesDrains(c, |c.mem.frozen|);
      assert FlushTimes(c, |c.mem.frozen|).mem.frozen == [];
    } else {
      var i := FirstStuck(c.mem.frozen);
      forall n ensures FlushTimes(c, n).mem.frozen != [] {
        FlushTimesSticks(c, i, n);
      }
    }
  }
}
