/** The in-memory write buffer: an active table, a queue of frozen tables waiting to be
    flushed, byte accounting and the log offset each buffer was filled up to. */
module MemTables {
  import opened ByteStrings
  import opened Tables

  datatype Frozen = Frozen(data: Table, offset: int)

  /** The memtable as a value; `frozen` is oldest first. */
  datatype Mem = Mem(maxSize: int, data: Table, frozen: seq<Frozen>, size: int, maxOffset: int)

  function Buffers(q: seq<Frozen>): (ts: seq<Table>)
    ensures |ts| == |q|
  {
    seq(|q|, i requires 0 <= i < |q| => q[i].data)
  }

  /** What a reader of the memtable sees. */
  function View(m: Mem): Table {
    Stack(Buffers(m.frozen)) + m.data
  }

  function PutMem(m: Mem, key: Bytes, value: Bytes): Mem {
    m.(data := m.data[key := value],
       size := (if key in m.data then m.size - |m.data[key]| else m.size) + |value|)
  }

  function RotateMem(m: Mem): Mem {
    m.(data := map[], frozen := m.frozen + [Frozen(m.data, m.maxOffset)], size := 0, maxOffset := 0)
  }

  function ClearMem(m: Mem): Mem {
    if m.frozen == [] then m else m.(frozen := m.frozen[1..])
  }

  function Max(a: int, b: int): int {
    if a >= b then a else b
  }

  function RaiseOffset(m: Mem, offset: int): Mem {
    m.(maxOffset := Max(m.maxOffset, offset))
  }

  predicate IsFull(m: Mem) {
    m.size >= m.maxSize
  }

  /* ------------------------------------------------- what readers see */

  lemma PutView(m: Mem, key: Bytes, value: Bytes)
    ensures View(PutMem(m, key, value)) == View(m)[key := value]
  {
  }

  lemma RotateView(m: Mem)
    ensures View(RotateMem(m)) == View(m)
  {
    assert Buffers(RotateMem(m).frozen) == Buffers(m.frozen) + [m.data];
    StackSnoc(Buffers(m.frozen), m.data);
  }

  /** Popping the head leaves the overlay of everything behind it. */
  lemma {:induction false} ClearView(m: Mem)
    requires m.frozen != []
    ensures View(m) == m.frozen[0].data + View(ClearMem(m))
  {
    assert Buffers(m.frozen)[1..] == Buffers(m.frozen[1..]);
  }

  /* ------------------------------------------------- size accounting */

  /** The bytes of all values in a table. */
  function ValueBytes(t: Table): nat
    decreases |t.Keys|
  {
    if t == map[] then 0
    else
      var k := Least(t.Keys);
      |t[k]| + ValueBytes(t - {k})
  }

  lemma {:induction false} ValueBytesRemove(t: Table, k: Bytes)
    requires k in t
    ensures ValueBytes(t) == |t[k]| + ValueBytes(t - {k})
    decreases |t.Keys|
  {
    var m := Least(t.Keys);
    if m != k {
      ValueBytesRemove(t - {m}, k);
      assert t - {m} - {k} == t - {k} - {m};
      var u := t - {k};
      ValueBytesRemove(u, m);
    }
  }

  lemma {:induction false} ValueBytesPut(t: Table, k: Bytes, v: Bytes)
    ensures ValueBytes(t[k := v]) == (if k in t then ValueBytes(t) - |t[k]| else ValueBytes(t)) + |v|
  {
    ValueBytesRemove(t[k := v], k);
    assert t[k := v] - {k} == t - {k};
    if k in t {
      ValueBytesRemove(t, k);
    } else {
      assert t - {k} == t;
    }
  }

  /** The counter is exact. */
  ghost predicate SizeExact(m: Mem) {
    m.size == ValueBytes(m.data)
  }

  /* ------------------------------------------------- the class */

  /** The part of a table inside [start, end). */
  function Slice(t: Table, start: Bytes, end: Bytes): Table {
    map k | k in t && Le(start, k) && Lt(k, end) :: t[k]
  }

  lemma SlicePut(t: Table, k: Bytes, v: Bytes, start: Bytes, end: Bytes)
    requires k in t ==> t[k] == v
    ensures Slice(t[k := v], start, end)
         == if Le(start, k) && Lt(k, end) then Slice(t, start, end)[k := v] else Slice(t, start, end)
  {
    hide Lt;
  }

  /** The entries of a table under the first `i` of a listing of its keys. */
  ghost function Part(t: Table, ks: seq<Bytes>, i: nat): Table
    requires i <= |ks|
  {
    map k | k in ks[..i] && k in t :: t[k]
  }

  lemma PartEnds(t: Table, ks: seq<Bytes>, start: Bytes, end: Bytes)
    requires forall k :: k in ks <==> k in t
    ensures Slice(Part(t, ks, 0), start, end) == map[]
    ensures Part(t, ks, |ks|) == t
  {
    assert ks[..|ks|] == ks;
  }

  lemma PartStep(t: Table, ks: seq<Bytes>, i: nat, start: Bytes, end: Bytes)
    requires i < |ks| && forall k :: k in ks <==> k in t
    ensures ks[i] in t
    ensures Slice(Part(t, ks, i + 1), start, end)
         == if Le(start, ks[i]) && Lt(ks[i], end) then Slice(Part(t, ks, i), start, end)[ks[i] := t[ks[i]]]
            else Slice(Part(t, ks, i), start, end)
  {
    hide Lt;
    assert ks[i] in ks;
    assert ks[..i + 1] == ks[..i] + [ks[i]];
    assert Part(t, ks, i + 1) == Part(t, ks, i)[ks[i] := t[ks[i]]];
    SlicePut(Part(t, ks, i), ks[i], t[ks[i]], start, end);
  }

  /** Past the first key at or above `end` nothing of a sorted table is in the range. */
  lemma SliceStops(t: Table, ks: seq<Bytes>, i: nat, start: Bytes, end: Bytes)
    requires StrictlySorted(ks) && forall k :: k in ks <==> k in t
    requires i < |ks| && Le(end, ks[i])
    ensures Slice(Part(t, ks, i), start, end) == Slice(t, start, end)
  {
    hide Lt;
    LtIsTotalOrder();
    forall k | k in t && Lt(k, end) ensures k in Part(t, ks, i) {
      var j :| 0 <= j < |ks| && ks[j] == k;
      assert j < i;
      assert ks[..i][j] == k;
    }
  }

  lemma SliceEmpty(start: Bytes, end: Bytes)
    ensures Slice(map[], start, end) == map[]
  {
  }

  lemma SliceOverlay(older: Table, newer: Table, start: Bytes, end: Bytes)
    ensures Slice(older + newer, start, end) == Slice(older, start, end) + Slice(newer, start, end)
  {
    hide Lt;
  }

  class MemTable {
    const maxSize: int
    var data: Table
    var frozenQueue: seq<Frozen>
    var currentSize: int
    var maxWalOffset: int

    function Value(): (m: Mem)
      reads this
    {
      Mem(maxSize, data, frozenQueue, currentSize, maxWalOffset)
    }

    ghost predicate Valid()
      reads this
    {
      SizeExact(Value())
    }

    constructor (maxSize: int)
      ensures Valid()
      ensures Value() == Mem(maxSize, map[], [], 0, 0)
    {
      this.maxSize := maxSize;
      data, frozenQueue, currentSize, maxWalOffset := map[], [], 0, 0;
    }

    method PutUnlocked(key: Bytes, value: Bytes)
      requires Valid()
      modifies this
      ensures Valid()
      ensures Value() == PutMem(old(Value()), key, value)
      ensures View(Value()) == old(View(Value()))[key := value]
    {
      hide ValueBytes, View;
      ValueBytesPut(data, key, value);
      PutView(Value(), key, value);
      if key in data {
        currentSize := currentSize - |data[key]|;
      }
      data := data[key := value];
      currentSize := currentSize + |value|;
    }

    /** A delete stores the tombstone. */
    method Delete(key: Bytes)
      requires Valid()
      modifies this
      ensures Valid()
      ensures Value() == PutMem(old(Value()), key, TOMBSTONE)
      ensures Read(View(Value()), key) == None
    {
      PutUnlocked(key, TOMBSTONE);
    }

    method Get(key: Bytes) returns (value: Option<Bytes>)
      ensures value == Find(View(Value()), key)
    {
      if key in data {
        return Some(data[key]);
      }
      var i := |frozenQueue|;
      assert Buffers(frozenQueue[i..]) == [];
      while i > 0
        invariant 0 <= i <= |frozenQueue|
        invariant key !in Stack(Buffers(frozenQueue[i..]))
      {
        i := i - 1;
        assert Buffers(frozenQueue) == Buffers(frozenQueue[..i]) + Buffers(frozenQueue[i..]);
        StackConcat(Buffers(frozenQueue[..i]), Buffers(frozenQueue[i..]));
        assert Buffers(frozenQueue[i..])[1..] == Buffers(frozenQueue[i + 1..]);
        if key in frozenQueue[i].data {
          return Some(frozenQueue[i].data[key]);
        }
      }
      assert frozenQueue[0..] == frozenQueue;
      return None;
    }

    method SetMaxWalOffset(offset: int)
      requires Valid()
      modifies this
      ensures Valid()
      ensures Value() == RaiseOffset(old(Value()), offset)
    {
      maxWalOffset := Max(maxWalOffset, offset);
    }

    method RotateUnlocked()
      modifies this
      ensures Valid()
      ensures Value() == RotateMem(old(Value()))
      ensures View(Value()) == old(View(Value()))
    {
      RotateView(Value());
      frozenQueue := frozenQueue + [Frozen(data, maxWalOffset)];
      data := map[];
      currentSize := 0;
      maxWalOffset := 0;
    }

    method ClearFrozen()
      requires Valid()
      modifies this
      ensures Valid()
      ensures Value() == ClearMem(old(Value()))
    {
      if frozenQueue != [] {
        frozenQueue := frozenQueue[1..];
      }
    }

    /** The keys of one buffer in sorted order, stopping past the end of the range. */
    static method AddSlice(acc: Table, t: Table, start: Bytes, end: Bytes) returns (result: Table)
      ensures result == acc + Slice(t, start, end)
    {
      hide Lt, Le, Slice, SortedKeys, Part;
      result := acc;
      var ks := SortedKeys(t.Keys);
      PartEnds(t, ks, start, end);
      var i := 0;
      while i < |ks|
        invariant 0 <= i <= |ks|
        invariant result == acc + Slice(Part(t, ks, i), start, end)
      {
        if Le(end, ks[i]) {
          SliceStops(t, ks, i, start, end);
          return;
        }
        PartStep(t, ks, i, start, end);
        if Le(start, ks[i]) && Lt(ks[i], end) {
          OverlayPut(acc, Slice(Part(t, ks, i), start, end), ks[i], t[ks[i]]);
          result := result[ks[i] := t[ks[i]]];
        }
        i := i + 1;
      }
    }

    method GetRange(start: Bytes, end: Bytes) returns (result: Table)
      ensures result == Slice(View(Value()), start, end)
    {
      hide Slice;
      result := map[];
      SliceEmpty(start, end);
      var i := 0;
      while i < |frozenQueue|
        invariant 0 <= i <= |frozenQueue|
        invariant result == Slice(Stack(Buffers(frozenQueue[..i])), start, end)
      {
        result := AddSlice(result, frozenQueue[i].data, start, end);
        assert Buffers(frozenQueue[..i + 1]) == Buffers(frozenQueue[..i]) + [frozenQueue[i].data];
        StackSnoc(Buffers(frozenQueue[..i]), frozenQueue[i].data);
        SliceOverlay(Stack(Buffers(frozenQueue[..i])), frozenQueue[i].data, start, end);
        i := i + 1;
      }
      assert frozenQueue[..i] == frozenQueue;
      result := AddSlice(result, data, start, end);
      SliceOverlay(Stack(Buffers(frozenQueue)), data, start, end);
    }

    method BatchWouldExceed(batchSize: int) returns (b: bool)
      ensures b <==> currentSize + batchSize >= maxSize
    {
      b := currentSize + batchSize >= maxSize;
    }

    method GetFrozenItems() returns (t: Table)
      ensures t == if frozenQueue == [] then map[] else frozenQueue[0].data
    {
      t := if frozenQueue == [] then map[] else frozenQueue[0].data;
    }

    method GetMaxWalOffsetFrozen() returns (offset: int)
      ensures offset == if frozenQueue == [] then 0 else frozenQueue[0].offset
    {
      offset := if frozenQueue == [] then 0 else frozenQueue[0].offset;
    }
  }
}
