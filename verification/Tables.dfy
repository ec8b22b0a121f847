/** Key-value tables, how layers of them overlay each other, and the operations a client
    can log.  Everything the engine stores is a `Table` in which a deletion is an entry
    holding the tombstone value. */
module Tables {
  import opened ByteStrings

  type Table = map<Bytes, Bytes>

  datatype Option<+T> = None | Some(value: T)

  datatype Item = Item(key: Bytes, value: Bytes)

  /** b"__TOMBSTONE__" */
  const TOMBSTONE: Bytes := [95, 95, 84, 79, 77, 66, 83, 84, 79, 78, 69, 95, 95]

  function Find(t: Table, k: Bytes): Option<Bytes> {
    if k in t then Some(t[k]) else None
  }

  /** What a client reads out of a raw value: a tombstone reads as absent. */
  function Visible(v: Option<Bytes>): Option<Bytes> {
    if v == Some(TOMBSTONE) then None else v
  }

  function Read(t: Table, k: Bytes): Option<Bytes> {
    Visible(Find(t, k))
  }

  /** The live entries only. */
  function Live(t: Table): Table {
    map k | k in t && t[k] != TOMBSTONE :: t[k]
  }

  /* ------------------------------------------------------- operations */

  datatype Op = Put(key: Bytes, value: Bytes) | Delete(key: Bytes)

  /** The value a memtable stores for an operation. */
  function Stored(op: Op): Bytes {
    match op
    case Put(_, v) => v
    case Delete(_) => TOMBSTONE
  }

  /** Last write wins over a list of operations, oldest first. */
  function Tab(ops: seq<Op>): Table {
    if ops == [] then map[]
    else Tab(ops[..|ops| - 1])[ops[|ops| - 1].key := Stored(ops[|ops| - 1])]
  }

  lemma TabSnoc(ops: seq<Op>, op: Op)
    ensures Tab(ops + [op]) == Tab(ops)[op.key := Stored(op)]
  {
    assert (ops + [op])[..|ops|] == ops;
  }

  lemma OverlayAssoc(a: Table, b: Table, c: Table)
    ensures a + (b + c) == a + b + c
  {
  }

  lemma OverlayPut(a: Table, b: Table, k: Bytes, v: Bytes)
    ensures (a + b)[k := v] == a + b[k := v]
  {
  }

  /** Replaying a concatenation overlays the later part on the earlier one. */
  lemma {:induction false} TabConcat(a: seq<Op>, b: seq<Op>)
    ensures Tab(a + b) == Tab(a) + Tab(b)
    decreases |b|
  {
    if b == [] {
      assert a + b == a;
    } else {
      var c, op := b[..|b| - 1], b[|b| - 1];
      TabConcat(a, c);
      assert a + b == (a + c) + [op];
      TabSnoc(a + c, op);
      OverlayPut(Tab(a), Tab(c), op.key, Stored(op));
    }
  }

  /** `older` already shows everything in `t`: overlaying it changes nothing. */
  ghost predicate Absorbs(older: Table, t: Table) {
    forall k :: k in t ==> k in older && older[k] == t[k]
  }

  lemma AbsorbsIsNoChange(older: Table, t: Table)
    ensures Absorbs(older, t) <==> older + t == older
  {
    if older + t == older {
      forall k | k in t ensures k in older && older[k] == t[k] {
        assert k in older + t && (older + t)[k] == t[k];
      }
    }
  }

  /** The abstract key-value store a client believes in: a put binds a key, a delete
      removes it.  Putting the tombstone value itself acts as a delete. */
  function Store(ops: seq<Op>): Table {
    if ops == [] then map[]
    else
      var rest, op := Store(ops[..|ops| - 1]), ops[|ops| - 1];
      if op.Put? && op.value != TOMBSTONE then rest[op.key := op.value] else rest - {op.key}
  }

  /** Tombstones are an encoding of that store: dropping them gives exactly it. */
  lemma {:induction false} TombstonesEncodeStore(ops: seq<Op>)
    ensures Live(Tab(ops)) == Store(ops)
    ensures forall k :: Read(Tab(ops), k) == Find(Store(ops), k)
    decreases |ops|
  {
    if ops != [] {
      TombstonesEncodeStore(ops[..|ops| - 1]);
    }
    assert Live(Tab(ops)) == Store(ops);
    forall k ensures Read(Tab(ops), k) == Find(Store(ops), k) {
      assert k in Store(ops) <==> k in Live(Tab(ops));
    }
  }

  /** What a write leaves behind its key: a put of any value but the thirteen bytes of
      `__TOMBSTONE__` reads as that value, the empty one included; a put of those bytes, and
      a delete, read as absent; every other key reads as before. */
  lemma {:induction false} WritesAreRead(ops: seq<Op>, k: Bytes, v: Bytes)
    ensures Read(Tab(ops + [Put(k, v)]), k)
         == if v == [95, 95, 84, 79, 77, 66, 83, 84, 79, 78, 69, 95, 95] then None else Some(v)
    ensures Read(Tab(ops + [Delete(k)]), k) == None
    ensures forall j :: j != k ==>
              Read(Tab(ops + [Put(k, v)]), j) == Read(Tab(ops), j) == Read(Tab(ops + [Delete(k)]), j)
  {
    TabSnoc(ops, Put(k, v));
    TabSnoc(ops, Delete(k));
  }

  /* ------------------------------------------------------------ layers */

  /** Overlay of a stack of tables, oldest first. */
  function Stack(ts: seq<Table>): Table {
    if ts == [] then map[] else ts[0] + Stack(ts[1..])
  }

  lemma {:induction false} StackConcat(a: seq<Table>, b: seq<Table>)
    ensures Stack(a + b) == Stack(a) + Stack(b)
    decreases |a|
  {
    if a == [] {
      assert a + b == b;
    } else {
      StackConcat(a[1..], b);
      assert (a + b)[1..] == a[1..] + b;
      OverlayAssoc(a[0], Stack(a[1..]), Stack(b));
    }
  }

  lemma StackSnoc(a: seq<Table>, t: Table)
    ensures Stack(a + [t]) == Stack(a) + t
  {
    StackConcat(a, [t]);
    assert Stack([t]) == t;
  }

  /* ------------------------------------------------------------- items */

  function Keys(items: seq<Item>): (ks: seq<Bytes>)
    ensures |ks| == |items|
  {
    seq(|items|, i requires 0 <= i < |items| => items[i].key)
  }

  ghost predicate ItemsSorted(items: seq<Item>) {
    forall i, j :: 0 <= i < j < |items| ==> Lt(items[i].key, items[j].key)
  }

  /** The table a list of items denotes: for a repeated key the last one counts. */
  function TableOf(items: seq<Item>): Table {
    if items == [] then map[]
    else TableOf(items[..|items| - 1])[items[|items| - 1].key := items[|items| - 1].value]
  }

  /** `sorted(t.items())` */
  function SortedItems(t: Table): (items: seq<Item>)
    ensures |items| == |t.Keys|
    ensures ItemsSorted(items)
    ensures forall i :: 0 <= i < |items| ==> items[i].key in t && items[i].value == t[items[i].key]
    ensures Keys(items) == SortedKeys(t.Keys)
  {
    var ks := SortedKeys(t.Keys);
    seq(|ks|, i requires 0 <= i < |ks| => assert ks[i] in ks; Item(ks[i], t[ks[i]]))
  }

  lemma {:induction false} TableOfKeys(items: seq<Item>)
    ensures forall k :: k in TableOf(items) <==> k in Keys(items)
    decreases |items|
  {
    if items != [] {
      var n := |items| - 1;
      TableOfKeys(items[..n]);
      assert Keys(items) == Keys(items[..n]) + [items[n].key];
    }
  }

  lemma {:induction false} TableOfSorted(items: seq<Item>)
    requires ItemsSorted(items)
    ensures forall i :: 0 <= i < |items| ==> items[i].key in TableOf(items) && TableOf(items)[items[i].key] == items[i].value
    decreases |items|
  {
    if items != [] {
      var n := |items| - 1;
      TableOfSorted(items[..n]);
      LtIsTotalOrder();
      forall i | 0 <= i < |items|
        ensures items[i].key in TableOf(items) && TableOf(items)[items[i].key] == items[i].value
      {
        if i < n {
          assert items[..n][i] == items[i];
          assert Lt(items[i].key, items[n].key);
        }
      }
    }
  }

  /** Sorting a dictionary's items and reading them back gives the dictionary... */
  lemma SortedItemsTable(t: Table)
    ensures TableOf(SortedItems(t)) == t
  {
    hide TableOf, ItemsSorted, SortedItems, SortedKeys;
    var items := SortedItems(t);
    TableOfKeys(items);
    TableOfSorted(items);
    forall k ensures k in TableOf(items) <==> k in t {
      assert k in Keys(items) <==> k in SortedKeys(t.Keys);
    }
    forall k | k in t ensures TableOf(items)[k] == t[k] {
      var i :| 0 <= i < |Keys(items)| && Keys(items)[i] == k;
      assert items[i].key == k;
    }
  }

  /** ... and a sorted item list is the only sorted listing of its table. */
  lemma SortedItemsUnique(items: seq<Item>)
    requires ItemsSorted(items)
    ensures SortedItems(TableOf(items)) == items
  {
    var t := TableOf(items);
    var again := SortedItems(t);
    TableOfKeys(items);
    TableOfSorted(items);
    forall k ensures k in Keys(again) <==> k in Keys(items) {
      assert k in SortedKeys(t.Keys) <==> k in t.Keys;
    }
    SortedListingUnique(Keys(again), Keys(items));
    forall i | 0 <= i < |items| ensures again[i] == items[i] {
      assert Keys(again)[i] == Keys(items)[i];
    }
  }
}
