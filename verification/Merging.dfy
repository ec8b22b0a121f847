/** The k-way merge of sorted tables, newest table first. */
module Merging {
  import opened ByteStrings
  import opened Tables
  import opened SSTables

  /** What the merge should denote: for each key the value of the first list holding it. */
  function NewestWins(lists: seq<seq<Item>>): Table {
    if lists == [] then map[] else NewestWins(lists[1..]) + TableOf(lists[0])
  }

  ghost predicate Holds(items: seq<Item>, k: Bytes) {
    exists j :: 0 <= j < |items| && items[j].key == k
  }

  lemma HoldsIsInTable(items: seq<Item>, k: Bytes)
    ensures Holds(items, k) <==> k in TableOf(items)
  {
    TableOfKeys(items);
    if Holds(items, k) {
      var j :| 0 <= j < |items| && items[j].key == k;
      assert Keys(items)[j] == k;
    }
    if k in Keys(items) {
      var j :| 0 <= j < |items| && Keys(items)[j] == k;
      assert items[j].key == k;
    }
  }

  /** The union of the key sets... */
  lemma {:induction false} NewestWinsKeys(lists: seq<seq<Item>>, k: Bytes)
    ensures k in NewestWins(lists) <==> exists i :: 0 <= i < |lists| && Holds(lists[i], k)
    decreases |lists|
  {
    if lists != [] {
      NewestWinsKeys(lists[1..], k);
      HoldsIsInTable(lists[0], k);
      if exists i :: 0 <= i < |lists[1..]| && Holds(lists[1..][i], k) {
        var i :| 0 <= i < |lists[1..]| && Holds(lists[1..][i], k);
        assert Holds(lists[i + 1], k);
      }
      if exists i :: 0 <= i < |lists| && Holds(lists[i], k) {
        var i :| 0 <= i < |lists| && Holds(lists[i], k);
        assert i > 0 ==> lists[1..][i - 1] == lists[i];
      }
    }
  }

  /** ... each key with the value of the lowest-indexed list that holds it. */
  lemma {:induction false} NewestWinsValue(lists: seq<seq<Item>>, i: nat, j: nat)
    requires i < |lists| && ItemsSorted(lists[i]) && j < |lists[i]|
    requires forall h :: 0 <= h < i ==> !Holds(lists[h], lists[i][j].key)
    ensures lists[i][j].key in NewestWins(lists)
    ensures NewestWins(lists)[lists[i][j].key] == lists[i][j].value
    decreases i
  {
    HoldsIsInTable(lists[0], lists[i][j].key);
    if i == 0 {
      TableOfSorted(lists[0]);
    } else {
      assert forall h :: 0 <= h < i - 1 ==> lists[1..][h] == lists[h + 1];
      NewestWinsValue(lists[1..], i - 1, j);
    }
  }

  /* ------------------------------------------------------------- the heap */

  datatype HeapEntry = HeapEntry(key: Bytes, index: nat, value: Bytes)

  /** Tuples compare by key, then by table index; no two entries share an index. */
  predicate HeapLe(a: HeapEntry, b: HeapEntry) {
    Lt(a.key, b.key) || (a.key == b.key && a.index <= b.index)
  }

  lemma LeastEntryExists(heap: set<HeapEntry>)
    requires heap != {}
    ensures exists e :: e in heap && forall h :: h in heap ==> HeapLe(e, h)
  {
    hide Lt;
    LtIsTotalOrder();
    var e :| e in heap;
    if heap == {e} {
      assert forall h :: h in heap ==> HeapLe(e, h);
    } else {
      LeastEntryExists(heap - {e});
      var f :| f in heap - {e} && forall h :: h in heap - {e} ==> HeapLe(f, h);
      var least := if HeapLe(e, f) then e else f;
      assert forall h :: h in heap ==> h == e || h in heap - {e};
      assert least in heap && forall h :: h in heap ==> HeapLe(least, h);
    }
  }

  method HeapPop(heap: set<HeapEntry>) returns (e: HeapEntry, rest: set<HeapEntry>)
    requires heap != {}
    ensures e in heap && rest == heap - {e}
    ensures forall h :: h in heap ==> HeapLe(e, h)
  {
    LeastEntryExists(heap);
    e :| e in heap && forall h :: h in heap ==> HeapLe(e, h);
    rest := heap - {e};
  }

  /** The heap holds exactly the next unmerged item of every list not yet exhausted;
      `done` counts the items of each list already merged. */
  ghost predicate HeapInv(lists: seq<seq<Item>>, done: seq<nat>, heap: set<HeapEntry>) {
    && |done| == |lists|
    && (forall i :: 0 <= i < |lists| ==> done[i] <= |lists[i]|)
    && (forall i :: 0 <= i < |lists| && done[i] < |lists[i]| ==>
          HeapEntry(lists[i][done[i]].key, i, lists[i][done[i]].value) in heap)
    && (forall h :: h in heap ==>
          && h.index < |lists| && done[h.index] < |lists[h.index]|
          && lists[h.index][done[h.index]] == Item(h.key, h.value))
  }

  /** What has been emitted so far: sorted, right in every value, covering everything
      merged, and not above anything still to come. */
  ghost predicate OutInv(lists: seq<seq<Item>>, done: seq<nat>, heap: set<HeapEntry>, out: seq<Item>)
    requires HeapInv(lists, done, heap)
  {
    && ItemsSorted(out)
    && (forall it :: it in out ==> it.key in NewestWins(lists) && NewestWins(lists)[it.key] == it.value)
    && (forall i, j :: 0 <= i < |lists| && 0 <= j < done[i] ==> lists[i][j].key in Keys(out))
    && (out != [] ==> forall h :: h in heap ==> Le(out[|out| - 1].key, h.key))
  }

  /** The entry popped carries the winning value of its key, if the key is new. */
  lemma PoppedWins(lists: seq<seq<Item>>, done: seq<nat>, heap: set<HeapEntry>, out: seq<Item>, e: HeapEntry)
    requires forall i :: 0 <= i < |lists| ==> ItemsSorted(lists[i])
    requires HeapInv(lists, done, heap) && OutInv(lists, done, heap, out)
    requires e in heap && forall h :: h in heap ==> HeapLe(e, h)
    requires e.key !in Keys(out)
    ensures e.key in NewestWins(lists) && NewestWins(lists)[e.key] == e.value
  {
    hide *;
    PoppedIndex(lists, done, heap, e);
    forall i | 0 <= i < e.index ensures !Holds(lists[i], e.key) {
      NotHeldEarlier(lists, done, heap, out, e, i);
    }
    NewestWinsValue(lists, e.index, done[e.index]);
  }

  lemma PoppedIndex(lists: seq<seq<Item>>, done: seq<nat>, heap: set<HeapEntry>, e: HeapEntry)
    requires HeapInv(lists, done, heap) && e in heap
    ensures |done| == |lists| && e.index < |lists| && done[e.index] < |lists[e.index]|
    ensures lists[e.index][done[e.index]] == Item(e.key, e.value)
  {
  }

  lemma NotHeldEarlier(lists: seq<seq<Item>>, done: seq<nat>, heap: set<HeapEntry>, out: seq<Item>, e: HeapEntry, i: nat)
    requires HeapInv(lists, done, heap) && OutInv(lists, done, heap, out)
    requires forall h :: h in heap ==> HeapLe(e, h)
    requires e.key !in Keys(out)
    requires i < |lists| && i < e.index && ItemsSorted(lists[i])
    ensures !Holds(lists[i], e.key)
  {
    hide Lt, NewestWins;
    LtIsTotalOrder();
    forall j | 0 <= j < |lists[i]| ensures lists[i][j].key != e.key {
      if j >= done[i] {
        var h := HeapEntry(lists[i][done[i]].key, i, lists[i][done[i]].value);
        assert HeapLe(e, h) && Le(h.key, lists[i][j].key);
      }
    }
  }

  /** Emitting the popped entry keeps the output sorted. */
  lemma EmitSorted(out: seq<Item>, e: HeapEntry)
    requires ItemsSorted(out)
    requires out != [] ==> Lt(out[|out| - 1].key, e.key)
    ensures ItemsSorted(out + [Item(e.key, e.value)])
    ensures e.key !in Keys(out)
  {
    hide Lt;
    LtIsTotalOrder();
    forall i | 0 <= i < |out| ensures Lt(out[i].key, e.key) {
    }
  }

  ghost function Remaining(lists: seq<seq<Item>>, done: seq<nat>): nat
    requires |done| == |lists| && forall i :: 0 <= i < |lists| ==> done[i] <= |lists[i]|
  {
    if lists == [] then 0 else |lists[0]| - done[0] + Remaining(lists[1..], done[1..])
  }

  lemma {:induction false} RemainingStep(lists: seq<seq<Item>>, done: seq<nat>, i: nat)
    requires |done| == |lists| && forall j :: 0 <= j < |lists| ==> done[j] <= |lists[j]|
    requires i < |lists| && done[i] < |lists[i]|
    ensures Remaining(lists, done[i := done[i] + 1]) == Remaining(lists, done) - 1
    decreases i
  {
    var next := done[i := done[i] + 1];
    if i == 0 {
      assert next[1..] == done[1..];
    } else {
      RemainingStep(lists[1..], done[1..], i - 1);
      assert next[1..] == done[1..][i - 1 := done[i] + 1];
    }
  }

  /** Pull the next item of list `i`, at `pos[i]`, into the heap. */
  method Advance(lists: seq<seq<Item>>, pos: seq<nat>, heap: set<HeapEntry>, i: nat)
    returns (pos': seq<nat>, heap': set<HeapEntry>)
    requires |pos| == |lists| && i < |lists|
    ensures pos[i] < |lists[i]| ==>
              && pos' == pos[i := pos[i] + 1]
              && heap' == heap + {HeapEntry(lists[i][pos[i]].key, i, lists[i][pos[i]].value)}
    ensures pos[i] >= |lists[i]| ==> pos' == pos && heap' == heap
  {
    pos', heap' := pos, heap;
    if pos[i] < |lists[i]| {
      var it := lists[i][pos[i]];
      heap' := heap + {HeapEntry(it.key, i, it.value)};
      pos' := pos[i := pos[i] + 1];
    }
  }

  lemma HeapStep(lists: seq<seq<Item>>, done: seq<nat>, heap: set<HeapEntry>, e: HeapEntry,
                 done': seq<nat>, heap': set<HeapEntry>)
    requires HeapInv(lists, done, heap) && e in heap
    requires done' == done[e.index := done[e.index] + 1]
    requires heap' == (heap - {e}) +
               (if done'[e.index] < |lists[e.index]|
                then {HeapEntry(lists[e.index][done'[e.index]].key, e.index, lists[e.index][done'[e.index]].value)}
                else {})
    ensures HeapInv(lists, done', heap')
  {
    forall h | h in heap && h != e ensures h.index != e.index {
      assert lists[h.index][done[h.index]] == Item(h.key, h.value);
    }
  }

  /** What comes after an emitted key is not below it. */
  lemma NothingBelow(lists: seq<seq<Item>>, done: seq<nat>, heap: set<HeapEntry>, e: HeapEntry,
                     done': seq<nat>, heap': set<HeapEntry>)
    requires forall i :: 0 <= i < |lists| ==> ItemsSorted(lists[i])
    requires HeapInv(lists, done, heap) && e in heap && forall h :: h in heap ==> HeapLe(e, h)
    requires done' == done[e.index := done[e.index] + 1]
    requires HeapInv(lists, done', heap')
    requires forall h :: h in heap' ==> h in heap || h.index == e.index
    ensures forall h :: h in heap' ==> Le(e.key, h.key)
  {
    hide Lt;
    forall h | h in heap' ensures Le(e.key, h.key) {
      if h.index == e.index {
        assert lists[e.index][done[e.index]].key == e.key;
        assert lists[e.index][done'[e.index]].key == h.key;
      } else {
        assert HeapLe(e, h);
      }
    }
  }

  /** The loop invariant: `pos` is one ahead of `done` wherever an item waits in the heap. */
  ghost predicate MergeInv(lists: seq<seq<Item>>, done: seq<nat>, pos: seq<nat>, heap: set<HeapEntry>, out: seq<Item>) {
    && HeapInv(lists, done, heap) && OutInv(lists, done, heap, out)
    && |pos| == |lists|
    && forall j :: 0 <= j < |lists| ==> pos[j] == if done[j] < |lists[j]| then done[j] + 1 else done[j]
  }

  function LastKey(out: seq<Item>): Option<Bytes> {
    if out == [] then None else Some(out[|out| - 1].key)
  }

  /** One turn of the loop keeps the invariant and consumes one item. */
  lemma {:induction false} MergeStep(lists: seq<seq<Item>>, done: seq<nat>, pos: seq<nat>, heap: set<HeapEntry>, out: seq<Item>,
                  e: HeapEntry, pos': seq<nat>, heap': set<HeapEntry>)
    requires forall i :: 0 <= i < |lists| ==> ItemsSorted(lists[i])
    requires MergeInv(lists, done, pos, heap, out)
    requires e in heap && forall h :: h in heap ==> HeapLe(e, h)
    requires pos[e.index] < |lists[e.index]| ==>
               && pos' == pos[e.index := pos[e.index] + 1]
               && heap' == (heap - {e}) +
                    {HeapEntry(lists[e.index][pos[e.index]].key, e.index, lists[e.index][pos[e.index]].value)}
    requires pos[e.index] >= |lists[e.index]| ==> pos' == pos && heap' == heap - {e}
    ensures
      var done' := done[e.index := done[e.index] + 1];
      var out' := if LastKey(out) == Some(e.key) then out else out + [Item(e.key, e.value)];
      && MergeInv(lists, done', pos', heap', out')
      && Remaining(lists, done') < Remaining(lists, done)
  {
    hide Lt, NewestWins, ItemsSorted, Holds, Remaining;
    var done' := done[e.index := done[e.index] + 1];
    RemainingStep(lists, done, e.index);
    HeapStep(lists, done, heap, e, done', heap');
    NothingBelow(lists, done, heap, e, done', heap');
    if LastKey(out) == Some(e.key) {
      assert Keys(out)[|out| - 1] == e.key;
      MergedKeys(lists, done, e, done', out);
    } else {
      EmitSorted(out, e);
      PoppedWins(lists, done, heap, out, e);
      var out' := out + [Item(e.key, e.value)];
      assert Keys(out') == Keys(out) + [e.key];
      MergedKeys(lists, done, e, done', out');
    }
  }

  /** The heap loop: for any number of sorted lists, newest first, it ends and emits, in
      strictly increasing key order, exactly the table `NewestWins`. */
  method Merge(lists: seq<seq<Item>>) returns (out: seq<Item>)
    requires forall i :: 0 <= i < |lists| ==> ItemsSorted(lists[i])
    ensures ItemsSorted(out)
    ensures TableOf(out) == NewestWins(lists)
  {
    hide HeapLe, NewestWins, TableOf, ItemsSorted, OutInv;
    var heap: set<HeapEntry> := {};
    var pos: seq<nat> := seq(|lists|, i => 0);
    ghost var done: seq<nat> := pos;
    var i := 0;
    while i < |lists|
      invariant 0 <= i <= |lists| && |pos| == |lists|
      invariant forall j :: 0 <= j < i ==> pos[j] == if lists[j] != [] then 1 else 0
      invariant forall j :: i <= j < |lists| ==> pos[j] == 0
      invariant forall j :: 0 <= j < i && lists[j] != [] ==> HeapEntry(lists[j][0].key, j, lists[j][0].value) in heap
      invariant forall h :: h in heap ==> h.index < i && lists[h.index] != [] && lists[h.index][0] == Item(h.key, h.value)
    {
      pos, heap := Advance(lists, pos, heap, i);
      i := i + 1;
    }
    out := [];
    var lastKey: Option<Bytes> := None;
    NothingMerged(lists, done, heap);
    while heap != {}
      invariant MergeInv(lists, done, pos, heap, out)
      invariant lastKey == LastKey(out)
      decreases Remaining(lists, done)
    {
      var e, rest := HeapPop(heap);
      var pos', heap' := Advance(lists, pos, rest, e.index);
      MergeStep(lists, done, pos, heap, out, e, pos', heap');
      if lastKey != Some(e.key) {
        out := out + [Item(e.key, e.value)];
        lastKey := Some(e.key);
      }
      pos, heap, done := pos', heap', done[e.index := done[e.index] + 1];
    }
    MergeComplete(lists, done, heap, out);
  }

  lemma NothingMerged(lists: seq<seq<Item>>, done: seq<nat>, heap: set<HeapEntry>)
    requires HeapInv(lists, done, heap)
    requires forall i :: 0 <= i < |lists| ==> done[i] == 0
    ensures OutInv(lists, done, heap, [])
  {
  }

  lemma MergedKeys(lists: seq<seq<Item>>, done: seq<nat>, e: HeapEntry, done': seq<nat>, out: seq<Item>)
    requires |done| == |lists| && e.index < |lists| && (forall i :: 0 <= i < |lists| ==> done[i] <= |lists[i]|)
    requires done[e.index] < |lists[e.index]| && lists[e.index][done[e.index]].key == e.key
    requires done' == done[e.index := done[e.index] + 1]
    requires forall i, j :: 0 <= i < |lists| && 0 <= j < done[i] ==> lists[i][j].key in Keys(out)
    requires e.key in Keys(out)
    ensures forall i, j :: 0 <= i < |lists| && 0 <= j < done'[i] ==> lists[i][j].key in Keys(out)
  {
    forall i, j | 0 <= i < |lists| && 0 <= j < done'[i] ensures lists[i][j].key in Keys(out) {
      assert (i == e.index && j == done[i]) || j < done[i];
    }
  }

  lemma MergeComplete(lists: seq<seq<Item>>, done: seq<nat>, heap: set<HeapEntry>, out: seq<Item>)
    requires HeapInv(lists, done, heap) && OutInv(lists, done, heap, out) && heap == {}
    ensures ItemsSorted(out) && TableOf(out) == NewestWins(lists)
  {
    hide Lt, NewestWins;
    var t := NewestWins(lists);
    forall k ensures k in Keys(out) <==> k in t {
      NewestWinsKeys(lists, k);
      if k in Keys(out) {
        var j :| 0 <= j < |out| && Keys(out)[j] == k;
        assert out[j] in out;
      }
      if k in t {
        var i :| 0 <= i < |lists| && Holds(lists[i], k);
        var j :| 0 <= j < |lists[i]| && lists[i][j].key == k;
        assert done[i] == |lists[i]|;
      }
    }
    ListingIsSortedItems(out, t);
    SortedItemsTable(t);
  }
}
