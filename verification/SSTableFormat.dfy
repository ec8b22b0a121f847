/** The byte format of a sorted table file -- entries, an index from key to entry offset,
    a footer -- and what reading any file as one yields. */
module SSTableFormat {
  import opened ByteStrings
  import opened Tables

  datatype IndexEntry = IndexEntry(key: Bytes, offset: nat)

  function EntryBytes(it: Item): (s: Bytes)
    ensures |s| == 8 + |it.key| + |it.value|
  {
    Be32(|it.key|) + it.key + (Be32(|it.value|) + it.value)
  }

  function IndexEntryBytes(e: IndexEntry): (s: Bytes)
    ensures |s| == 12 + |e.key|
  {
    Be32(|e.key|) + e.key + Be64(e.offset)
  }

  function DataBytes(items: seq<Item>): Bytes {
    Flat(EntryBytes, items)
  }

  /** Where entry `i` starts. */
  function Offset(items: seq<Item>, i: nat): nat
    requires i <= |items|
  {
    |DataBytes(items[..i])|
  }

  function IndexEntries(items: seq<Item>): (es: seq<IndexEntry>)
    ensures |es| == |items|
  {
    seq(|items|, i requires 0 <= i < |items| => IndexEntry(items[i].key, Offset(items, i)))
  }

  function FileBytes(items: seq<Item>): Bytes {
    DataBytes(items) + Flat(IndexEntryBytes, IndexEntries(items)) + Be64(|DataBytes(items)|)
  }

  predicate ItemFits(it: Item) {
    |it.key| < U32 && |it.value| < U32
  }

  /** Every length and offset of the file fits its field. */
  predicate TableFits(items: seq<Item>) {
    (forall it :: it in items ==> ItemFits(it)) && |DataBytes(items)| < U64
  }

  /** A table a flush or a compaction can write out: there is an entry to take the bounds
      from, and the file's fields hold it. */
  predicate Writable(t: Table) {
    t != map[] && TableFits(SortedItems(t))
  }

  /** The in-memory index: key to file offset. */
  type Index = map<Bytes, nat>

  /** The index a list of index entries builds up, later entries winning. */
  function IndexOf(es: seq<IndexEntry>): Index {
    if es == [] then map[]
    else IndexOf(es[..|es| - 1])[es[|es| - 1].key := es[|es| - 1].offset]
  }

  /* ------------------------------------------------------------ reading */

  /** One index entry at `pos`, with the position behind it; None is a short read. */
  function ReadIndexEntry(file: Bytes, pos: nat): (r: Option<(IndexEntry, nat)>)
    ensures r.Some? ==> pos < r.value.1 <= |file|
  {
    var keyLenBytes := ReadUpTo(file, pos, 4);
    if |keyLenBytes| < 4 then None
    else
      var keyLen := FromBigEndian(keyLenBytes);
      var offsetBytes := ReadUpTo(file, pos + 4 + keyLen, 8);
      if |offsetBytes| < 8 then None
      else Some((IndexEntry(ReadUpTo(file, pos + 4, keyLen), FromBigEndian(offsetBytes)), pos + 12 + keyLen))
  }

  /** The index-loading loop from `pos` until `end` is reached. */
  function ReadIndex(file: Bytes, pos: nat, end: nat, acc: Index): Option<Index>
    decreases |file| - pos
  {
    if pos >= end then Some(acc)
    else
      match ReadIndexEntry(file, pos)
      case None => None
      case Some((e, next)) => ReadIndex(file, next, end, acc[e.key := e.offset])
  }

  /** The index of a file; every exception on the way leaves it empty. */
  function ParseIndex(file: Bytes): Index {
    if |file| < 8 then map[]
    else
      match ReadIndex(file, FromBigEndian(file[|file| - 8..]), |file| - 8, map[])
      case Some(index) => index
      case None => map[]
  }

  /** The value of the entry at `offset`; None is an exception out of a short read. */
  function ReadValue(file: Bytes, offset: nat): Option<Bytes> {
    var keyLenBytes := ReadUpTo(file, offset, 4);
    if |keyLenBytes| < 4 then None
    else
      var valueAt := offset + 4 + FromBigEndian(keyLenBytes);
      var valueLenBytes := ReadUpTo(file, valueAt, 4);
      if |valueLenBytes| < 4 then None
      else Some(ReadUpTo(file, valueAt + 4, FromBigEndian(valueLenBytes)))
  }

  /** Every indexed key can be read. */
  predicate Readable(file: Bytes) {
    forall k :: k in ParseIndex(file) ==> ReadValue(file, ParseIndex(file)[k]).Some?
  }

  /** The table a file denotes. */
  function TableIn(file: Bytes): Table
    requires Readable(file)
  {
    map k | k in ParseIndex(file) :: ReadValue(file, ParseIndex(file)[k]).value
  }

  /* ------------------------------------------------------------ round trip */

  lemma ReadValueAt(pre: Bytes, it: Item, post: Bytes)
    requires ItemFits(it)
    ensures ReadValue(pre + EntryBytes(it) + post, |pre|) == Some(it.value)
  {
    hide BigEndian, FromBigEndian;
    var file, p, q := pre + EntryBytes(it) + post, |pre|, |pre| + 4 + |it.key|;
    assert ReadUpTo(file, p, 4) == file[p..p + 4] == Be32(|it.key|);
    assert ReadUpTo(file, q, 4) == file[q..q + 4] == Be32(|it.value|);
    assert file[q + 4..q + 4 + |it.value|] == it.value;
    assert ReadUpTo(file, q + 4, |it.value|) == it.value;
    assert FromBigEndian(Be32(|it.key|)) == |it.key| by { hide *; Be32RoundTrip(|it.key|); }
    assert FromBigEndian(Be32(|it.value|)) == |it.value| by { hide *; Be32RoundTrip(|it.value|); }
  }

  lemma ReadIndexEntryAt(pre: Bytes, e: IndexEntry, post: Bytes)
    requires |e.key| < U32 && e.offset < U64
    ensures ReadIndexEntry(pre + IndexEntryBytes(e) + post, |pre|) == Some((e, |pre| + |IndexEntryBytes(e)|))
  {
    hide BigEndian, FromBigEndian;
    var file, p, q := pre + IndexEntryBytes(e) + post, |pre|, |pre| + 4 + |e.key|;
    assert ReadUpTo(file, p, 4) == file[p..p + 4] == Be32(|e.key|);
    assert file[p + 4..q] == e.key;
    assert ReadUpTo(file, p + 4, |e.key|) == e.key;
    assert ReadUpTo(file, q, 8) == file[q..q + 8] == Be64(e.offset);
    assert FromBigEndian(Be32(|e.key|)) == |e.key| by { hide *; Be32RoundTrip(|e.key|); }
    assert FromBigEndian(Be64(e.offset)) == e.offset by { hide *; Be64RoundTrip(e.offset); }
  }

  /** Walking over whole index entries, with `done` already taken in. */
  lemma {:induction false} ReadIndexWalk(pre: Bytes, done: seq<IndexEntry>, es: seq<IndexEntry>, post: Bytes, end: nat)
    requires forall e :: e in es ==> |e.key| < U32 && e.offset < U64
    requires |pre| + |Flat(IndexEntryBytes, es)| <= end
    ensures
      var file := pre + Flat(IndexEntryBytes, es) + post;
      ReadIndex(file, |pre|, end, IndexOf(done))
        == ReadIndex(file, |pre| + |Flat(IndexEntryBytes, es)|, end, IndexOf(done + es))
    decreases |es|
  {
    hide IndexEntryBytes, ReadIndexEntry;
    if es == [] {
      assert done + es == done;
    } else {
      var one, more := IndexEntryBytes(es[0]), Flat(IndexEntryBytes, es[1..]);
      var file := pre + Flat(IndexEntryBytes, es) + post;
      assert file == pre + one + (more + post);
      ReadIndexEntryAt(pre, es[0], more + post);
      assert file == (pre + one) + more + post;
      assert ReadIndexEntry(file, |pre|) == Some((es[0], |pre + one|));
      assert (done + [es[0]])[..|done|] == done;
      assert (done + [es[0]]) + es[1..] == done + es;
      ReadIndexWalk(pre + one, done + [es[0]], es[1..], post, end);
    }
  }

  lemma OffsetsFit(items: seq<Item>, i: nat)
    requires i <= |items|
    ensures Offset(items, i) <= |DataBytes(items)|
  {
    hide EntryBytes;
    assert items == items[..i] + items[i..];
    FlatConcat(EntryBytes, items[..i], items[i..]);
  }

  lemma IndexEntriesFit(items: seq<Item>)
    requires TableFits(items)
    ensures forall e :: e in IndexEntries(items) ==> |e.key| < U32 && e.offset < U64
  {
    hide DataBytes;
    var es := IndexEntries(items);
    forall e | e in es ensures |e.key| < U32 && e.offset < U64 {
      var i :| 0 <= i < |es| && es[i] == e;
      assert items[i] in items;
      OffsetsFit(items, i);
    }
  }

  /** Loading the index from the bytes rebuilds the index that was written. */
  lemma {:induction false} IndexRoundTrip(items: seq<Item>)
    requires TableFits(items)
    ensures ParseIndex(FileBytes(items)) == IndexOf(IndexEntries(items))
  {
    hide DataBytes, IndexEntries, IndexEntryBytes, Flat, ReadIndexEntry, BigEndian, FromBigEndian, FileBytes, Be64, TableFits;
    var data, es := DataBytes(items), IndexEntries(items);
    var index, file := Flat(IndexEntryBytes, es), FileBytes(items);
    FileParts(items);
    assert |data| < U64 by { DataFits(items); }
    Be64RoundTrip(|data|);
    IndexEntriesFit(items);
    ReadIndexWalk(data, [], es, Be64(|data|), |data + index|);
    assert [] + es == es;
    assert IndexOf([]) == map[];
  }

  /** A file too short for its footer has no index; nor has one with one to three stray
      bytes behind its index entries: the whole index is dropped, not only the rest. */
  lemma {:induction false} MalformedHasNoIndex(file: Bytes, data: Bytes, es: seq<IndexEntry>, stray: Bytes)
    requires |data| < U64 && forall e :: e in es ==> |e.key| < U32 && e.offset < U64
    requires 1 <= |stray| <= 3
    ensures |file| < 8 ==> ParseIndex(file) == map[]
    ensures ParseIndex(data + Flat(IndexEntryBytes, es) + (stray + Be64(|data|))) == map[]
  {
    hide IndexEntryBytes, Flat, BigEndian, FromBigEndian;
    var index, footer := Flat(IndexEntryBytes, es), Be64(|data|);
    var whole := data + index + (stray + footer);
    var at := |data| + |index|;
    assert whole[|whole| - 8..] == footer;
    Be64RoundTrip(|data|);
    ReadIndexWalk(data, [], es, stray + footer, |whole| - 8);
    assert IndexOf([]) == map[];
    assert ReadIndexEntry(whole, at).None?;
  }

  lemma DataFits(items: seq<Item>)
    requires TableFits(items)
    ensures |DataBytes(items)| < U64
  {
    hide DataBytes;
  }

  lemma FileParts(items: seq<Item>)
    ensures var data, index, footer := DataBytes(items), Flat(IndexEntryBytes, IndexEntries(items)), Be64(|DataBytes(items)|);
            && FileBytes(items) == data + index + footer
            && |FileBytes(items)| == |data| + |index| + 8
            && FileBytes(items)[|FileBytes(items)| - 8..] == footer
  {
    hide DataBytes, IndexEntries, IndexEntryBytes, Flat, Be64;
  }

  lemma {:induction false} IndexOfSorted(items: seq<Item>, es: seq<IndexEntry>)
    requires ItemsSorted(items) && |es| == |items|
    requires forall i :: 0 <= i < |es| ==> es[i].key == items[i].key
    ensures forall k :: k in IndexOf(es) <==> k in Keys(items)
    ensures forall i :: 0 <= i < |es| ==> es[i].key in IndexOf(es) && IndexOf(es)[es[i].key] == es[i].offset
    decreases |es|
  {
    hide Lt;
    if es != [] {
      var n := |es| - 1;
      IndexOfSorted(items[..n], es[..n]);
      assert Keys(items) == Keys(items[..n]) + [items[n].key];
      LtIsTotalOrder();
      forall i | 0 <= i < |es|
        ensures es[i].key in IndexOf(es) && IndexOf(es)[es[i].key] == es[i].offset
      {
        if i < n {
          assert es[..n][i] == es[i];
          assert Lt(items[i].key, items[n].key);
        }
      }
    }
  }

  /** `s` starts at position `p` of the file. */
  predicate At(file: Bytes, p: nat, s: Bytes) {
    p + |s| <= |file| && file[p..p + |s|] == s
  }

  lemma AtInside(file: Bytes, p: nat, a: Bytes, b: Bytes, c: Bytes)
    requires At(file, p, a + b + c)
    ensures At(file, p, a) && At(file, p + |a|, b) && At(file, p + |a| + |b|, c)
  {
    hide At;
    var s := a + b + c;
    assert s[0..|a|] == a && s[|a|..|a| + |b|] == b && s[|a| + |b|..|s|] == c;
    SubAt(file, p, s, 0, |a|);
    SubAt(file, p, s, |a|, |a| + |b|);
    SubAt(file, p, s, |a| + |b|, |s|);
  }

  lemma SubAt(file: Bytes, p: nat, s: Bytes, i: nat, j: nat)
    requires At(file, p, s) && i <= j <= |s|
    ensures At(file, p + i, s[i..j])
  {
    forall k | i <= k < j ensures file[p + k] == s[k] {
      assert file[p..p + |s|][k] == s[k];
    }
  }

  /** Where the index entry of item `i` starts, counted from the start of the index. */
  function IndexAt(items: seq<Item>, i: nat): nat
    requires i <= |items|
  {
    |Flat(IndexEntryBytes, IndexEntries(items)[..i])|
  }

  /** The bytes of a table file: entries back to back, each a key and a value behind their
      four-byte lengths; then for each entry its key behind its length, and its offset in
      eight bytes; then, in eight bytes, where that index starts. */
  lemma {:induction false} FileLayout(items: seq<Item>, i: nat)
    requires i < |items|
    ensures
      var file, end := FileBytes(items), |DataBytes(items)|;
      var key, value := items[i].key, items[i].value;
      var p, q := Offset(items, i), end + IndexAt(items, i);
      && Offset(items, 0) == 0 && Offset(items, i + 1) == p + 8 + |key| + |value| && Offset(items, |items|) == end
      && At(file, p, Be32(|key|)) && At(file, p + 4, key)
      && At(file, p + 4 + |key|, Be32(|value|)) && At(file, p + 8 + |key|, value)
      && IndexAt(items, 0) == 0 && IndexAt(items, i + 1) == IndexAt(items, i) + 12 + |key|
      && At(file, q, Be32(|key|)) && At(file, q + 4, key) && At(file, q + 4 + |key|, Be64(p))
      && |file| == end + IndexAt(items, |items|) + 8 && file[|file| - 8..] == Be64(end)
  {
    hide EntryBytes, IndexEntryBytes, BigEndian, Be32, Be64, At, Flat;
    var file, end, es := FileBytes(items), |DataBytes(items)|, IndexEntries(items);
    var p, q := Offset(items, i), end + IndexAt(items, i);
    FileParts(items);
    assert items[..|items|] == items && es[..|items|] == es;
    FlatStart(EntryBytes, items);
    FlatStart(IndexEntryBytes, es);
    assert At(DataBytes(items), p, EntryBytes(items[i])) by { hide DataBytes; FlatHolds(EntryBytes, items, i); }
    assert At(Flat(IndexEntryBytes, es), IndexAt(items, i), IndexEntryBytes(es[i])) by { FlatHolds(IndexEntryBytes, es, i); }
    FlatHolds(EntryBytes, items, i);
    FlatHolds(IndexEntryBytes, es, i);
    var index, footer := Flat(IndexEntryBytes, es), Be64(end);
    AtIn(file, DataBytes(items), index + footer, p, EntryBytes(items[i]));
    AtIn2(file, DataBytes(items), index, footer, IndexAt(items, i), IndexEntryBytes(es[i]));
    EntryParts(file, p, items[i]);
    IndexEntryParts(file, q, es[i]);
  }

  lemma FlatStart<T>(encode: T -> Bytes, xs: seq<T>)
    ensures Flat(encode, xs[..0]) == []
  {
  }

  lemma FlatHolds<T>(encode: T -> Bytes, xs: seq<T>, i: nat)
    requires i < |xs|
    ensures At(Flat(encode, xs), |Flat(encode, xs[..i])|, encode(xs[i]))
    ensures |Flat(encode, xs[..i + 1])| == |Flat(encode, xs[..i])| + |encode(xs[i])|
  {
    FlatAt(encode, xs, i);
    assert xs[..i + 1] == xs[..i] + [xs[i]];
    FlatSnoc(encode, xs[..i], xs[i]);
  }

  lemma AtIn(file: Bytes, a: Bytes, b: Bytes, p: nat, s: Bytes)
    requires file == a + b && At(a, p, s)
    ensures At(file, p, s)
  {
  }

  lemma AtIn2(file: Bytes, a: Bytes, b: Bytes, c: Bytes, p: nat, s: Bytes)
    requires file == a + b + c && At(b, p, s)
    ensures At(file, |a| + p, s)
  {
    forall k | p <= k < p + |s| ensures file[|a| + k] == b[k] {
    }
  }

  lemma EntryParts(file: Bytes, p: nat, it: Item)
    requires At(file, p, EntryBytes(it))
    ensures At(file, p, Be32(|it.key|)) && At(file, p + 4, it.key)
    ensures At(file, p + 4 + |it.key|, Be32(|it.value|)) && At(file, p + 8 + |it.key|, it.value)
  {
    hide At, BigEndian;
    assert EntryBytes(it) == Be32(|it.key|) + it.key + (Be32(|it.value|) + it.value);
    AtInside(file, p, Be32(|it.key|), it.key, Be32(|it.value|) + it.value);
    assert Be32(|it.value|) + it.value == Be32(|it.value|) + it.value + [];
    AtInside(file, p + 4 + |it.key|, Be32(|it.value|), it.value, []);
  }

  lemma IndexEntryParts(file: Bytes, p: nat, e: IndexEntry)
    requires At(file, p, IndexEntryBytes(e))
    ensures At(file, p, Be32(|e.key|)) && At(file, p + 4, e.key) && At(file, p + 4 + |e.key|, Be64(e.offset))
  {
    hide At, BigEndian;
    AtInside(file, p, Be32(|e.key|), e.key, Be64(e.offset));
  }

  lemma {:induction false} ReadWritten(items: seq<Item>, i: nat)
    requires TableFits(items) && i < |items|
    ensures ReadValue(FileBytes(items), Offset(items, i)) == Some(items[i].value)
  {
    hide EntryBytes, ReadValue, IndexEntryBytes, BigEndian;
    FlatAt(EntryBytes, items, i);
    var pre, one, post := DataBytes(items[..i]), EntryBytes(items[i]), Flat(EntryBytes, items[i + 1..]);
    var rest := post + (Flat(IndexEntryBytes, IndexEntries(items)) + Be64(|DataBytes(items)|));
    assert FileBytes(items) == pre + one + rest;
    assert items[i] in items;
    ReadValueAt(pre, items[i], rest);
  }

  /** File round trip: the bytes written for a sorted list denote exactly its table. */
  lemma {:induction false} FileRoundTrip(items: seq<Item>)
    requires ItemsSorted(items) && TableFits(items)
    ensures Readable(FileBytes(items))
    ensures TableIn(FileBytes(items)) == TableOf(items)
    ensures SortedItems(TableIn(FileBytes(items))) == items
  {
    hide FileBytes, ParseIndex, ReadValue, Lt, TableOf, IndexOf, DataBytes;
    IndexRoundTrip(items);
    var es, file := IndexEntries(items), FileBytes(items);
    IndexOfSorted(items, es);
    TableOfKeys(items);
    TableOfSorted(items);
    forall k | k in ParseIndex(file)
      ensures ReadValue(file, ParseIndex(file)[k]).Some?
      ensures k in TableOf(items) && ReadValue(file, ParseIndex(file)[k]).value == TableOf(items)[k]
    {
      var i :| 0 <= i < |items| && Keys(items)[i] == k;
      assert es[i].key == k;
      ReadWritten(items, i);
    }
    assert TableIn(file) == TableOf(items);
    SortedItemsUnique(items);
  }
}
