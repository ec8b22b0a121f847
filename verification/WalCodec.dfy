/** The byte format of the write-ahead log and what replaying any byte string yields.
    The checksum is a parameter: everything holds for every checksum function. */
module WalCodec {
  import opened ByteStrings
  import opened Tables

  type Checksum = Bytes -> u32

  datatype Rec = Rec(op: byte, key: Bytes, value: Bytes)

  const PUT: byte := 1
  const DELETE: byte := 2

  /** The checksummed part of a record. */
  function Payload(r: Rec): (s: Bytes)
    ensures |s| == 9 + |r.key| + |r.value|
  {
    [r.op] + Be32(|r.key|) + r.key + Be32(|r.value|) + r.value
  }

  /** Every length field of the record fits its four bytes. */
  predicate Fits(r: Rec) {
    |Payload(r)| + 4 < U32
  }

  function Record(crc: Checksum, r: Rec): (s: Bytes)
    ensures |s| == 17 + |r.key| + |r.value|
  {
    Be32(|Payload(r)| + 4) + (Payload(r) + Be32(crc(Payload(r))))
  }

  predicate AllFit(rs: seq<Rec>) {
    forall r :: r in rs ==> Fits(r)
  }

  /** The record encoder for one checksum. */
  function RecordOf(crc: Checksum): Rec -> Bytes {
    r => Record(crc, r)
  }

  /** A log holding the given records, back to back. */
  function LogBytes(crc: Checksum, rs: seq<Rec>): Bytes {
    Flat(RecordOf(crc), rs)
  }

  lemma LogHead(crc: Checksum, rs: seq<Rec>)
    ensures LogBytes(crc, []) == []
    ensures rs != [] ==> LogBytes(crc, rs) == Record(crc, rs[0]) + LogBytes(crc, rs[1..])
  {
    hide Record;
  }

  lemma {:induction false} LogConcat(crc: Checksum, a: seq<Rec>, b: seq<Rec>)
    ensures LogBytes(crc, a + b) == LogBytes(crc, a) + LogBytes(crc, b)
    decreases |a|
  {
    hide Record;
    FlatConcat(RecordOf(crc), a, b);
  }

  lemma LogSnoc(crc: Checksum, a: seq<Rec>, r: Rec)
    ensures LogBytes(crc, a + [r]) == LogBytes(crc, a) + Record(crc, r)
  {
    hide Record;
    FlatSnoc(RecordOf(crc), a, r);
  }

  /* ------------------------------------------------------------ replay */

  datatype Entry = Entry(rec: Rec, offset: nat)

  /** How a replay ends: at the end of the file, at an incomplete record, at a record
      whose checksum is wrong, or with an exception out of a short read. */
  datatype Outcome = Ended | Torn | Corrupt | Failed

  datatype Replayed = Replayed(entries: seq<Entry>, outcome: Outcome)

  datatype ReadResult = Stop(outcome: Outcome) | Yield(rec: Rec, next: nat)

  /** Split a payload whose checksum matched; None is an exception. */
  function DecodePayload(data: Bytes): Option<Rec> {
    var keyLenBytes := ReadUpTo(data, 1, 4);
    if data == [] || |keyLenBytes| < 4 then None
    else
      var keyEnd := 5 + FromBigEndian(keyLenBytes);
      var valueLenBytes := ReadUpTo(data, keyEnd, 4);
      if |valueLenBytes| < 4 then None
      else Some(Rec(data[0], ReadUpTo(data, 5, keyEnd - 5),
                    ReadUpTo(data, keyEnd + 4, FromBigEndian(valueLenBytes))))
  }

  /** One turn of the replay loop, reading at `pos`. */
  function ReadRecord(crc: Checksum, file: Bytes, pos: nat): (r: ReadResult)
    requires pos < |file|
    ensures r.Yield? ==> pos < r.next <= |file|
  {
    var lengthBytes := ReadUpTo(file, pos, 4);
    if |lengthBytes| < 4 then Stop(Failed)
    else
      var length := FromBigEndian(lengthBytes);
      var payload := ReadUpTo(file, pos + 4, length);
      if |payload| < length then Stop(Torn)
      else if length < 4 then Stop(Failed)
      else
        var data, stored := payload[..length - 4], FromBigEndian(payload[length - 4..]);
        if crc(data) != stored then Stop(Corrupt)
        else
          match DecodePayload(data)
          case None => Stop(Failed)
          case Some(rec) => Yield(rec, pos + 4 + length)
  }

  function ReplayFrom(crc: Checksum, file: Bytes, pos: nat): Replayed
    decreases |file| - pos
  {
    if pos >= |file| then Replayed([], Ended)
    else
      match ReadRecord(crc, file, pos)
      case Stop(outcome) => Replayed([], outcome)
      case Yield(rec, next) =>
        var rest := ReplayFrom(crc, file, next);
        Replayed([Entry(rec, pos)] + rest.entries, rest.outcome)
  }

  /** The entries a log of `rs` starting at byte `base` should replay to. */
  function Entries(rs: seq<Rec>, base: nat): (es: seq<Entry>)
    ensures |es| == |rs|
  {
    if rs == [] then []
    else [Entry(rs[0], base)] + Entries(rs[1..], base + 17 + |rs[0].key| + |rs[0].value|)
  }

  lemma {:induction false} PayloadRoundTrip(r: Rec)
    requires Fits(r)
    ensures DecodePayload(Payload(r)) == Some(r)
  {
    hide BigEndian, FromBigEndian;
    var p := Payload(r);
    var e := 5 + |r.key|;
    var head := [r.op] + Be32(|r.key|) + r.key;
    assert p == head + (Be32(|r.value|) + r.value);
    assert p[0] == r.op;
    assert ReadUpTo(p, 1, 4) == p[1..5] == Be32(|r.key|);
    assert ReadUpTo(p, 5, |r.key|) == p[5..e] == r.key;
    assert ReadUpTo(p, e, 4) == p[e..e + 4] == Be32(|r.value|);
    assert p[e + 4..] == r.value;
    assert ReadUpTo(p, e + 4, |r.value|) == r.value;
    assert FromBigEndian(Be32(|r.key|)) == |r.key| by { hide *; Be32RoundTrip(|r.key|); }
    assert FromBigEndian(Be32(|r.value|)) == |r.value| by { hide *; Be32RoundTrip(|r.value|); }
  }

  /** The bytes of a record, field by field. */
  lemma {:induction false} RecordLayout(crc: Checksum, r: Rec)
    requires Fits(r)
    ensures
      var s, keyEnd := Record(crc, r), 9 + |r.key|;
      var valueEnd := keyEnd + 4 + |r.value|;
      && |s| == valueEnd + 4
      && FromBigEndian(s[..4]) == |s| - 4
      && s[4] == r.op
      && FromBigEndian(s[5..9]) == |r.key| && s[9..keyEnd] == r.key
      && FromBigEndian(s[keyEnd..keyEnd + 4]) == |r.value| && s[keyEnd + 4..valueEnd] == r.value
      && FromBigEndian(s[valueEnd..]) == crc(s[4..valueEnd])
  {
    hide BigEndian, FromBigEndian;
    var s, p, keyEnd := Record(crc, r), Payload(r), 9 + |r.key|;
    assert s == Be32(|p| + 4) + (p + Be32(crc(p)));
    assert s[..4] == Be32(|p| + 4);
    assert s[4..|s| - 4] == p;
    assert s[|s| - 4..] == Be32(crc(p));
    assert s[5..9] == p[1..5] == Be32(|r.key|);
    assert s[9..keyEnd] == p[5..5 + |r.key|] == r.key;
    assert s[keyEnd..keyEnd + 4] == p[5 + |r.key|..9 + |r.key|] == Be32(|r.value|);
    assert s[keyEnd + 4..|s| - 4] == p[9 + |r.key|..] == r.value;
    Be32RoundTrip(|p| + 4);
    Be32RoundTrip(|r.key|);
    Be32RoundTrip(|r.value|);
    Be32RoundTrip(crc(p));
  }

  /** Records fit up to the four bytes of their length. */
  lemma FitsIff(r: Rec)
    ensures Fits(r) <==> 13 + |r.key| + |r.value| < 0x1_0000_0000
  {
    hide BigEndian;
  }

  lemma ReadRecordAt(crc: Checksum, pre: Bytes, r: Rec, post: Bytes)
    requires Fits(r)
    ensures ReadRecord(crc, pre + Record(crc, r) + post, |pre|) == Yield(r, |pre| + |Record(crc, r)|)
  {
    hide Payload, BigEndian, FromBigEndian, DecodePayload;
    var p, sum := Payload(r), Be32(crc(Payload(r)));
    var file, pos, n := pre + Record(crc, r) + post, |pre|, |Payload(r)| + 4;
    assert file[pos..pos + 4] == Be32(n);
    Be32RoundTrip(n);
    assert file[pos + 4..pos + 4 + n] == p + sum;
    assert ReadUpTo(file, pos + 4, n) == p + sum;
    assert (p + sum)[..n - 4] == p && (p + sum)[n - 4..] == sum;
    Be32RoundTrip(crc(p));
    PayloadRoundTrip(r);
  }

  /** Replay walks through whole records wherever they lie, and what follows them is
      replayed as if the walk had started there. */
  lemma {:induction false} ReplayWholeRecords(crc: Checksum, pre: Bytes, rs: seq<Rec>, tail: Bytes)
    requires AllFit(rs)
    ensures
      var file := pre + LogBytes(crc, rs) + tail;
      var rest := ReplayFrom(crc, file, |pre| + |LogBytes(crc, rs)|);
      ReplayFrom(crc, file, |pre|) == Replayed(Entries(rs, |pre|) + rest.entries, rest.outcome)
    decreases |rs|
  {
    hide Record, ReadRecord, LogBytes;
    LogHead(crc, rs);
    if rs != [] {
      var one, more := Record(crc, rs[0]), LogBytes(crc, rs[1..]);
      var file := pre + LogBytes(crc, rs) + tail;
      assert file == pre + one + (more + tail);
      ReadRecordAt(crc, pre, rs[0], more + tail);
      assert file == (pre + one) + more + tail;
      ReplayWholeRecords(crc, pre + one, rs[1..], tail);
    }
  }

  /** Round trip: a log replays to its records, in order, with their start offsets. */
  lemma {:induction false} ReplayRoundTrip(crc: Checksum, rs: seq<Rec>)
    requires AllFit(rs)
    ensures ReplayFrom(crc, LogBytes(crc, rs), 0) == Replayed(Entries(rs, 0), Ended)
  {
    hide Record, ReadRecord, LogBytes;
    ReplayWholeRecords(crc, [], rs, []);
    assert [] + LogBytes(crc, rs) + [] == LogBytes(crc, rs);
  }

  /** The offset replay reports for record `j` is where that record's bytes start. */
  lemma {:induction false} EntryOffsets(crc: Checksum, rs: seq<Rec>, base: nat, j: nat)
    requires j < |rs|
    ensures Entries(rs, base)[j] == Entry(rs[j], base + |LogBytes(crc, rs[..j])|)
    decreases j
  {
    hide Record, LogBytes;
    LogHead(crc, rs[..j]);
    if j > 0 {
      EntryOffsets(crc, rs[1..], base + 17 + |rs[0].key| + |rs[0].value|, j - 1);
      assert rs[..j][1..] == rs[1..][..j - 1];
    }
  }

  /* ------------------------------------------------------------ torn tails */

  /** How many whole records the first `n` bytes of the log hold. */
  function WholeRecords(rs: seq<Rec>, n: nat): (j: nat)
    ensures j <= |rs|
  {
    if rs == [] || 17 + |rs[0].key| + |rs[0].value| > n then 0
    else 1 + WholeRecords(rs[1..], n - (17 + |rs[0].key| + |rs[0].value|))
  }

  /** A file ending inside a record: an exception while the length field itself is cut, a
      torn tail from then on. */
  lemma TornTail(crc: Checksum, rs: seq<Rec>, r: Rec, n: nat)
    requires AllFit(rs) && Fits(r)
    requires 0 < n < |Record(crc, r)|
    ensures ReplayFrom(crc, LogBytes(crc, rs) + Record(crc, r)[..n], 0)
         == Replayed(Entries(rs, 0), if n < 4 then Failed else Torn)
  {
    hide LogBytes, ReplayFrom, Entries, Record, FromBigEndian, DecodePayload;
    var pre, tail := LogBytes(crc, rs), Record(crc, r)[..n];
    if n < 4 {
      assert |ReadUpTo(pre + tail, |pre|, 4)| < 4;
    } else {
      assert tail + [] == tail;
      ReadAcrossJoint(crc, pre, r, n, []);
    }
    StopAfterWholeRecords(crc, rs, tail, if n < 4 then Failed else Torn);
  }

  lemma StopAfterWholeRecords(crc: Checksum, rs: seq<Rec>, tail: Bytes, outcome: Outcome)
    requires AllFit(rs) && tail != []
    requires ReadRecord(crc, LogBytes(crc, rs) + tail, |LogBytes(crc, rs)|) == Stop(outcome)
    ensures ReplayFrom(crc, LogBytes(crc, rs) + tail, 0) == Replayed(Entries(rs, 0), outcome)
  {
    hide LogBytes, Record, ReadRecord, Entries;
    ReplayWholeRecords(crc, [], rs, tail);
    assert [] + LogBytes(crc, rs) + tail == LogBytes(crc, rs) + tail;
  }

  /** Reading the first `n` bytes of a record and whatever follows them, `n` past the
      length field: as many bytes as the record had are taken for it. */
  lemma ReadAcrossJoint(crc: Checksum, pre: Bytes, r: Rec, n: nat, more: Bytes)
    requires Fits(r) && 4 <= n < |Record(crc, r)|
    ensures
      var size, tail := |Record(crc, r)|, Record(crc, r)[..n] + more;
      ReadRecord(crc, pre + tail, |pre|)
        == if |tail| < size then Stop(Torn)
           else if crc(tail[4..size - 4]) != FromBigEndian(tail[size - 4..size]) then Stop(Corrupt)
           else match DecodePayload(tail[4..size - 4])
                case None => Stop(Failed)
                case Some(rec) => Yield(rec, |pre| + size)
  {
    hide Payload, BigEndian, FromBigEndian, DecodePayload;
    var size, tail := |Record(crc, r)|, Record(crc, r)[..n] + more;
    var file := pre + tail;
    assert tail[..4] == Be32(size - 4);
    assert ReadUpTo(file, |pre|, 4) == file[|pre|..|pre| + 4] == tail[..4];
    Be32RoundTrip(size - 4);
    if |tail| >= size {
      var payload := ReadUpTo(file, |pre| + 4, size - 4);
      assert payload == tail[4..size];
      assert payload[..size - 8] == tail[4..size - 4] && payload[size - 8..] == tail[size - 4..size];
    }
  }

  /** A record torn after its length field, with anything behind it: replay stops with
      exactly the records before it if and only if what follows does not complete it or
      the checksum read across the joint is wrong.  Otherwise the bytes across the joint
      are taken for a record, or splitting them raises. */
  lemma {:induction false} TornRecordSwallowsIff(crc: Checksum, rs: seq<Rec>, r: Rec, n: nat, more: Bytes)
    requires AllFit(rs) && Fits(r) && 4 <= n < |Record(crc, r)|
    ensures
      var size, tail := |Record(crc, r)|, Record(crc, r)[..n] + more;
      var replayed := ReplayFrom(crc, LogBytes(crc, rs) + tail, 0);
      var stops := |tail| < size || crc(tail[4..size - 4]) != FromBigEndian(tail[size - 4..size]);
      && ((replayed.outcome == Torn || replayed.outcome == Corrupt) && replayed.entries == Entries(rs, 0) <==> stops)
      && (!stops ==>
            if DecodePayload(tail[4..size - 4]).None? then replayed == Replayed(Entries(rs, 0), Failed)
            else Entries(rs, 0) + [Entry(DecodePayload(tail[4..size - 4]).value, |LogBytes(crc, rs)|)] <= replayed.entries)
  {
    hide LogBytes, Record, ReadRecord, Entries, DecodePayload, FromBigEndian;
    var pre, tail := LogBytes(crc, rs), Record(crc, r)[..n] + more;
    ReadAcrossJoint(crc, pre, r, n, more);
    ReplayWholeRecords(crc, [], rs, tail);
    assert [] + pre + tail == pre + tail;
    var rest := ReplayFrom(crc, pre + tail, |pre|);
    assert rest.entries == [] ==> Entries(rs, 0) + rest.entries == Entries(rs, 0);
  }

  /** A record whose stored checksum is not the one computed ends the replay there, with
      the records before it, whatever follows. */
  lemma {:induction false} CorruptRecordStops(crc: Checksum, rs: seq<Rec>, data: Bytes, stored: u32, more: Bytes)
    requires AllFit(rs) && |data| + 4 < U32 && stored != crc(data)
    ensures ReplayFrom(crc, LogBytes(crc, rs) + (Be32(|data| + 4) + (data + Be32(stored)) + more), 0)
         == Replayed(Entries(rs, 0), Corrupt)
  {
    hide LogBytes, ReplayFrom, Entries, AllFit, BigEndian, FromBigEndian, DecodePayload;
    var pre, n := LogBytes(crc, rs), |data| + 4;
    var tail := Be32(n) + (data + Be32(stored)) + more;
    var file := pre + tail;
    assert file[|pre|..|pre| + 4] == Be32(n);
    Be32RoundTrip(n);
    assert file[|pre| + 4..|pre| + 4 + n] == data + Be32(stored);
    assert ReadUpTo(file, |pre| + 4, n) == data + Be32(stored);
    assert (data + Be32(stored))[..n - 4] == data && (data + Be32(stored))[n - 4..] == Be32(stored);
    Be32RoundTrip(stored);
    StopAfterWholeRecords(crc, rs, tail, Corrupt);
  }

  /** A length below the four bytes of a checksum raises: there is no checksum to read. */
  lemma {:induction false} ShortLengthRaises(crc: Checksum, rs: seq<Rec>, payload: Bytes, more: Bytes)
    requires AllFit(rs) && |payload| < 4
    ensures ReplayFrom(crc, LogBytes(crc, rs) + (Be32(|payload|) + (payload + more)), 0)
         == Replayed(Entries(rs, 0), Failed)
  {
    hide LogBytes, ReplayFrom, Entries, AllFit, BigEndian, FromBigEndian, DecodePayload;
    var pre, tail := LogBytes(crc, rs), Be32(|payload|) + (payload + more);
    assert (pre + tail)[|pre|..|pre| + 4] == Be32(|payload|);
    Be32RoundTrip(|payload|);
    StopAfterWholeRecords(crc, rs, tail, Failed);
  }

  /** A payload whose checksum is right raises exactly when it ends before both of its
      length fields; a key or value that is cut short is taken as it is. */
  lemma {:induction false} ChecksummedPayload(crc: Checksum, rs: seq<Rec>, data: Bytes, more: Bytes)
    requires AllFit(rs) && |data| + 4 < U32
    ensures
      var file := LogBytes(crc, rs) + (Be32(|data| + 4) + (data + Be32(crc(data))) + more);
      var replayed := ReplayFrom(crc, file, 0);
      if |data| < 5 || |data| < 9 + FromBigEndian(data[1..5]) then replayed == Replayed(Entries(rs, 0), Failed)
      else
        var keyEnd := 5 + FromBigEndian(data[1..5]);
        var size := FromBigEndian(data[keyEnd..keyEnd + 4]);
        var value := if size <= |data| - keyEnd - 4 then data[keyEnd + 4..keyEnd + 4 + size] else data[keyEnd + 4..];
        Entries(rs, 0) + [Entry(Rec(data[0], data[5..keyEnd], value), |LogBytes(crc, rs)|)] <= replayed.entries
  {
    hide LogBytes, Entries, AllFit, BigEndian, FromBigEndian, DecodePayload, ReadRecord;
    var pre, tail := LogBytes(crc, rs), Be32(|data| + 4) + (data + Be32(crc(data))) + more;
    ReadChecksummed(crc, pre, data, more);
    DecodedIff(data);
    ReplayWholeRecords(crc, [], rs, tail);
    assert [] + pre + tail == pre + tail;
    var rest := ReplayFrom(crc, pre + tail, |pre|);
    assert rest.entries == [] ==> Entries(rs, 0) + rest.entries == Entries(rs, 0);
  }

  lemma ReadChecksummed(crc: Checksum, pre: Bytes, data: Bytes, more: Bytes)
    requires |data| + 4 < U32
    ensures ReadRecord(crc, pre + (Be32(|data| + 4) + (data + Be32(crc(data))) + more), |pre|)
         == match DecodePayload(data)
            case None => Stop(Failed)
            case Some(rec) => Yield(rec, |pre| + |data| + 8)
  {
    hide BigEndian, FromBigEndian, DecodePayload;
    var n, sum := |data| + 4, Be32(crc(data));
    var file := pre + (Be32(n) + (data + sum) + more);
    assert file[|pre|..|pre| + 4] == Be32(n);
    Be32RoundTrip(n);
    assert file[|pre| + 4..|pre| + 4 + n] == data + sum;
    assert ReadUpTo(file, |pre| + 4, n) == data + sum;
    assert (data + sum)[..n - 4] == data && (data + sum)[n - 4..] == sum;
    Be32RoundTrip(crc(data));
  }

  lemma DecodedIff(data: Bytes)
    ensures DecodePayload(data).None? <==> |data| < 5 || |data| < 9 + FromBigEndian(data[1..5])
    ensures DecodePayload(data).Some? ==>
              var keyEnd := 5 + FromBigEndian(data[1..5]);
              var size := FromBigEndian(data[keyEnd..keyEnd + 4]);
              DecodePayload(data).value
                == Rec(data[0], data[5..keyEnd],
                       if size <= |data| - keyEnd - 4 then data[keyEnd + 4..keyEnd + 4 + size] else data[keyEnd + 4..])
  {
    hide FromBigEndian;
  }

  /** Replay of any byte prefix of a log: exactly the whole records it contains; it ends
      normally, at a torn tail, or -- when one to three bytes of a length field are all
      that remains -- with an exception. */
  lemma {:induction false} ReplayPrefix(crc: Checksum, rs: seq<Rec>, n: nat)
    requires AllFit(rs)
    requires n <= |LogBytes(crc, rs)|
    ensures
      var j := WholeRecords(rs, n);
      && |LogBytes(crc, rs[..j])| <= n
      && var left := n - |LogBytes(crc, rs[..j])|;
      ReplayFrom(crc, LogBytes(crc, rs)[..n], 0)
        == Replayed(Entries(rs[..j], 0), if left == 0 then Ended else if left < 4 then Failed else Torn)
  {
    hide Record, ReadRecord, ReplayFrom, LogBytes;
    var j := WholeRecords(rs, n);
    WholeRecordsBounds(crc, rs, n);
    var whole := LogBytes(crc, rs[..j]);
    assert rs == rs[..j] + rs[j..];
    LogConcat(crc, rs[..j], rs[j..]);
    var left := n - |whole|;
    if left == 0 {
      assert LogBytes(crc, rs)[..n] == whole;
      ReplayRoundTrip(crc, rs[..j]);
    } else {
      LogHead(crc, rs[j..]);
      assert rs[j..][0] == rs[j];
      assert LogBytes(crc, rs)[..n] == whole + Record(crc, rs[j])[..left];
      TornTail(crc, rs[..j], rs[j], left);
    }
  }

  /** `WholeRecords` is the largest number of leading records that fit in `n` bytes. */
  lemma {:induction false} WholeRecordsBounds(crc: Checksum, rs: seq<Rec>, n: nat)
    requires n <= |LogBytes(crc, rs)|
    ensures
      var j := WholeRecords(rs, n);
      && |LogBytes(crc, rs[..j])| <= n
      && (j < |rs| ==> n < |LogBytes(crc, rs[..j])| + |Record(crc, rs[j])|)
      && (j == |rs| ==> n == |LogBytes(crc, rs)|)
    decreases |rs|
  {
    hide Record, LogBytes;
    LogHead(crc, rs);
    if rs != [] && |Record(crc, rs[0])| <= n {
      var j := WholeRecords(rs, n);
      LogHead(crc, rs[..j]);
      WholeRecordsBounds(crc, rs[1..], n - |Record(crc, rs[0])|);
      assert rs[..j][1..] == rs[1..][..j - 1];
      assert j == |rs| ==> rs[..j] == rs && rs[1..][..j - 1] == rs[1..];
    }
  }

  /* ------------------------------------------------------------ truncation */

  /** Cutting a log where record `j` starts leaves the log of the records from `j` on. */
  lemma CutAtRecord(crc: Checksum, rs: seq<Rec>, j: nat)
    requires j <= |rs|
    ensures |LogBytes(crc, rs[..j])| <= |LogBytes(crc, rs)|
    ensures LogBytes(crc, rs)[|LogBytes(crc, rs[..j])|..] == LogBytes(crc, rs[j..])
  {
    hide Record;
    assert rs == rs[..j] + rs[j..];
    LogConcat(crc, rs[..j], rs[j..]);
  }

  /** Truncation commutes with replay: the replay of the cut log is the suffix of the
      replay of the whole log, every offset moved down by the bytes cut. */
  lemma {:induction false} TruncationCommutesWithReplay(crc: Checksum, rs: seq<Rec>, j: nat)
    requires AllFit(rs) && j <= |rs|
    ensures
      var cut := |LogBytes(crc, rs[..j])|;
      && cut <= |LogBytes(crc, rs)|
      && var before := ReplayFrom(crc, LogBytes(crc, rs), 0);
      var after := ReplayFrom(crc, LogBytes(crc, rs)[cut..], 0);
      && after.outcome == Ended == before.outcome
      && |after.entries| == |rs| - j && |before.entries| == |rs|
      && forall i :: 0 <= i < |after.entries| ==>
           before.entries[j + i] == Entry(after.entries[i].rec, after.entries[i].offset + cut)
  {
    hide LogBytes, Record, ReplayFrom, ReadRecord, Entries;
    assert AllFit(rs[j..]);
    var cut := |LogBytes(crc, rs[..j])|;
    CutAtRecord(crc, rs, j);
    ReplayRoundTrip(crc, rs);
    ReplayRoundTrip(crc, rs[j..]);
    var before, after := Entries(rs, 0), Entries(rs[j..], 0);
    assert |after| == |rs| - j && |before| == |rs|;
    forall i | 0 <= i < |after|
      ensures before[j + i] == Entry(after[i].rec, after[i].offset + cut)
    {
      EntryOffsets(crc, rs, 0, j + i);
      EntryOffsets(crc, rs[j..], 0, i);
      assert rs[..j + i] == rs[..j] + rs[j..][..i];
      LogConcat(crc, rs[..j], rs[j..][..i]);
    }
    assert ReplayFrom(crc, LogBytes(crc, rs), 0).entries == before;
    assert ReplayFrom(crc, LogBytes(crc, rs)[cut..], 0).entries == after;
  }
}
