/** The log file and the handle appends go through.  Replacing the file under an open
    handle leaves that handle on the old, now unreachable, inode. */
module WriteAheadLog {
  import opened ByteStrings
  import opened Tables
  import opened WalCodec

  /** `Attached`: the handle is on the file at the log's path; `Orphan`: it is on an inode
      no path leads to any more.  `pos` is what `tell()` answers. */
  datatype Handle = Closed | Attached(pos: nat) | Orphan(inode: Bytes, pos: nat)

  /** `log` is the content of the file at the log's path: what a restart finds. */
  datatype Wal = Wal(log: Bytes, handle: Handle)

  datatype AppendResult = Appended(offset: nat) | LengthMismatch | RecordTooLarge

  function Opened(w: Wal): (o: Wal)
    ensures !o.handle.Closed?
  {
    if w.handle.Closed? then w.(handle := Attached(|w.log|)) else w
  }

  /** An append-mode write: at the end of whichever file the handle is on. */
  function WriteTo(w: Wal, data: Bytes): Wal
    requires !w.handle.Closed?
  {
    match w.handle
    case Attached(_) => Wal(w.log + data, Attached(|w.log| + |data|))
    case Orphan(inode, _) => w.(handle := Orphan(inode + data, |inode| + |data|))
  }

  function AppendTo(w: Wal, data: Bytes): Wal {
    WriteTo(Opened(w), data)
  }

  function Truncate(w: Wal, offset: int): Wal {
    if offset <= 0 then w
    else if offset >= |w.log| then w.(log := [])
    else Wal(w.log[offset..], if w.handle.Attached? then Orphan(w.log, w.handle.pos) else w.handle)
  }

  /** The records of a batch. */
  function BatchRecs(op: byte, keys: seq<Bytes>, values: seq<Bytes>): (rs: seq<Rec>)
    requires |keys| == |values|
    ensures |rs| == |keys|
  {
    seq(|keys|, i requires 0 <= i < |keys| => Rec(op, keys[i], values[i]))
  }

  class WAL {
    const crc: Checksum
    var log: Bytes
    var handle: Handle

    function Value(): Wal
      reads this
    {
      Wal(log, handle)
    }

    /** Opens over an existing file; the first append opens the handle. */
    constructor (crc: Checksum, log: Bytes)
      ensures this.crc == crc
      ensures Value() == Wal(log, Closed)
    {
      this.crc := crc;
      this.log := log;
      handle := Closed;
    }

    method Open()
      modifies this
      ensures Value() == Opened(old(Value()))
    {
      if handle.Closed? {
        handle := Attached(|log|);
      }
    }

    /** None when a length does not fit its field. */
    static method ConstructRecord(crc: Checksum, op: byte, key: Bytes, value: Bytes) returns (r: Option<Bytes>)
      ensures r == if Fits(Rec(op, key, value)) then Some(Record(crc, Rec(op, key, value))) else None
    {
      hide BigEndian;
      var record: Bytes := [op];
      if |key| >= U32 {
        return None;
      }
      record := record + Be32(|key|);
      record := record + key;
      if |value| >= U32 {
        return None;
      }
      record := record + Be32(|value|);
      record := record + value;
      assert record == Payload(Rec(op, key, value));
      var checksum := crc(record);
      var body := record + Be32(checksum);
      if |body| >= U32 {
        return None;
      }
      return Some(Be32(|body|) + body);
    }

    method Write(data: Bytes)
      requires !handle.Closed?
      modifies this
      ensures Value() == WriteTo(old(Value()), data)
    {
      match handle
      case Attached(_) =>
        log := log + data;
        handle := Attached(|log|);
      case Orphan(inode, _) =>
        handle := Orphan(inode + data, |inode + data|);
    }

    /** The offset returned is where the record starts; a record that does not fit raises
        and writes nothing. */
    method Append(op: byte, key: Bytes, value: Bytes) returns (result: AppendResult)
      modifies this
      ensures Fits(Rec(op, key, value)) ==>
                && result == Appended(Opened(old(Value())).handle.pos)
                && Value() == AppendTo(old(Value()), Record(crc, Rec(op, key, value)))
      ensures !Fits(Rec(op, key, value)) ==> result == RecordTooLarge && Value() == Opened(old(Value()))
    {
      hide Record, Fits;
      Open();
      var record := ConstructRecord(crc, op, key, value);
      if record.None? {
        return RecordTooLarge;
      }
      var offset := handle.pos;
      Write(record.value);
      return Appended(offset);
    }

    /** All records of a batch in one write; the offset returned is where the last one
        starts, or the end of the file for an empty batch. */
    method AppendBatch(op: byte, keys: seq<Bytes>, values: seq<Bytes>) returns (result: AppendResult)
      modifies this
      ensures |keys| != |values| ==> result == LengthMismatch && Value() == old(Value())
      ensures |keys| == |values| ==>
                var recs, w := BatchRecs(op, keys, values), Opened(old(Value()));
                && (AllFit(recs) && keys != [] ==>
                      && result == Appended(w.handle.pos + |LogBytes(crc, recs[..|recs| - 1])|)
                      && Value() == WriteTo(w, LogBytes(crc, recs)))
                && (keys == [] ==> result == Appended(w.handle.pos) && Value() == w)
                && (!AllFit(recs) ==> result == RecordTooLarge && Value() == w)
    {
      hide Record, Fits;
      if |keys| != |values| {
        return LengthMismatch;
      }
      Open();
      ghost var recs := BatchRecs(op, keys, values);
      if keys == [] {
        return Appended(handle.pos);
      }
      var batch: Bytes := [];
      var record: Option<Bytes> := None;
      var i := 0;
      while i < |keys|
        invariant 0 <= i <= |keys|
        invariant Value() == Opened(old(Value()))
        invariant AllFit(recs[..i])
        invariant batch == LogBytes(crc, recs[..i])
        invariant i > 0 ==> record == Some(Record(crc, recs[i - 1]))
      {
        record := ConstructRecord(crc, op, keys[i], values[i]);
        if record.None? {
          assert recs[i] in recs;
          return RecordTooLarge;
        }
        batch := batch + record.value;
        assert recs[..i + 1] == recs[..i] + [recs[i]];
        LogSnoc(crc, recs[..i], recs[i]);
        i := i + 1;
      }
      assert recs[..i] == recs;
      assert recs == recs[..|recs| - 1] + [recs[|recs| - 1]];
      LogSnoc(crc, recs[..|recs| - 1], recs[|recs| - 1]);
      var offset := handle.pos + |batch| - |record.value|;
      Write(batch);
      return Appended(offset);
    }

    /** The replay loop over a moving file position. */
    method Replay() returns (result: Replayed)
      ensures result == ReplayFrom(crc, log, 0)
    {
      hide ReadRecord;
      var entries: seq<Entry> := [];
      var pos := 0;
      while pos < |log|
        invariant 0 <= pos <= |log|
        invariant var rest := ReplayFrom(crc, log, pos);
                  ReplayFrom(crc, log, 0) == Replayed(entries + rest.entries, rest.outcome)
        decreases |log| - pos
      {
        match ReadRecord(crc, log, pos)
        case Stop(outcome) =>
          return Replayed(entries, outcome);
        case Yield(rec, next) =>
          assert entries + ReplayFrom(crc, log, pos).entries
              == entries + [Entry(rec, pos)] + ReplayFrom(crc, log, next).entries;
          entries := entries + [Entry(rec, pos)];
          pos := next;
      }
      return Replayed(entries, Ended);
    }

    method TruncateUpto(offset: int)
      modifies this
      ensures Value() == Truncate(old(Value()), offset)
    {
      if offset <= 0 {
        return;
      }
      if offset >= |log| {
        log := [];
        return;
      }
      var oldInode := log;
      log := log[offset..];
      if handle.Attached? {
        handle := Orphan(oldInode, handle.pos);
      }
    }
  }
}
