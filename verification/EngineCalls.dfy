/** Whole lives of a store: any list of engine calls, flushes, compactions and reopenings,
    from an empty directory, on bytes -- and what a last reopening shows. */
module EngineCalls {
  import opened ByteStrings
  import opened Tables
  import opened MemTables
  import opened WalCodec
  import WAL = WriteAheadLog
  import opened SSTableFormat
  import opened EngineSteps
  import opened EngineRuns
  import opened OnBytes
  import Engines
  import opened Recovery
  import Refinement

  datatype Call =
    | PutCall(key: Bytes, value: Bytes)
    | DeleteCall(key: Bytes)
    | BatchCall(keys: seq<Bytes>, values: seq<Bytes>)
    | FlushCall
    | CompactCall
    | ReopenCall

  /** What the engine's methods make of a call; None: the store did not open. */
  function Do(crc: Checksum, c: Core, call: Call): Option<Core> {
    match call
    case PutCall(k, v) => Some(PutCore(crc, c, k, v))
    case DeleteCall(k) => Some(DeleteCore(crc, c, k))
    case BatchCall(ks, vs) => Some(BatchCore(crc, c, ks, vs))
    case FlushCall => Some(FlushCore(c))
    case CompactCall => Some(CompactCore(c))
    case ReopenCall => Engines.Reopen(crc, c)
  }

  function Run(crc: Checksum, c: Core, calls: seq<Call>): Option<Core>
    decreases |calls|
  {
    if calls == [] then Some(c)
    else
      match Do(crc, c, calls[0])
      case None => None
      case Some(next) => Run(crc, next, calls[1..])
  }

  /** The operations a call logs: what the client was told is stored. */
  function Accepted(c: Core, call: Call): seq<Op> {
    match call
    case PutCall(k, v) => if Fits(Rec(PUT, k, v)) then [Put(k, v)] else []
    case DeleteCall(k) => if Fits(Rec(DELETE, k, [])) then [Delete(k)] else []
    case BatchCall(ks, vs) => if BatchOutcome(c, ks, vs).Accepted? then BatchOps(ks, vs) else []
    case _ => []
  }

  function History(crc: Checksum, c: Core, calls: seq<Call>): seq<Op>
    decreases |calls|
  {
    if calls == [] then []
    else
      Accepted(c, calls[0]) +
      match Do(crc, c, calls[0])
      case None => []
      case Some(next) => History(crc, next, calls[1..])
  }

  /** The machine's steps for a call. */
  function StepsOf(crc: Checksum, c: Core, call: Call): seq<Step> {
    match call
    case PutCall(k, v) => if Fits(Rec(PUT, k, v)) then [LogStep(PutOp(k, v)), ApplyStep] else [RejectStep]
    case DeleteCall(k) => if Fits(Rec(DELETE, k, [])) then [LogStep(DeleteOp(k)), ApplyStep] else [RejectStep]
    case BatchCall(ks, vs) =>
      (match BatchOutcome(c, ks, vs)
       case Accepted => [LogStep(BatchOp(ks, vs, Estimate(View(c.mem), ks, vs))), ApplyStep]
       case RecordRejected => [RejectStep]
       case LengthsDiffer => []
       case TooLarge => [])
    case FlushCall =>
      if c.mem.frozen == [] || !Writable(c.mem.frozen[0].data) then [] else [SpawnStep(0)] + FlushSteps(0)
    case CompactCall => if c.l0 == [] || !Writable(Stack(c.l0)) then [] else [Compact(|c.l0|)]
    case ReopenCall =>
      var entries := ReplayFrom(crc, c.wal.log, 0).entries;
      var offset := Engines.ReplayInto(Mem(c.mem.maxSize, map[], [], 0, 0), entries).maxOffset;
      [Crash(OpsFound(entries), if offset >= 0 then offset else 0)]
  }

  function RunSteps(crc: Checksum, c: Core, calls: seq<Call>): seq<Step>
    decreases |calls|
  {
    if calls == [] then []
    else
      StepsOf(crc, c, calls[0]) +
      match Do(crc, c, calls[0])
      case None => []
      case Some(next) => RunSteps(crc, next, calls[1..])
  }

  /** Between calls. */
  predicate Settled(s: State) {
    s.client.Idle? && s.holder.Nobody? && s.waiting == {}
  }

  ghost predicate Simulates(crc: Checksum, c: Core, s: State) {
    Stores(crc, c, s) && Settled(s)
  }

  /** The steps of a call are a run of the machine to what the call makes of the bytes. */
  ghost predicate Follows(crc: Checksum, s: State, steps: seq<Step>, after: Core, logged: seq<Op>) {
    Legal(s, steps) && Simulates(crc, after, After(s, steps)) && After(s, steps).hist == s.hist + logged
  }

  lemma WriteFollows(crc: Checksum, s: State, op: ClientOp, after: Core)
    requires Settled(s) && WellFormed(op) && Stores(crc, after, Written(s, op))
    ensures Follows(crc, s, [LogStep(op), ApplyStep], after, OpsOf(op))
  {
    hide Stores, OpsOf, ApplyTo, Append, LastStart, Tab;
    TwoSteps(s, LogStep(op), ApplyStep);
    WrittenParts(s, op);
  }

  lemma RejectFollows(crc: Checksum, s: State, after: Core)
    requires Settled(s) && Stores(crc, after, Next(s, RejectStep))
    ensures Follows(crc, s, [RejectStep], after, [])
  {
    hide Stores;
    OneStep(s, RejectStep);
  }

  lemma NothingFollows(crc: Checksum, c: Core, s: State)
    requires Simulates(crc, c, s)
    ensures Follows(crc, s, [], c, [])
  {
    hide Stores;
  }

  lemma BatchFollows(crc: Checksum, c: Core, s: State, keys: seq<Bytes>, values: seq<Bytes>)
    requires Simulates(crc, c, s)
    ensures Follows(crc, s, StepsOf(crc, c, BatchCall(keys, values)), BatchCore(crc, c, keys, values),
                    Accepted(c, BatchCall(keys, values)))
  {
    hide Stores, Follows, Estimate, View, AllFit, BatchOps;
    match BatchOutcome(c, keys, values)
    case Accepted =>
      BatchOnBytes(crc, c, s, keys, values);
      WriteFollows(crc, s, BatchOp(keys, values, Estimate(View(c.mem), keys, values)), BatchCore(crc, c, keys, values));
    case RecordRejected =>
      RejectBatchOnBytes(crc, c, s, keys, values);
      RejectFollows(crc, s, BatchCore(crc, c, keys, values));
    case _ =>
      NothingFollows(crc, c, s);
  }

  lemma FlushFollows(crc: Checksum, c: Core, s: State)
    requires Simulates(crc, c, s)
    ensures Follows(crc, s, StepsOf(crc, c, FlushCall), FlushCore(c), [])
  {
    hide Writable, SameFile, Truncated, WAL.Truncate, FlushSteps, Legal, After;
    if c.mem.frozen == [] || !Writable(c.mem.frozen[0].data) {
      NothingFollows(crc, c, s);
    } else {
      var t := Next(s, SpawnStep(0));
      OneStep(s, SpawnStep(0));
      FlushOnBytes(crc, c, t, 0);
      assert t.mem.frozen[0].data != map[] by { WritableIsSome(t.mem.frozen[0].data); }
      FlushRun(t, 0);
      ThenRun(s, [SpawnStep(0)], FlushSteps(0));
      assert t.waiting - {0} == {};
    }
  }

  lemma WritableIsSome(t: Table)
    requires Writable(t)
    ensures t != map[]
  {
  }

  lemma CompactFollows(crc: Checksum, c: Core, s: State)
    requires Simulates(crc, c, s)
    ensures Follows(crc, s, StepsOf(crc, c, CompactCall), CompactCore(c), [])
  {
    hide Writable, SameFile, Stack;
    if c.l0 == [] || !Writable(Stack(c.l0)) {
      NothingFollows(crc, c, s);
    } else {
      OneStep(s, Compact(|s.l0|));
      assert s.l0[..|s.l0|] == s.l0 && s.l0[|s.l0|..] == [];
    }
  }

  lemma ReopenFollows(crc: Checksum, c: Core, s: State)
    requires Simulates(crc, c, s) && Engines.Reopen(crc, c).Some?
    ensures Follows(crc, s, StepsOf(crc, c, ReopenCall), Engines.Reopen(crc, c).value, [])
  {
    hide Stores, ReplayFrom, Engines.ReplayInto, OpsFound, Tab, LastAt;
    OpenOnBytes(crc, c, s);
    OneStep(s, StepsOf(crc, c, ReopenCall)[0]);
  }

  lemma {:induction false} CallOnBytes(crc: Checksum, c: Core, s: State, call: Call)
    requires Simulates(crc, c, s) && Do(crc, c, call).Some?
    ensures Follows(crc, s, StepsOf(crc, c, call), Do(crc, c, call).value, Accepted(c, call))
  {
    hide Stores, Follows, Fits, PutCore, DeleteCore, BatchCore, FlushCore, CompactCore, Engines.Reopen, Written, BatchOutcome;
    match call
    case PutCall(k, v) =>
      if Fits(Rec(PUT, k, v)) {
        PutOnBytes(crc, c, s, k, v);
        WriteFollows(crc, s, PutOp(k, v), PutCore(crc, c, k, v));
      } else {
        RejectOnBytes(crc, c, s, k, v);
        RejectFollows(crc, s, PutCore(crc, c, k, v));
      }
    case DeleteCall(k) =>
      if Fits(Rec(DELETE, k, [])) {
        DeleteOnBytes(crc, c, s, k);
        WriteFollows(crc, s, DeleteOp(k), DeleteCore(crc, c, k));
      } else {
        RejectDeleteOnBytes(crc, c, s, k);
        RejectFollows(crc, s, DeleteCore(crc, c, k));
      }
    case BatchCall(ks, vs) => BatchFollows(crc, c, s, ks, vs);
    case FlushCall => FlushFollows(crc, c, s);
    case CompactCall => CompactFollows(crc, c, s);
    case ReopenCall => ReopenFollows(crc, c, s);
  }

  lemma FollowsSimulates(crc: Checksum, s: State, steps: seq<Step>, after: Core, logged: seq<Op>)
    requires Follows(crc, s, steps, after, logged)
    ensures Legal(s, steps) && Simulates(crc, after, After(s, steps))
  {
    hide Simulates, Legal, After;
  }

  /** Runs of calls compose. */
  lemma FollowOn(crc: Checksum, s: State, first: seq<Step>, mid: Core, logged: seq<Op>,
                 second: seq<Step>, end: Core, more: seq<Op>)
    requires Follows(crc, s, first, mid, logged)
    requires Legal(s, first) && Follows(crc, After(s, first), second, end, more)
    ensures Follows(crc, s, first + second, end, logged + more)
  {
    hide Simulates, Legal, After;
    ThenRun(s, first, second);
  }

  /** Every life of the store on bytes is a run of the machine, whose history is what the
      calls accepted. */
  lemma {:induction false} CallsOnBytes(crc: Checksum, c: Core, s: State, calls: seq<Call>)
    requires Simulates(crc, c, s) && Run(crc, c, calls).Some?
    ensures Follows(crc, s, RunSteps(crc, c, calls), Run(crc, c, calls).value, History(crc, c, calls))
    decreases |calls|
  {
    hide Do, StepsOf, Accepted, Simulates, Follows;
    if calls == [] {
      NothingFollows(crc, c, s);
    } else {
      var first, next := StepsOf(crc, c, calls[0]), Do(crc, c, calls[0]).value;
      CallOnBytes(crc, c, s, calls[0]);
      FollowsSimulates(crc, s, first, next, Accepted(c, calls[0]));
      var t := After(s, first);
      CallsOnBytes(crc, next, t, calls[1..]);
      FollowOn(crc, s, first, next, Accepted(c, calls[0]), RunSteps(crc, next, calls[1..]),
               Run(crc, next, calls[1..]).value, History(crc, next, calls[1..]));
    }
  }

  function Empty(maxSize: int): Core {
    Core(Mem(maxSize, map[], [], 0, 0), WAL.Wal([], WAL.Closed), [], [])
  }

  /** End to end.  Take any list of calls from an empty directory that the store survives
      opened: its bytes are the machine's state after a run of it.  If that run's
      reopenings so far lost nothing and the log is whole records, a further reopening
      succeeds and shows exactly what the calls accepted if and only if nothing orphaned or
      cut off is missing -- always, if the run is safe. */
  lemma {:induction false} BytesRecover(crc: Checksum, maxSize: int, calls: seq<Call>)
    requires Run(crc, Empty(maxSize), calls).Some?
    ensures var c, steps := Run(crc, Empty(maxSize), calls).value, RunSteps(crc, Empty(maxSize), calls);
            && Legal(Init(maxSize), steps)
            && var s := After(Init(maxSize), steps);
            && Stores(crc, c, s)
            && (LosslessCrashes(Init(maxSize), steps) && s.log.file.Records? ==>
                  && Engines.Reopen(crc, c).Some?
                  && (Contents(Engines.Reopen(crc, c).value) == Tab(History(crc, Empty(maxSize), calls)) <==> Lossless(s)))
            && (SafeRun(Init(maxSize), steps) ==>
                  && Engines.Reopen(crc, c).Some?
                  && Contents(Engines.Reopen(crc, c).value) == Tab(History(crc, Empty(maxSize), calls)))
  {
    hide Run, RunSteps, History, Stores, Legal, After, LosslessCrashes, SafeRun, Lossless, Durable, Engines.Reopen, Tab;
    var c0 := Empty(maxSize);
    EmptyStores(crc, maxSize);
    CallsOnBytes(crc, c0, Init(maxSize), calls);
    var c, steps := Run(crc, c0, calls).value, RunSteps(crc, c0, calls);
    var s := After(Init(maxSize), steps);
    assert Init(maxSize).hist + History(crc, c0, calls) == History(crc, c0, calls);
    if s.log.file.Records? {
      ReopenShows(crc, c, s);
      if LosslessCrashes(Init(maxSize), steps) {
        RecoveryIff(maxSize, steps);
      }
    }
    if SafeRun(Init(maxSize), steps) {
      CrashRecovery(maxSize, steps);
    }
  }

  lemma EmptyStores(crc: Checksum, maxSize: int)
    ensures Simulates(crc, Empty(maxSize), Init(maxSize))
  {
    hide FileOf;
    FileOfNone(crc);
  }

  /** Opening bytes of whole records shows what the machine shows reopened. */
  lemma ReopenShows(crc: Checksum, c: Core, s: State)
    requires Stores(crc, c, s) && s.log.file.Records?
    ensures Engines.Reopen(crc, c).Some?
    ensures Contents(Engines.Reopen(crc, c).value) == Shown(Restart(s))
  {
    hide Engines.Reopen, ReplayFrom, Engines.ReplayInto, OpsFound, Tab, LastAt, SameFile, View, EngineSteps.Levels;
    OpenOnBytes(crc, c, s);
  }
}
