/** The engine as a transition system: one client at a time, any number of flush threads,
    completed compactions, and crashes between any two steps.  The log is kept as the
    records a restart would read; `OnBytes` ties it to the bytes. */
module EngineRuns {
  import opened ByteStrings
  import opened Tables
  import opened MemTables
  import opened EngineSteps

  /* ------------------------------------------------------------ the log */

  /** Bytes of an operation's record. */
  function RecordSize(op: Op): nat {
    17 + |op.key| + if op.Put? then |op.value| else 0
  }

  function Size(ops: seq<Op>): nat {
    if ops == [] then 0 else Size(ops[..|ops| - 1]) + RecordSize(ops[|ops| - 1])
  }

  /** Where the last record starts, counted from where the first one does. */
  function LastAt(ops: seq<Op>): nat {
    if ops == [] then 0 else Size(ops[..|ops| - 1])
  }

  /** The file at the log's path: whole records, or the `size` bytes left by a cut inside a
      record, from which a restart may read anything or nothing.  `ops` are the operations
      of this opening that no cut has taken out as a whole. */
  datatype File = Records(ops: seq<Op>) | Mangled(ops: seq<Op>, size: nat)

  function FileSize(f: File): nat {
    if f.Records? then Size(f.ops) else f.size
  }

  function Extend(f: File, ops: seq<Op>): File {
    match f
    case Records(before) => Records(before + ops)
    case Mangled(before, size) => Mangled(before + ops, size + Size(ops))
  }

  /** An orphaned handle writes to `size` bytes no restart will read. */
  datatype Handle = Closed | Attached(pos: nat) | Orphan(size: nat, pos: nat)

  datatype Log = Log(file: File, handle: Handle)

  function Opened(log: Log): (l: Log)
    ensures !l.handle.Closed?
  {
    if log.handle.Closed? then log.(handle := Attached(FileSize(log.file))) else log
  }

  function Append(log: Log, ops: seq<Op>): Log {
    var l := Opened(log);
    if ops == [] then l
    else
      match l.handle
      case Attached(_) => Log(Extend(log.file, ops), Attached(FileSize(log.file) + Size(ops)))
      case Orphan(size, _) => l.(handle := Orphan(size + Size(ops), size + Size(ops)))
  }

  /** The records from byte `offset` on, if a record starts there. */
  function From(ops: seq<Op>, offset: nat): Option<seq<Op>> {
    if offset == 0 then Some(ops)
    else if ops == [] || offset < RecordSize(ops[0]) then None
    else From(ops[1..], offset - RecordSize(ops[0]))
  }

  /** What cutting `offset` bytes off the front leaves, `0 < offset < FileSize(f)`. */
  function Rest(f: File, offset: nat): File
    requires offset < FileSize(f)
  {
    if f.Mangled? then Mangled(f.ops, f.size - offset)
    else
      match From(f.ops, offset)
      case None => Mangled(f.ops, Size(f.ops) - offset)
      case Some(rest) => Records(rest)
  }

  function Truncated(log: Log, offset: int): Log {
    if offset <= 0 then log
    else if offset >= FileSize(log.file) then log.(file := Records([]))
    else Log(Rest(log.file, offset),
             if log.handle.Attached? then Orphan(FileSize(log.file), log.handle.pos) else log.handle)
  }

  /* -------------------------------------------------------- the machine */

  datatype ClientOp =
    | PutOp(key: Bytes, value: Bytes)
    | DeleteOp(key: Bytes)
    | BatchOp(keys: seq<Bytes>, values: seq<Bytes>, estimate: int)

  predicate WellFormed(c: ClientOp) {
    c.BatchOp? ==> |c.keys| == |c.values|
  }

  function OpsOf(c: ClientOp): (ops: seq<Op>)
    requires WellFormed(c)
  {
    match c
    case PutOp(k, v) => [Put(k, v)]
    case DeleteOp(k) => [Delete(k)]
    case BatchOp(ks, vs, _) => BatchOps(ks, vs)
  }

  /** A client between its log append and its memtable update. */
  datatype Client = Idle | Logged(op: ClientOp, offset: nat)

  /** Where the thread holding the flush lock is. */
  datatype FlushPc =
    | Started
    | Got(buffer: Table)
    | Ready(buffer: Table, offset: int)
    | Published(buffer: Table, offset: int)
    | Cleared(offset: int)

  datatype Holder = Nobody | Held(tid: nat, pc: FlushPc)

  /** `cuts` counts the effective truncations since the last opening that found whole
      records.  The fields behind it are history: `hist` is every operation ever logged,
      `origin` what the last opening showed and `since` what was logged after it.  Of the
      operations this opening found or logged, in order, `done` is what flushed buffers
      held, `segs[i]` what frozen buffer `i` holds, `tail` what the active table holds;
      and, again in order, `cutoff` is what truncations took out of the file and `lost`
      what went through an orphaned handle.  `froze`, `dropped`, `shipped` are the buffers
      frozen, dropped and published since opening; `retired` counts the level-0 tables, of
      `base` and then `shipped`, that compactions have taken away. */
  datatype State = State(
    mem: Mem, log: Log, l0: seq<Table>, l1: seq<Table>,
    client: Client, waiting: set<nat>, holder: Holder, cuts: nat,
    hist: seq<Op>, origin: Table, since: seq<Op>,
    done: seq<Op>, segs: seq<seq<Op>>, tail: seq<Op>, cutoff: seq<Op>, lost: seq<Op>,
    froze: seq<Table>, dropped: seq<Table>, shipped: seq<Table>, base: seq<Table>, retired: nat)

  function OnDisk(s: State): Table {
    Levels(s.l0, s.l1)
  }

  /** What a read sees. */
  function Shown(s: State): Table {
    OnDisk(s) + View(s.mem)
  }

  function Pending(s: State): seq<Op> {
    if s.client.Logged? && WellFormed(s.client.op) then OpsOf(s.client.op) else []
  }

  /** What every operation since the last opening, on top of what that opening showed,
      adds up to. */
  function Expected(s: State): Table {
    s.origin + Tab(s.since)
  }

  function Init(maxSize: int): State {
    State(Mem(maxSize, map[], [], 0, 0), Log(Records([]), Closed), [], [], Idle, {}, Nobody, 0,
          [], map[], [], [], [], [], [], [], [], [], [], [], 0)
  }

  /** `LogStep` and `ApplyStep` are the two halves of a write, `RejectStep` a write refused
      for its length after the log was opened.  A flush thread is spawned, takes the lock,
      and goes from `ReadHead` to `Cut`; `Compact(n)` is a completed compaction of the
      `n` oldest level-0 tables.  `Crash` is a crash and an opening that replays `found`,
      the last record at `offset`. */
  datatype Step =
    | LogStep(op: ClientOp) | ApplyStep | RejectStep | RotateStep
    | SpawnStep(t: nat) | AcquireStep(t: nat)
    | ReadHead | ReadOffset | FailWrite | Publish | Clear | Cut
    | Compact(n: nat)
    | Crash(found: seq<Op>, offset: nat)

  /** A file of whole records replays to them; of a mangled one nothing is said here. */
  predicate Finds(f: File, found: seq<Op>, offset: nat) {
    f.Records? ==> found == f.ops && offset == LastAt(f.ops)
  }

  predicate Enabled(s: State, step: Step) {
    match step
    case LogStep(op) => s.client.Idle? && WellFormed(op)
    case ApplyStep => s.client.Logged? && WellFormed(s.client.op)
    case RejectStep => s.client.Idle?
    case RotateStep => true
    case SpawnStep(t) => t !in s.waiting && !(s.holder.Held? && s.holder.tid == t)
    case AcquireStep(t) => t in s.waiting && s.holder.Nobody?
    case ReadHead => s.holder.Held? && s.holder.pc.Started?
    case ReadOffset => s.holder.Held? && s.holder.pc.Got?
    case FailWrite => s.holder.Held? && s.holder.pc.Ready?
    case Publish => s.holder.Held? && s.holder.pc.Ready?
    case Clear => s.holder.Held? && s.holder.pc.Published?
    case Cut => s.holder.Held? && s.holder.pc.Cleared?
    case Compact(n) => n <= |s.l0|
    case Crash(found, offset) => Finds(s.log.file, found, offset)
  }

  function ApplyTo(m: Mem, op: ClientOp, offset: int): Mem
    requires WellFormed(op)
  {
    match op
    case PutOp(k, v) => MemPut(m, k, v, offset)
    case DeleteOp(k) => MemDelete(m, k, offset)
    case BatchOp(ks, vs, estimate) => MemBatch(m, ks, vs, estimate, offset)
  }

  /** The offset a client gets back: where its last record starts. */
  function LastStart(log: Log, ops: seq<Op>): nat {
    Opened(log).handle.pos + LastAt(ops)
  }

  /** History of a memory update: which operations moved into a new frozen segment. */
  function ApplyHistory(s: State): State
    requires Enabled(s, ApplyStep)
  {
    var m, ops := ApplyTo(s.mem, s.client.op, s.client.offset), OpsOf(s.client.op);
    var t := s.(mem := m, client := Idle);
    if m.frozen == s.mem.frozen then t.(tail := s.tail + ops)
    else if s.client.op.BatchOp? then
      t.(segs := s.segs + [s.tail], tail := ops, froze := s.froze + [s.mem.data])
    else
      t.(segs := s.segs + [s.tail + ops], tail := [], froze := s.froze + [m.frozen[|m.frozen| - 1].data])
  }

  /** Reopening over the same files: the operations found, in an empty memtable. */
  function Reopened(s: State, found: seq<Op>, offset: nat): State {
    var file := if s.log.file.Records? then s.log.file else Mangled(found, s.log.file.size);
    State(Mem(s.mem.maxSize, Tab(found), [], ValueBytes(Tab(found)), offset), Log(file, Closed), s.l0, s.l1,
          Idle, {}, Nobody, if file.Records? then 0 else s.cuts,
          s.hist, OnDisk(s) + Tab(found), [], [], [], found, [], [], [], [], [], s.l0, 0)
  }

  /** Reopening a file of whole records. */
  function Restart(s: State): State
    requires s.log.file.Records?
  {
    Reopened(s, s.log.file.ops, LastAt(s.log.file.ops))
  }

  /** The operations a cut that left `rest` took from the front of `ops`. */
  function Dropped(ops: seq<Op>, rest: seq<Op>): seq<Op> {
    if |rest| <= |ops| then ops[..|ops| - |rest|] else []
  }

  function Next(s: State, step: Step): State
    requires Enabled(s, step)
  {
    match step
    case LogStep(op) =>
      s.(log := Append(s.log, OpsOf(op)), client := Logged(op, LastStart(s.log, OpsOf(op))),
         hist := s.hist + OpsOf(op), since := s.since + OpsOf(op),
         lost := if s.log.handle.Orphan? then s.lost + OpsOf(op) else s.lost)
    case ApplyStep => ApplyHistory(s)
    case RejectStep => s.(log := Opened(s.log))
    case RotateStep =>
      s.(mem := RotateMem(s.mem), segs := s.segs + [s.tail], tail := [], froze := s.froze + [s.mem.data])
    case SpawnStep(t) => s.(waiting := s.waiting + {t})
    case AcquireStep(t) => s.(waiting := s.waiting - {t}, holder := Held(t, Started))
    case ReadHead =>
      if s.mem.frozen == [] || s.mem.frozen[0].data == map[] then s.(holder := Nobody)
      else s.(holder := Held(s.holder.tid, Got(s.mem.frozen[0].data)))
    case ReadOffset =>
      var offset := if s.mem.frozen == [] then 0 else s.mem.frozen[0].offset;
      s.(holder := Held(s.holder.tid, Ready(s.holder.pc.buffer, offset)))
    case FailWrite => s.(holder := Nobody)
    case Publish =>
      s.(l0 := s.l0 + [s.holder.pc.buffer],
         holder := Held(s.holder.tid, Published(s.holder.pc.buffer, s.holder.pc.offset)),
         shipped := s.shipped + [s.holder.pc.buffer])
    case Clear =>
      var t := s.(mem := ClearMem(s.mem), holder := Held(s.holder.tid, Cleared(s.holder.pc.offset)));
      if s.mem.frozen == [] || s.segs == [] then t
      else t.(done := s.done + s.segs[0], segs := s.segs[1..], dropped := s.dropped + [s.mem.frozen[0].data])
    case Cut =>
      var log := Truncated(s.log, s.holder.pc.offset);
      if s.holder.pc.offset <= 0 then s.(holder := Nobody)
      else s.(log := log, holder := Nobody, cuts := s.cuts + 1, cutoff := s.cutoff + Dropped(s.log.file.ops, log.file.ops))
    case Compact(n) =>
      s.(l0 := s.l0[n..], l1 := s.l1 + [Stack(s.l0[..n])], retired := s.retired + n)
    case Crash(found, offset) => Reopened(s, found, offset)
  }

  /* ---------------------------------------------------------------- runs */

  ghost predicate Legal(s: State, steps: seq<Step>)
    decreases |steps|
  {
    steps == [] || (Enabled(s, steps[0]) && Legal(Next(s, steps[0]), steps[1..]))
  }

  function After(s: State, steps: seq<Step>): State
    requires Legal(s, steps)
    decreases |steps|
  {
    if steps == [] then s else After(Next(s, steps[0]), steps[1..])
  }

  /** One whole flush by thread `t`. */
  function FlushSteps(t: nat): seq<Step> {
    [AcquireStep(t), ReadHead, ReadOffset, Publish, Clear, Cut]
  }

  ghost predicate NoCrash(steps: seq<Step>) {
    forall i :: 0 <= i < |steps| ==> !steps[i].Crash?
  }

  lemma OneStep(s: State, a: Step)
    requires Enabled(s, a)
    ensures Legal(s, [a]) && After(s, [a]) == Next(s, a)
  {
    hide Enabled, Next;
    var s1 := Next(s, a);
    assert Legal(s1, []) && After(s1, []) == s1;
    assert [a][1..] == [];
  }

  lemma TwoSteps(s: State, a: Step, b: Step)
    requires Enabled(s, a) && Enabled(Next(s, a), b)
    ensures Legal(s, [a, b])
    ensures After(s, [a, b]) == Next(Next(s, a), b)
  {
    hide Enabled, Next;
    var s1 := Next(s, a);
    var s2 := Next(s1, b);
    assert Legal(s2, []) && After(s2, []) == s2;
    assert [b][1..] == [] && [a, b][1..] == [b];
    assert Legal(s1, [b]) && After(s1, [b]) == s2;
  }

  lemma ThreeSteps(s: State, a: Step, b: Step, c: Step)
    requires Enabled(s, a) && Enabled(Next(s, a), b) && Enabled(Next(Next(s, a), b), c)
    ensures Legal(s, [a, b, c])
    ensures After(s, [a, b, c]) == Next(Next(Next(s, a), b), c)
  {
    hide Enabled, Next;
    var s1 := Next(s, a);
    var s2 := Next(s1, b);
    var s3 := Next(s2, c);
    assert Legal(s3, []) && After(s3, []) == s3;
    assert [c][1..] == [] && [b, c][1..] == [c] && [a, b, c][1..] == [b, c];
    assert Legal(s2, [c]) && After(s2, [c]) == s3;
    assert Legal(s1, [b, c]) && After(s1, [b, c]) == s3;
  }

  /** Runs compose. */
  lemma {:induction false} ThenRun(s: State, first: seq<Step>, second: seq<Step>)
    requires Legal(s, first) && Legal(After(s, first), second)
    ensures Legal(s, first + second)
    ensures After(s, first + second) == After(After(s, first), second)
    decreases |first|
  {
    hide Enabled, Next;
    if first == [] {
      assert first + second == second;
    } else {
      ThenRun(Next(s, first[0]), first[1..], second);
      assert (first + second)[1..] == first[1..] + second;
    }
  }

  /* ------------------------------------------------- buffers and contents */

  /** The thread holding the lock works on the head of the queue. */
  ghost predicate HeadKept(s: State) {
    && (s.holder.Held? && (s.holder.pc.Got? || s.holder.pc.Ready? || s.holder.pc.Published?) ==>
          && s.mem.frozen != [] && s.mem.frozen[0].data == s.holder.pc.buffer && s.holder.pc.buffer != map[])
    && (s.holder.Held? && (s.holder.pc.Ready? || s.holder.pc.Published?) ==> s.mem.frozen[0].offset == s.holder.pc.offset)
  }

  /** Every buffer frozen is either dropped or still queued, in order; what was published
      is what was dropped, plus the head while it is between publication and removal. */
  ghost predicate Conserved(s: State) {
    && s.froze == s.dropped + Buffers(s.mem.frozen)
    && s.shipped == s.dropped + (if s.holder.Held? && s.holder.pc.Published? then [s.holder.pc.buffer] else [])
    && s.retired <= |s.base + s.shipped|
    && s.l0 == (s.base + s.shipped)[s.retired..]
  }

  /** What is shown, with what is logged but not yet applied, is what the last opening
      showed and everything logged since. */
  ghost predicate Faithful(s: State) {
    && Shown(s) + Tab(Pending(s)) == Expected(s)
    && (s.holder.Held? && s.holder.pc.Published? ==> Absorbs(OnDisk(s), s.holder.pc.buffer))
  }

  ghost predicate Sound(s: State) {
    HeadKept(s) && Conserved(s) && Faithful(s) && |s.segs| == |s.mem.frozen|
  }
}
