/** Every run of the engine shows exactly the history of its writes: no step of a write, a
    rotation, a flush or a compaction changes anything else. */
module Refinement {
  import opened ByteStrings
  import opened Tables
  import opened MemTables
  import opened EngineSteps
  import opened EngineRuns
  import Compactions

  lemma AddNone(a: Table)
    ensures a + Tab([]) == a
  {
  }

  /** A client's memory update adds exactly its operations to the memtable's view, and at
      most one buffer to the end of the queue. */
  lemma ApplyView(m: Mem, op: ClientOp, offset: int)
    requires WellFormed(op)
    ensures View(ApplyTo(m, op, offset)) == View(m) + Tab(OpsOf(op))
    ensures ApplyTo(m, op, offset).maxSize == m.maxSize
    ensures ApplyTo(m, op, offset).frozen == m.frozen ==>
              ApplyTo(m, op, offset).data == m.data + Tab(OpsOf(op))
    ensures ApplyTo(m, op, offset).frozen != m.frozen && op.BatchOp? ==>
              && ApplyTo(m, op, offset).frozen == m.frozen + [Frozen(m.data, m.maxOffset)]
              && ApplyTo(m, op, offset).data == Tab(OpsOf(op))
    ensures ApplyTo(m, op, offset).frozen != m.frozen && !op.BatchOp? ==>
              && ApplyTo(m, op, offset).frozen == m.frozen + [Frozen(m.data + Tab(OpsOf(op)), Max(m.maxOffset, offset))]
              && ApplyTo(m, op, offset).data == map[] && ApplyTo(m, op, offset).maxOffset == 0
    ensures ApplyTo(m, op, offset).frozen == m.frozen || !op.BatchOp? || ApplyTo(m, op, offset).maxOffset == offset
    ensures ApplyTo(m, op, offset).frozen == m.frozen ==>
              ApplyTo(m, op, offset).maxOffset == if op.BatchOp? then offset else Max(m.maxOffset, offset)
  {
    hide View, Stack;
    match op
    case PutOp(k, v) =>
      TabOne(Put(k, v));
      MemPutView(m, k, v, offset);
    case DeleteOp(k) =>
      TabOne(Delete(k));
      PutView(m, k, TOMBSTONE);
      RaiseView(PutMem(m, k, TOMBSTONE), offset);
    case BatchOp(ks, vs, estimate) =>
      hide PutAll, Tab;
      MemBatchView(m, ks, vs, estimate, offset);
      PutAllView(m, ks, vs);
      PutAllView(RotateMem(m), ks, vs);
      assert map[] + Tab(BatchOps(ks, vs)) == Tab(BatchOps(ks, vs));
  }

  lemma TabOne(op: Op)
    ensures Tab([op]) == map[op.key := Stored(op)]
    ensures forall t: Table :: t + Tab([op]) == t[op.key := Stored(op)]
  {
    TabSnoc([], op);
    assert [] + [op] == [op];
  }

  lemma InitSound(maxSize: int)
    ensures Sound(Init(maxSize))
  {
    assert Buffers([]) == [];
  }

  lemma LogSound(s: State, op: ClientOp)
    requires Sound(s) && Enabled(s, LogStep(op))
    ensures Sound(Next(s, LogStep(op)))
  {
    hide View, Tab, Stack, Levels, Append, LastStart;
    TabConcat(s.since, OpsOf(op));
    OverlayAssoc(s.origin, Tab(s.since), Tab(OpsOf(op)));
    AddNone(Shown(s));
  }

  lemma ApplySound(s: State)
    requires Sound(s) && Enabled(s, ApplyStep)
    ensures Sound(Next(s, ApplyStep))
  {
    hide View, Tab, Stack, Levels, ApplyTo, OpsOf;
    var m := ApplyTo(s.mem, s.client.op, s.client.offset);
    ApplyView(s.mem, s.client.op, s.client.offset);
    OverlayAssoc(OnDisk(s), View(s.mem), Tab(OpsOf(s.client.op)));
    AddNone(Shown(Next(s, ApplyStep)));
    if m.frozen != s.mem.frozen {
      BuffersSnoc(s.mem.frozen, m.frozen[|m.frozen| - 1]);
      assert s.mem.frozen != [] ==> m.frozen[0] == s.mem.frozen[0];
    }
  }

  lemma BuffersSnoc(q: seq<Frozen>, f: Frozen)
    ensures Buffers(q + [f]) == Buffers(q) + [f.data]
  {
  }

  lemma RotateSound(s: State)
    requires Sound(s)
    ensures Sound(Next(s, RotateStep))
  {
    hide View, Tab, Stack, Levels, OpsOf;
    RotateView(s.mem);
    BuffersSnoc(s.mem.frozen, Frozen(s.mem.data, s.mem.maxOffset));
  }

  lemma PublishSound(s: State)
    requires Sound(s) && Enabled(s, Publish)
    ensures Sound(Next(s, Publish))
  {
    hide View, Tab, ClearMem, OpsOf, Stack, Expected;
    SameExpected(s, Next(s, Publish));
    var b := s.holder.pc.buffer;
    StackSnoc(s.l0, b);
    ClearView(s.mem);
    Rebase(Stack(s.l1), Stack(s.l0), b, View(ClearMem(s.mem)));
    ShipOne(s.base, s.shipped, b, s.retired);
  }

  lemma ShipOne(base: seq<Table>, shipped: seq<Table>, b: Table, retired: nat)
    requires retired <= |base + shipped|
    ensures (base + (shipped + [b]))[retired..] == (base + shipped)[retired..] + [b]
  {
    assert base + (shipped + [b]) == (base + shipped) + [b];
  }

  lemma Rebase(l1: Table, l0: Table, b: Table, rest: Table)
    ensures l1 + (l0 + b) + (b + rest) == l1 + l0 + (b + rest)
    ensures Absorbs(l1 + (l0 + b), b)
  {
  }

  lemma SameExpected(s: State, t: State)
    requires t.origin == s.origin && t.since == s.since
    ensures Expected(t) == Expected(s)
  {
  }

  lemma {:induction false} ClearSound(s: State)
    requires Sound(s) && Enabled(s, Clear)
    ensures Sound(Next(s, Clear))
  {
    hide View, Tab, OpsOf, Stack, Levels, Expected;
    SameExpected(s, Next(s, Clear));
    ClearView(s.mem);
    AbsorbsIsNoChange(OnDisk(s), s.holder.pc.buffer);
    OverlayAssoc(OnDisk(s), s.holder.pc.buffer, View(ClearMem(s.mem)));
    assert Buffers(s.mem.frozen) == [s.mem.frozen[0].data] + Buffers(s.mem.frozen[1..]);
  }

  lemma {:induction false} CompactSound(s: State, n: nat)
    requires Sound(s) && Enabled(s, Compact(n))
    ensures OnDisk(Next(s, Compact(n))) == OnDisk(s)
    ensures Sound(Next(s, Compact(n)))
  {
    hide View, Tab, OpsOf, Stack;
    assert s.l0 == s.l0[..n] + s.l0[n..];
    Compactions.CompactionPreservesView(s.l1, s.l0[..n], s.l0[n..]);
    assert (s.base + s.shipped)[s.retired..][n..] == (s.base + s.shipped)[s.retired + n..];
  }

  lemma FlushThreadSound(s: State, step: Step)
    requires Sound(s) && Enabled(s, step)
    requires step.RejectStep? || step.SpawnStep? || step.AcquireStep? || step.ReadHead? || step.ReadOffset?
          || step.FailWrite? || step.Cut?
    ensures Sound(Next(s, step))
  {
    hide View, Tab, OpsOf, Stack, Levels, Truncated, Expected, Opened, Dropped;
    SameExpected(s, Next(s, step));
  }

  /** A crash at any moment: what the opening shows is the new starting point. */
  lemma CrashSound(s: State, found: seq<Op>, offset: nat)
    ensures Sound(Reopened(s, found, offset))
    ensures Shown(Reopened(s, found, offset)) == OnDisk(s) + Tab(found)
  {
    hide Levels, Tab;
    assert Buffers([]) == [];
    assert Stack([]) == map[];
    assert map[] + Tab(found) == Tab(found);
    AddNone(OnDisk(s) + Tab(found));
    assert (s.l0 + [])[0..] == s.l0;
  }

  lemma CrashMeans(s: State, found: seq<Op>, offset: nat)
    requires Enabled(s, Crash(found, offset))
    ensures Next(s, Crash(found, offset)) == Reopened(s, found, offset)
  {
  }

  /** Every step keeps the engine faithful and its buffers conserved. */
  lemma {:induction false} StepSound(s: State, step: Step)
    requires Sound(s) && Enabled(s, step)
    ensures Sound(Next(s, step))
  {
    hide Sound, Next, Enabled;
    match step
    case Crash(found, offset) => CrashMeans(s, found, offset); CrashSound(s, found, offset);
    case LogStep(op) => LogSound(s, op);
    case ApplyStep => ApplySound(s);
    case RotateStep => RotateSound(s);
    case Publish => PublishSound(s);
    case Clear => ClearSound(s);
    case Compact(n) => CompactSound(s, n);
    case _ => FlushThreadSound(s, step);
  }

  /** Whole-engine refinement, for every run of any client, any number of flush threads,
      any compactions and any crashes: the contents shown, with what is logged and not yet
      applied, are what the last opening showed with everything logged since replayed in
      order; buffers are neither lost, repeated nor reordered. */
  lemma {:induction false} RunsAreFaithful(s: State, steps: seq<Step>)
    requires Sound(s) && Legal(s, steps)
    ensures Sound(After(s, steps))
    decreases |steps|
  {
    hide Sound, Next, Enabled;
    if steps != [] {
      StepSound(s, steps[0]);
      RunsAreFaithful(Next(s, steps[0]), steps[1..]);
    }
  }

  /** From an empty store, a client reads exactly the abstract key-value store its
      completed writes describe. */
  lemma {:induction false} RunsReadTheStore(maxSize: int, steps: seq<Step>, k: Bytes)
    requires Legal(Init(maxSize), steps) && NoCrash(steps)
    requires After(Init(maxSize), steps).client.Idle?
    ensures Read(Shown(After(Init(maxSize), steps)), k) == Find(Store(After(Init(maxSize), steps).hist), k)
  {
    hide After, Legal, Shown, View, Stack, Store;
    InitSound(maxSize);
    RunsAreFaithful(Init(maxSize), steps);
    NoCrashKeepsOrigin(Init(maxSize), steps);
    var s := After(Init(maxSize), steps);
    AddNone(Shown(s));
    assert map[] + Tab(s.since) == Tab(s.since);
    TombstonesEncodeStore(s.hist);
  }

  /** Between crashes, `since` grows by what is logged and `origin` stays. */
  lemma {:induction false} NoCrashKeepsOrigin(s: State, steps: seq<Step>)
    requires Legal(s, steps) && NoCrash(steps) && s.hist == s.since
    ensures After(s, steps).hist == After(s, steps).since && After(s, steps).origin == s.origin
    decreases |steps|
  {
    hide Append, LastStart, Truncated, ApplyTo, OpsOf, Levels;
    if steps != [] {
      NoCrashKeepsOrigin(Next(s, steps[0]), steps[1..]);
    }
  }

  /* ------------------------------------------------- nobody waits */

  /** Thread `t` has taken the first `at` of its flush's six steps. */
  predicate FlushAt(s: State, t: nat, at: nat) {
    match at
    case 0 => s.holder.Nobody? && t in s.waiting
    case 1 => s.holder == Held(t, Started)
    case 2 => s.holder.Held? && s.holder.tid == t && s.holder.pc.Got?
    case 3 => s.holder.Held? && s.holder.tid == t && s.holder.pc.Ready?
    case 4 => s.holder.Held? && s.holder.tid == t && s.holder.pc.Published?
    case 5 => s.holder.Held? && s.holder.tid == t && s.holder.pc.Cleared?
    case _ => at == 6 && s.holder.Nobody?
  }

  /** Until the flush has read it, there is a buffer at the head of the queue. */
  predicate HeadWaits(s: State, at: nat) {
    at <= 1 ==> s.mem.frozen != [] && s.mem.frozen[0].data != map[]
  }

  /** The list mixes, in any way, writes logged and applied in turn, rotations, refused
      writes, compactions of tables that are there -- `tables` are, at its start -- and the
      steps of one flush from step `at` on. */
  predicate Mixes(steps: seq<Step>, idle: bool, tables: nat, t: nat, at: nat) {
    steps == [] ||
    match steps[0]
    case LogStep(op) => idle && WellFormed(op) && Mixes(steps[1..], false, tables, t, at)
    case ApplyStep => !idle && Mixes(steps[1..], true, tables, t, at)
    case RejectStep => idle && Mixes(steps[1..], idle, tables, t, at)
    case RotateStep => Mixes(steps[1..], idle, tables, t, at)
    case Compact(n) => n <= tables && Mixes(steps[1..], idle, tables - n, t, at)
    case Publish => at == 3 && Mixes(steps[1..], idle, tables + 1, t, 4)
    case _ => at < 6 && steps[0] == FlushSteps(t)[at] && Mixes(steps[1..], idle, tables, t, at + 1)
  }

  function FlushCount(steps: seq<Step>): nat {
    if steps == [] then 0
    else (if steps[0].AcquireStep? || steps[0] in {ReadHead, ReadOffset, Publish, Clear, Cut} then 1 else 0)
           + FlushCount(steps[1..])
  }

  lemma MixedStep(s: State, step: Step, t: nat, at: nat)
    requires FlushAt(s, t, at) && HeadWaits(s, at)
    requires s.client.Logged? ==> WellFormed(s.client.op)
    requires Mixes([step], s.client.Idle?, |s.l0|, t, at)
    ensures Enabled(s, step)
    ensures var n := Next(s, step);
            && FlushAt(n, t, at + FlushCount([step])) && HeadWaits(n, at + FlushCount([step]))
            && (n.client.Logged? ==> WellFormed(n.client.op))
            && n.client.Idle? == (if step.LogStep? then false else if step.ApplyStep? then true else s.client.Idle?)
            && |n.l0| == (if step.Compact? then |s.l0| - step.n else if step.Publish? then |s.l0| + 1 else |s.l0|)
  {
    hide ApplyTo, OpsOf, Append, LastStart, Truncated, View, Tab, Stack, Levels, Dropped;
    assert FlushCount([step][1..]) == 0;
    if step.ApplyStep? {
      ApplyView(s.mem, s.client.op, s.client.offset);
    }
  }

  lemma MixHead(steps: seq<Step>, idle: bool, tables: nat, t: nat, at: nat)
    requires steps != [] && Mixes(steps, idle, tables, t, at)
    ensures Mixes([steps[0]], idle, tables, t, at)
    ensures FlushCount(steps) == FlushCount([steps[0]]) + FlushCount(steps[1..])
  {
    hide FlushSteps, WellFormed;
    assert [steps[0]][1..] == [] && FlushCount([]) == 0;
  }

  /** Writers never wait for a flush or a compaction, nor these for writers: every such mix
      can be run, and the flush gets as far as its steps in it. */
  lemma {:induction false} AnyMixRuns(s: State, steps: seq<Step>, t: nat, at: nat)
    requires FlushAt(s, t, at) && HeadWaits(s, at)
    requires s.client.Logged? ==> WellFormed(s.client.op)
    requires Mixes(steps, s.client.Idle?, |s.l0|, t, at)
    ensures Legal(s, steps)
    ensures FlushAt(After(s, steps), t, at + FlushCount(steps))
    decreases |steps|
  {
    hide Next, Enabled, FlushAt, HeadWaits, WellFormed;
    if steps != [] {
      var step := steps[0];
      MixHead(steps, s.client.Idle?, |s.l0|, t, at);
      MixedStep(s, step, t, at);
      AnyMixRuns(Next(s, step), steps[1..], t, at + FlushCount([step]));
    }
  }

  /* ---------------------------------------------- reads during flushes */

  /** Every value of `k` anywhere in the engine is one the engine has shown. */
  ghost predicate AllSeen(s: State, k: Bytes, seen: set<Option<Bytes>>) {
    && Find(Shown(s), k) in seen
    && Find(OnDisk(s), k) in seen
    && (k in s.mem.data ==> Some(s.mem.data[k]) in seen)
    && (forall i :: 0 <= i < |s.mem.frozen| && k in s.mem.frozen[i].data ==> Some(s.mem.frozen[i].data[k]) in seen)
  }

  /** What the engine shows for `k` at each state of a run. */
  ghost function Showings(s: State, steps: seq<Step>, k: Bytes): set<Option<Bytes>>
    requires Legal(s, steps)
    decreases |steps|
  {
    {Find(Shown(s), k)} + if steps == [] then {} else Showings(Next(s, steps[0]), steps[1..], k)
  }

  lemma SeenAfterApply(s: State, k: Bytes, seen: set<Option<Bytes>>)
    requires Sound(s) && Enabled(s, ApplyStep) && AllSeen(s, k, seen)
    ensures AllSeen(Next(s, ApplyStep), k, seen + {Find(Shown(Next(s, ApplyStep)), k)})
  {
    hide Stack, Tab, Levels, ApplyTo, OpsOf, Sound;
    var t := Next(s, ApplyStep);
    ApplyView(s.mem, s.client.op, s.client.offset);
    assert k in t.mem.data ==> Find(Shown(t), k) == Some(t.mem.data[k]);
    var n := |s.mem.frozen|;
    if t.mem.frozen != s.mem.frozen && !s.client.op.BatchOp? {
      StackTop(t.mem.frozen);
      assert k in t.mem.frozen[n].data ==> Find(Shown(t), k) == Some(t.mem.frozen[n].data[k]);
    }
  }

  lemma StackTop(q: seq<Frozen>)
    requires q != []
    ensures Stack(Buffers(q)) == Stack(Buffers(q[..|q| - 1])) + q[|q| - 1].data
  {
    assert q == q[..|q| - 1] + [q[|q| - 1]];
    BuffersSnoc(q[..|q| - 1], q[|q| - 1]);
    StackSnoc(Buffers(q[..|q| - 1]), q[|q| - 1].data);
  }

  lemma SeenAfterPublish(s: State, k: Bytes, seen: set<Option<Bytes>>)
    requires Sound(s) && Enabled(s, Publish) && AllSeen(s, k, seen)
    ensures AllSeen(Next(s, Publish), k, seen + {Find(Shown(Next(s, Publish)), k)})
  {
    hide Stack, View, Tab, OpsOf, Expected, Conserved, Faithful;
    StackSnoc(s.l0, s.holder.pc.buffer);
  }

  lemma SeenAfterCompact(s: State, n: nat, k: Bytes, seen: set<Option<Bytes>>)
    requires Sound(s) && Enabled(s, Compact(n)) && AllSeen(s, k, seen)
    ensures AllSeen(Next(s, Compact(n)), k, seen + {Find(Shown(Next(s, Compact(n))), k)})
  {
    hide Stack, View, Tab, Levels, Sound;
    CompactSound(s, n);
  }

  lemma SeenAfterOther(s: State, step: Step, k: Bytes, seen: set<Option<Bytes>>)
    requires Sound(s) && Enabled(s, step) && AllSeen(s, k, seen)
    requires !step.ApplyStep? && !step.Publish? && !step.Crash? && !step.Compact?
    ensures AllSeen(Next(s, step), k, seen + {Find(Shown(Next(s, step)), k)})
  {
    hide Stack, View, Tab, OpsOf, Levels, Sound, Append, LastStart, Truncated;
  }

  /** Whatever of `k` has reached the disk by the end of a run was shown at some state of
      the run, if at its start every copy of `k` was a value already shown. */
  lemma {:induction false} DiskShowsThePast(s: State, steps: seq<Step>, k: Bytes, seen: set<Option<Bytes>>)
    requires Sound(s) && Legal(s, steps) && NoCrash(steps)
    requires AllSeen(s, k, seen)
    ensures Find(OnDisk(After(s, steps)), k) in seen + Showings(s, steps, k)
    decreases |steps|
  {
    hide Sound, Next, Enabled;
    if steps == [] {
      assert AllSeen(s, k, seen);
    } else {
      var step := steps[0];
      var t := Next(s, step);
      StepSound(s, step);
      if step.ApplyStep? {
        SeenAfterApply(s, k, seen);
      } else if step.Publish? {
        SeenAfterPublish(s, k, seen);
      } else if step.Compact? {
        SeenAfterCompact(s, step.n, k, seen);
      } else {
        SeenAfterOther(s, step, k, seen);
      }
      DiskShowsThePast(t, steps[1..], k, seen + {Find(Shown(t), k)});
      assert Find(Shown(t), k) in Showings(t, steps[1..], k);
    }
  }

  /** A point read that probes the memtable in one step and the tables of a manifest
      snapshot in a later one returns what the key held at some moment in between, whatever
      writes, rotations, flushes and compactions run meanwhile. */
  lemma {:induction false} GetIsLinearizable(s: State, steps: seq<Step>, k: Bytes)
    requires Sound(s) && Legal(s, steps) && NoCrash(steps)
    ensures var answer := if k in View(s.mem) then Find(View(s.mem), k) else Find(OnDisk(After(s, steps)), k);
            answer in Showings(s, steps, k)
  {
    hide Sound, Next, Enabled, Levels;
    assert Find(Shown(s), k) in Showings(s, steps, k);
    if k !in View(s.mem) {
      NowhereInMemory(s.mem, k);
      DiskShowsThePast(s, steps, k, {Find(Shown(s), k)});
    }
  }

  lemma NowhereInMemory(m: Mem, k: Bytes)
    requires k !in View(m)
    ensures k !in m.data
    ensures forall i :: 0 <= i < |m.frozen| ==> k !in m.frozen[i].data
  {
    forall i | 0 <= i < |m.frozen| ensures k !in m.frozen[i].data {
      var bs := Buffers(m.frozen);
      assert bs == bs[..i] + ([bs[i]] + bs[i + 1..]);
      StackConcat(bs[..i], [bs[i]] + bs[i + 1..]);
      assert ([bs[i]] + bs[i + 1..])[1..] == bs[i + 1..];
    }
  }
}
