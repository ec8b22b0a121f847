/** Crash recovery over any number of openings of the store, and exactly where it ends. */
module Recovery {
  import opened ByteStrings
  import opened Tables
  import opened MemTables
  import opened EngineSteps
  import opened EngineRuns
  import opened Refinement

  /* ---------------------------------------------------- the log's segments */

  function Cat(segs: seq<seq<Op>>): seq<Op> {
    if segs == [] then [] else Cat(segs[..|segs| - 1]) + segs[|segs| - 1]
  }

  lemma {:induction false} CatConcat(a: seq<seq<Op>>, b: seq<seq<Op>>)
    ensures Cat(a + b) == Cat(a) + Cat(b)
    decreases |b|
  {
    if b == [] {
      assert a + b == a;
    } else {
      var n, c := |b| - 1, a + b;
      CatConcat(a, b[..n]);
      assert c[..|c| - 1] == a + b[..n] && c[|c| - 1] == b[n];
      assert Cat(c) == Cat(a + b[..n]) + b[n];
    }
  }

  lemma CatSnoc(segs: seq<seq<Op>>, seg: seq<Op>)
    ensures Cat(segs + [seg]) == Cat(segs) + seg
  {
    assert (segs + [seg])[..|segs|] == segs;
  }

  lemma CatHead(segs: seq<seq<Op>>)
    requires segs != []
    ensures Cat(segs) == segs[0] + Cat(segs[1..])
  {
    assert segs == [segs[0]] + segs[1..];
    CatConcat([segs[0]], segs[1..]);
    assert Cat([segs[0]]) == Cat([]) + segs[0];
  }

  lemma {:induction false} SizeConcat(a: seq<Op>, b: seq<Op>)
    ensures Size(a + b) == Size(a) + Size(b)
    decreases |b|
  {
    if b == [] {
      assert a + b == a;
    } else {
      var n := |b| - 1;
      SizeConcat(a, b[..n]);
      assert (a + b)[..|a| + n] == a + b[..n];
    }
  }

  lemma LastAtConcat(a: seq<Op>, b: seq<Op>)
    ensures b != [] ==> LastAt(a + b) == Size(a) + LastAt(b)
    ensures LastAt(b) <= Size(b) && Size([]) == 0 == LastAt([])
  {
    if b != [] {
      assert (a + b)[..|a + b| - 1] == a + b[..|b| - 1];
      SizeConcat(a, b[..|b| - 1]);
    }
  }

  lemma SizeGrows(ops: seq<Op>)
    ensures Size(ops) >= 17 * |ops|
  {
  }

  lemma {:induction false} FromBoundary(a: seq<Op>, b: seq<Op>)
    ensures From(a + b, Size(a)) == Some(b)
    decreases |a|
  {
    if a == [] {
      assert a + b == b;
    } else {
      assert a == [a[0]] + a[1..];
      SizeConcat([a[0]], a[1..]);
      assert Size([a[0]]) == Size([]) + RecordSize(a[0]);
      assert (a + b)[1..] == a[1..] + b;
      FromBoundary(a[1..], b);
    }
  }

  lemma {:induction false} FromIsSuffix(ops: seq<Op>, offset: nat)
    requires From(ops, offset).Some?
    ensures var rest := From(ops, offset).value;
            |rest| <= |ops| && ops == Dropped(ops, rest) + rest && Size(Dropped(ops, rest)) == offset
    decreases |ops|
  {
    hide Size;
    LastAtConcat([], []);
    if offset > 0 {
      var rest := From(ops, offset).value;
      FromIsSuffix(ops[1..], offset - RecordSize(ops[0]));
      assert Dropped(ops, rest) == [ops[0]] + Dropped(ops[1..], rest);
      SizeConcat([ops[0]], Dropped(ops[1..], rest));
      SizeOfOne(ops[0]);
    } else {
      assert Dropped(ops, ops) == [];
    }
  }

  lemma SizeOfOne(op: Op)
    ensures Size([op]) == RecordSize(op)
  {
    assert [op][..0] == [];
  }

  /** A cut takes operations off the front of the file, as many as it takes whole. */
  lemma CutDrops(log: Log, offset: int)
    ensures log.file.ops == Dropped(log.file.ops, Truncated(log, offset).file.ops) + Truncated(log, offset).file.ops
  {
    hide Size, From;
    if 0 < offset < FileSize(log.file) && log.file.Records? && From(log.file.ops, offset).Some? {
      FromIsSuffix(log.file.ops, offset);
    }
  }

  /** Unflushed operations of this opening. */
  function Unflushed(s: State): seq<Op> {
    Cat(s.segs) + s.tail + Pending(s)
  }

  /** The operations whose buffers are on disk. */
  function Flushed(s: State): seq<Op> {
    s.done + if s.holder.Held? && s.holder.pc.Published? && s.segs != [] then s.segs[0] else []
  }

  /** The operations of this opening are the flushed ones, then the segment of every frozen
      buffer in queue order, then the active table's, then what is not yet applied; every
      buffer is the last-write-wins table of its segment.  The same operations, in the same
      order, are what truncations cut off, what the file holds and what was orphaned. */
  ghost predicate Segmented(s: State) {
    && s.done + Unflushed(s) == s.cutoff + s.log.file.ops + s.lost
    && (s.lost != [] ==> s.log.handle.Orphan?)
    && |s.segs| == |s.mem.frozen|
    && (forall i :: 0 <= i < |s.segs| ==> s.mem.frozen[i].data == Tab(s.segs[i]))
    && s.mem.data == Tab(s.tail)
    && Absorbs(OnDisk(s), Tab(Flushed(s)))
  }

  /** `offset` is where the last record of `ops` starts, or where they end: an empty batch
      reports the end of the log. */
  predicate Marks(offset: int, start: nat, ops: seq<Op>) {
    offset == start + LastAt(ops) || offset == start + Size(ops)
  }

  ghost predicate SegsMarked(done: seq<Op>, segs: seq<seq<Op>>, frozen: seq<Frozen>) {
    forall i :: 0 <= i < |segs| && i < |frozen| && segs[i] != [] ==>
      Marks(frozen[i].offset, Size(done) + Size(Cat(segs[..i])), segs[i])
  }

  /** Until the file is first cut it holds every operation, and each buffer's offset marks
      its segment. */
  ghost predicate Aligned(s: State) {
    && s.log.file.Records? && s.cutoff == [] && s.lost == []
    && !s.log.handle.Orphan?
    && (s.log.handle.Attached? ==> s.log.handle.pos == Size(s.log.file.ops))
    && SegsMarked(s.done, s.segs, s.mem.frozen)
    && (Marks(s.mem.maxOffset, Size(s.done) + Size(Cat(s.segs)), s.tail) || (s.tail == [] && s.mem.maxOffset == 0))
    && (s.client.Logged? && WellFormed(s.client.op) ==>
          s.client.offset == Size(s.done) + Size(Cat(s.segs)) + Size(s.tail) + LastAt(OpsOf(s.client.op)))
    && (s.holder.Held? && s.holder.pc.Cleared? ==> s.done != [] && Marks(s.holder.pc.offset, 0, s.done))
  }

  /** The invariant of every run: up to the first cut the offsets are right, up to the
      second the file is whole records and only flushed operations are missing from it. */
  ghost predicate Durable(s: State) {
    && Sound(s) && Segmented(s)
    && (s.cuts == 0 ==> Aligned(s))
    && (s.cuts <= 1 ==> s.log.file.Records? && |s.cutoff| <= |s.done|)
  }

  /* ------------------------------------------------------------ recovery */

  lemma {:induction false} QueueIsSegments(q: seq<Frozen>, segs: seq<seq<Op>>)
    requires |q| == |segs|
    requires forall i :: 0 <= i < |q| ==> q[i].data == Tab(segs[i])
    ensures Stack(Buffers(q)) == Tab(Cat(segs))
    decreases |q|
  {
    hide Stack, Tab;
    if q == [] {
      assert Buffers(q) == [];
      Empties();
    } else {
      var n := |q| - 1;
      QueueIsSegments(q[..n], segs[..n]);
      StackTop(q);
      TabConcat(Cat(segs[..n]), segs[n]);
    }
  }

  lemma Empties()
    ensures Stack([]) == map[] && Tab([]) == map[]
  {
  }

  /** Flushed tables overlaid by every operation of the opening are what is expected:
      re-applying an operation already flushed changes nothing. */
  lemma {:induction false} LogCompletesDisk(s: State)
    requires Sound(s) && Segmented(s)
    ensures OnDisk(s) + Tab(s.done + Unflushed(s)) == Expected(s)
  {
    hide Stack, Tab, Levels, Buffers, Cat, OpsOf, Absorbs, Expected;
    var disk, u := OnDisk(s), Unflushed(s);
    QueueIsSegments(s.mem.frozen, s.segs);
    TabConcat(Cat(s.segs), s.tail);
    TabConcat(Cat(s.segs) + s.tail, Pending(s));
    assert u == (Cat(s.segs) + s.tail) + Pending(s);
    OverlayAssoc(disk, View(s.mem), Tab(Pending(s)));
    assert disk + Tab(u) == Expected(s);
    var extra := Flushed(s)[|s.done|..];
    assert Flushed(s) == s.done + extra;
    if extra == [] {
      assert Flushed(s) == s.done;
      TabConcat(s.done, u);
      AbsorbsIsNoChange(disk, Tab(s.done));
      OverlayAssoc(disk, Tab(s.done), Tab(u));
    } else {
      CatHead(s.segs);
      var rest := Cat(s.segs[1..]) + s.tail + Pending(s);
      assert u == extra + rest;
      assert s.done + u == Flushed(s) + rest;
      TabConcat(Flushed(s), rest);
      TabConcat(extra, rest);
      TabConcat(s.done, extra);
      AbsorbsIsNoChange(disk, Tab(Flushed(s)));
      OverlayAssoc(disk, Tab(Flushed(s)), Tab(rest));
      AbsorbsRight(disk, Tab(s.done), Tab(extra));
      AbsorbsIsNoChange(disk, Tab(extra));
      OverlayAssoc(disk, Tab(extra), Tab(rest));
    }
  }

  lemma AbsorbsRight(t: Table, a: Table, b: Table)
    requires Absorbs(t, a + b)
    ensures Absorbs(t, b)
  {
    forall k | k in b ensures k in t && t[k] == b[k] {
      assert k in a + b && (a + b)[k] == b[k];
    }
  }

  /** A restart reads what is on disk overlaid by the file's records. */
  lemma RestartShows(s: State)
    requires s.log.file.Records?
    ensures Shown(Restart(s)) == OnDisk(s) + Tab(s.log.file.ops)
  {
    CrashSound(s, s.log.file.ops, LastAt(s.log.file.ops));
  }

  /** What is orphaned is already shown without it, and what was cut off and not written
      again is on disk. */
  ghost predicate Lossless(s: State) {
    && Absorbs(OnDisk(s) + Tab(s.log.file.ops), Tab(s.lost))
    && forall k :: k in Tab(s.cutoff) && k !in Tab(s.log.file.ops) && k !in Tab(s.lost) ==>
         Find(OnDisk(s), k) == Some(Tab(s.cutoff)[k])
  }

  /** Exactly when a restart loses nothing, in any state of any run. */
  lemma {:induction false} RestartIff(s: State)
    requires Sound(s) && Segmented(s) && s.log.file.Records?
    ensures Shown(Restart(s)) == Expected(s) <==> Lossless(s)
  {
    hide Sound, Segmented, Shown, Expected, OnDisk, Tab, Restart;
    var disk, ops := OnDisk(s), s.log.file.ops;
    Completed(s);
    RestartShows(s);
    OverlaidIff(disk, Tab(s.cutoff), Tab(ops), Tab(s.lost));
  }

  lemma Completed(s: State)
    requires Sound(s) && Segmented(s)
    ensures Expected(s) == OnDisk(s) + Tab(s.cutoff) + Tab(s.log.file.ops) + Tab(s.lost)
  {
    hide Sound, Expected, OnDisk, Tab, Unflushed, Absorbs, Flushed;
    LogCompletesDisk(s);
    TabConcat(s.cutoff + s.log.file.ops, s.lost);
    TabConcat(s.cutoff, s.log.file.ops);
    OverlayAssoc(OnDisk(s), Tab(s.cutoff) + Tab(s.log.file.ops), Tab(s.lost));
    OverlayAssoc(OnDisk(s), Tab(s.cutoff), Tab(s.log.file.ops));
  }

  lemma OverlaidIff(disk: Table, cutoff: Table, ops: Table, lost: Table)
    ensures disk + ops == disk + cutoff + ops + lost
       <==> && Absorbs(disk + ops, lost)
            && forall k :: k in cutoff && k !in ops && k !in lost ==> Find(disk, k) == Some(cutoff[k])
  {
    var got, want := disk + ops, disk + cutoff + ops + lost;
    if got == want {
      forall k | k in lost ensures k in got && got[k] == lost[k] {
        assert k in want && want[k] == lost[k];
      }
      forall k | k in cutoff && k !in ops && k !in lost ensures Find(disk, k) == Some(cutoff[k]) {
        assert k in want && want[k] == cutoff[k];
      }
    } else if Absorbs(got, lost) && forall k :: k in cutoff && k !in ops && k !in lost ==> Find(disk, k) == Some(cutoff[k]) {
      forall k ensures (k in got <==> k in want) && (k in got ==> got[k] == want[k]) {
      }
    }
  }

  /** While the file has been cut at most once, nothing cut off is missing. */
  lemma {:induction false} OneCutLosesNothing(s: State)
    requires Durable(s) && s.cuts <= 1
    ensures Lossless(s) <==> Absorbs(OnDisk(s) + Tab(s.log.file.ops), Tab(s.lost))
  {
    hide Sound, Aligned, Expected, OnDisk, Tab, Unflushed;
    var disk, ops := OnDisk(s), s.log.file.ops;
    var flushed := Flushed(s);
    var rest := FlushedFirst(s);
    SplitAt(flushed, rest, s.cutoff, ops + s.lost);
    TabConcat(s.cutoff, flushed[|s.cutoff|..]);
    TabConcat(flushed[|s.cutoff|..], rest);
    TabConcat(ops, s.lost);
    forall k | k in Tab(s.cutoff) && k !in Tab(ops) && k !in Tab(s.lost)
      ensures Find(disk, k) == Some(Tab(s.cutoff)[k])
    {
      assert k !in Tab(ops) + Tab(s.lost);
      assert k !in Tab(flushed[|s.cutoff|..]);
      assert k in Tab(flushed);
    }
  }

  lemma SplitAt(a: seq<Op>, b: seq<Op>, c: seq<Op>, d: seq<Op>)
    requires a + b == c + d && |c| <= |a|
    ensures a == c + a[|c|..] && a[|c|..] + b == d
  {
    assert (a + b)[..|c|] == a[..|c|] && (c + d)[..|c|] == c;
    assert (a + b)[|c|..] == a[|c|..] + b && (c + d)[|c|..] == d;
  }

  /** What is flushed comes before everything else. */
  lemma FlushedFirst(s: State) returns (rest: seq<Op>)
    requires Sound(s) && Segmented(s)
    ensures Flushed(s) + rest == s.cutoff + (s.log.file.ops + s.lost)
    ensures s.done <= Flushed(s)
  {
    hide Sound, OnDisk, Tab, Cat, OpsOf, Absorbs;
    if Flushed(s) == s.done {
      rest := Unflushed(s);
    } else {
      CatHead(s.segs);
      rest := Cat(s.segs[1..]) + s.tail + Pending(s);
      assert s.done + Unflushed(s) == Flushed(s) + rest;
    }
  }

  /* ------------------------------------------------ each step keeps it */

  lemma InitDurable(maxSize: int)
    ensures Durable(Init(maxSize)) && Lossless(Init(maxSize))
    ensures Expected(Init(maxSize)) == Tab(Init(maxSize).hist)
  {
    InitSound(maxSize);
  }

  lemma LogDurable(s: State, op: ClientOp)
    requires Durable(s) && Enabled(s, LogStep(op))
    ensures Durable(Next(s, LogStep(op)))
  {
    hide Sound, Segmented, Aligned, Append, LastStart, OpsOf;
    StepSound(s, LogStep(op));
    LogSegmented(s, op);
    AppendsTo(s.log, OpsOf(op));
    if s.cuts == 0 {
      WholeFile(s, op);
      LogAligned(s, op);
    }
  }

  lemma LogSegmented(s: State, op: ClientOp)
    requires Segmented(s) && Enabled(s, LogStep(op))
    ensures Segmented(Next(s, LogStep(op)))
  {
    hide Tab, Cat, Absorbs, OpsOf, Levels, LastStart, Append;
    var ops, t := OpsOf(op), Next(s, LogStep(op));
    AppendsTo(s.log, ops);
    assert Unflushed(s) == Cat(s.segs) + s.tail;
    assert t.done + Unflushed(t) == s.done + Unflushed(s) + ops;
    assert t.cutoff + t.log.file.ops + t.lost == (s.cutoff + s.log.file.ops + s.lost) + ops;
  }

  /** An append reaches the file unless the handle is orphaned. */
  lemma AppendsTo(log: Log, ops: seq<Op>)
    ensures var after := Append(log, ops);
            && after.file.ops == log.file.ops + (if log.handle.Orphan? then [] else ops)
            && (after.handle.Orphan? <==> log.handle.Orphan?)
            && (after.file.Records? <==> log.file.Records?)
  {
  }

  lemma WholeFile(s: State, op: ClientOp)
    requires Segmented(s) && Aligned(s) && Enabled(s, LogStep(op))
    ensures s.client.Idle? && s.log.file.ops == s.done + (Cat(s.segs) + s.tail)
  {
    hide Tab, Cat, Size, Absorbs, OpsOf, Levels, LastAt, Marks, SegsMarked;
    assert s.done + Unflushed(s) == s.done + (Cat(s.segs) + s.tail);
    assert s.cutoff + s.log.file.ops + s.lost == s.log.file.ops;
  }

  lemma LogAligned(s: State, op: ClientOp)
    requires Aligned(s) && Enabled(s, LogStep(op))
    requires s.log.file.ops == s.done + (Cat(s.segs) + s.tail)
    ensures Aligned(Next(s, LogStep(op)))
  {
    hide Tab, Cat, Size, OpsOf, LastAt, Marks, SegsMarked;
    var ops := OpsOf(op);
    SizeConcat(s.done, Cat(s.segs) + s.tail);
    SizeConcat(Cat(s.segs), s.tail);
    SizeConcat(s.log.file.ops, ops);
  }

  lemma ApplySegmented(s: State)
    requires Durable(s) && Enabled(s, ApplyStep)
    ensures Segmented(Next(s, ApplyStep))
  {
    hide Sound, Tab, Size, Absorbs, OpsOf, ApplyTo, Aligned, Levels, Cat, View;
    assert |s.segs| == |s.mem.frozen|;
    var ops := OpsOf(s.client.op);
    ApplyView(s.mem, s.client.op, s.client.offset);
    TabConcat(s.tail, ops);
    CatSnoc(s.segs, s.tail);
    CatSnoc(s.segs, s.tail + ops);
    Empties();
    var t := Next(s, ApplyStep);
    ApplyKeepsHead(s);
    assert Unflushed(t) == Unflushed(s);
  }

  /** The head segment, and so what counts as flushed, is not touched by an append; nor is
      anything of the log. */
  lemma ApplyKeepsHead(s: State)
    requires Sound(s) && Enabled(s, ApplyStep)
    ensures Flushed(Next(s, ApplyStep)) == Flushed(s)
    ensures OnDisk(Next(s, ApplyStep)) == OnDisk(s)
  {
    hide Tab, OpsOf, ApplyTo, View, Levels, Stack, Conserved, Faithful;
  }

  lemma ApplyKeepsLog(s: State)
    requires Enabled(s, ApplyStep)
    ensures var t := Next(s, ApplyStep);
            t.cuts == s.cuts && t.log == s.log && t.cutoff == s.cutoff && t.done == s.done
  {
  }

  lemma ApplyAligned(s: State)
    requires Durable(s) && Enabled(s, ApplyStep) && s.cuts == 0
    ensures Aligned(Next(s, ApplyStep))
  {
    hide Durable, Aligned, ApplyTo, Next;
    DurableParts(s);
    if ApplyTo(s.mem, s.client.op, s.client.offset).frozen == s.mem.frozen {
      ApplyAlignedInPlace(s);
    } else {
      ApplyAlignedRotated(s);
    }
  }

  lemma DurableParts(s: State)
    requires Durable(s)
    ensures s.cuts == 0 ==> Aligned(s)
    ensures s.cuts <= 1 ==> s.log.file.Records? && |s.cutoff| <= |s.done|
    ensures |s.segs| == |s.mem.frozen|
  {
    hide Sound, Aligned;
  }

  /** The new record starts where the active segment ended. */
  lemma ApplyAlignedInPlace(s: State)
    requires Aligned(s) && |s.segs| == |s.mem.frozen| && Enabled(s, ApplyStep)
    requires ApplyTo(s.mem, s.client.op, s.client.offset).frozen == s.mem.frozen
    ensures Aligned(Next(s, ApplyStep))
  {
    hide Tab, OpsOf, ApplyTo, Levels, Cat, Size, LastAt, View, Stack, SegsMarked;
    var ops := OpsOf(s.client.op);
    ApplyView(s.mem, s.client.op, s.client.offset);
    OpsOfPut(s.client.op);
    LastAtConcat(s.tail, ops);
    SizeConcat(s.tail, ops);
    LastAtConcat([], s.tail);
    assert ops == [] ==> s.tail + ops == s.tail;
  }

  lemma OpsOfPut(op: ClientOp)
    requires WellFormed(op)
    ensures !op.BatchOp? ==> OpsOf(op) != []
  {
  }

  lemma MarkedSnoc(done: seq<Op>, segs: seq<seq<Op>>, frozen: seq<Frozen>, seg: seq<Op>, f: Frozen)
    requires SegsMarked(done, segs, frozen) && |segs| == |frozen|
    requires seg != [] ==> Marks(f.offset, Size(done) + Size(Cat(segs)), seg)
    ensures SegsMarked(done, segs + [seg], frozen + [f])
  {
    hide Size, Cat, Marks;
    forall i | 0 <= i <= |segs| && (segs + [seg])[i] != []
      ensures Marks((frozen + [f])[i].offset, Size(done) + Size(Cat((segs + [seg])[..i])), (segs + [seg])[i])
    {
      assert (segs + [seg])[..i] == segs[..i];
      assert segs[..|segs|] == segs;
    }
  }

  lemma ApplyAlignedRotated(s: State)
    requires Aligned(s) && |s.segs| == |s.mem.frozen| && Enabled(s, ApplyStep)
    requires ApplyTo(s.mem, s.client.op, s.client.offset).frozen != s.mem.frozen
    ensures Aligned(Next(s, ApplyStep))
  {
    hide Tab, OpsOf, ApplyTo, Levels, Cat, Size, LastAt, View, Stack, SegsMarked;
    var ops := OpsOf(s.client.op);
    ApplyView(s.mem, s.client.op, s.client.offset);
    OpsOfPut(s.client.op);
    var f := ApplyTo(s.mem, s.client.op, s.client.offset).frozen[|s.mem.frozen|];
    LastAtConcat(s.tail, ops);
    SizeConcat(s.tail, ops);
    LastAtConcat([], s.tail);
    var seg := if s.client.op.BatchOp? then s.tail else s.tail + ops;
    MarkedSnoc(s.done, s.segs, s.mem.frozen, seg, f);
    CatSnoc(s.segs, seg);
    SizeConcat(Cat(s.segs), seg);
  }

  lemma RotateDurable(s: State)
    requires Durable(s)
    ensures Durable(Next(s, RotateStep))
  {
    hide Sound, Tab, Cat, Size, LastAt, Absorbs, OpsOf, View, Levels, Stack, SegsMarked;
    StepSound(s, RotateStep);
    var t := Next(s, RotateStep);
    assert |s.segs| == |s.mem.frozen|;
    CatSnoc(s.segs, s.tail);
    Empties();
    assert Unflushed(t) == Unflushed(s);
    assert Flushed(t) == Flushed(s) by {
      if s.holder.Held? && s.holder.pc.Published? {
        HeadSegment(s);
      }
    }
    if s.cuts == 0 {
      MarkedSnoc(s.done, s.segs, s.mem.frozen, s.tail, Frozen(s.mem.data, s.mem.maxOffset));
    }
    SizeConcat(Cat(s.segs), s.tail);
    LastAtConcat([], []);
  }

  /** A thread past reading the head has a segment to show for it. */
  lemma HeadSegment(s: State)
    requires Sound(s)
    requires s.holder.Held? && (s.holder.pc.Ready? || s.holder.pc.Published?)
    ensures s.segs != [] && s.mem.frozen != [] && s.mem.frozen[0].data == s.holder.pc.buffer
    ensures s.mem.frozen[0].offset == s.holder.pc.offset && s.holder.pc.buffer != map[]
  {
  }

  lemma PublishDurable(s: State)
    requires Durable(s) && Enabled(s, Publish)
    ensures Durable(Next(s, Publish))
  {
    hide Sound, Tab, Cat, Size, LastAt, OpsOf, View, Stack;
    StepSound(s, Publish);
    HeadSegment(s);
    var b := s.holder.pc.buffer;
    StackSnoc(s.l0, b);
    TabConcat(s.done, s.segs[0]);
    assert Flushed(s) == s.done;
    AbsorbsBoth(Stack(s.l1), Stack(s.l0), b, Tab(s.done));
  }

  lemma AbsorbsBoth(l1: Table, l0: Table, b: Table, flushed: Table)
    requires Absorbs(l1 + l0, flushed)
    ensures Absorbs(l1 + (l0 + b), flushed + b)
  {
    forall k | k in flushed + b ensures k in l1 + (l0 + b) && (l1 + (l0 + b))[k] == (flushed + b)[k] {
      if k !in b {
        assert k in l1 + l0 && (l1 + l0)[k] == flushed[k];
      }
    }
  }

  lemma ClearDurable(s: State)
    requires Durable(s) && Enabled(s, Clear)
    ensures Durable(Next(s, Clear))
  {
    hide Sound, Tab, Cat, Size, LastAt, OpsOf, View, Stack, Levels, Absorbs, Aligned;
    StepSound(s, Clear);
    HeadSegment(s);
    var t := Next(s, Clear);
    CatHead(s.segs);
    assert t.done + Unflushed(t) == s.done + Unflushed(s);
    assert Flushed(t) == t.done == Flushed(s);
    if s.cuts == 0 {
      Empties();
      ClearAligned(s);
    }
  }

  lemma ClearAligned(s: State)
    requires Aligned(s) && Enabled(s, Clear)
    requires s.segs != [] && |s.segs| == |s.mem.frozen| && s.segs[0] != []
    requires s.mem.frozen[0].offset == s.holder.pc.offset
    ensures Aligned(Next(s, Clear))
  {
    hide Tab, Cat, Size, LastAt, OpsOf, View, Stack, Levels;
    var t := Next(s, Clear);
    assert s.segs[..0] == [];
    CatOfNone();
    LastAtConcat(s.done, s.segs[0]);
    SizeConcat(s.done, s.segs[0]);
    CatHead(s.segs);
    SizeConcat(s.segs[0], Cat(s.segs[1..]));
    forall i | 0 <= i < |t.segs| && t.segs[i] != []
      ensures Marks(t.mem.frozen[i].offset, Size(t.done) + Size(Cat(t.segs[..i])), t.segs[i])
    {
      assert s.segs[..i + 1][1..] == t.segs[..i];
      CatHead(s.segs[..i + 1]);
      SizeConcat(s.segs[0], Cat(t.segs[..i]));
    }
  }

  lemma CatOfNone()
    ensures Cat([]) == []
  {
  }

  lemma CutDurable(s: State)
    requires Durable(s) && Enabled(s, Cut)
    ensures Durable(Next(s, Cut))
  {
    hide Sound, Tab, Cat, Size, OpsOf, View, Stack, Levels, Absorbs, Truncated, Aligned, Dropped, Marks, Unflushed;
    StepSound(s, Cut);
    var t, offset := Next(s, Cut), s.holder.pc.offset;
    CutDrops(s.log, offset);
    CutKeepsHandle(s.log, offset);
    SameUnflushed(s, t);
    if offset > 0 {
      assert t.cutoff + t.log.file.ops + t.lost
          == s.cutoff + (Dropped(s.log.file.ops, t.log.file.ops) + t.log.file.ops) + s.lost;
      if s.cuts == 0 {
        FirstCut(s);
      }
    } else if s.cuts == 0 {
      LetGo(s);
    }
  }

  lemma LetGo(s: State)
    requires Aligned(s)
    ensures Aligned(s.(holder := Nobody))
  {
  }

  lemma CutKeepsHandle(log: Log, offset: int)
    ensures log.handle.Orphan? ==> Truncated(log, offset).handle.Orphan?
  {
  }

  lemma SameUnflushed(s: State, t: State)
    requires t.segs == s.segs && t.tail == s.tail && t.client == s.client
    ensures Unflushed(t) == Unflushed(s)
  {
  }

  /** The first cut takes whole, flushed operations out of the file, all of them or all but
      the last; it orphans the handle if that is open and something is left. */
  lemma {:induction false} FirstCut(s: State)
    requires Segmented(s) && Aligned(s) && Enabled(s, Cut) && s.holder.pc.offset > 0
    ensures var t := Next(s, Cut);
            && (t.log.file == Records(Unflushed(s)) || t.log.file == Records([s.done[|s.done| - 1]] + Unflushed(s)))
            && t.log.file.Records? && |t.cutoff| <= |s.done|
            && (t.log.handle.Orphan? <==> s.log.handle.Attached? && s.holder.pc.offset < FileSize(s.log.file))
  {
    hide Tab, Cat, OpsOf, View, Stack, Levels, Absorbs, From, Unflushed, Size, LastAt, Flushed, SegsMarked;
    assert s.log.file.ops == s.done + Unflushed(s);
    FirstCutLeaves(s.log, s.done, Unflushed(s), s.holder.pc.offset);
  }

  lemma FirstCutLeaves(log: Log, done: seq<Op>, u: seq<Op>, offset: int)
    requires log.file == Records(done + u) && done != [] && Marks(offset, 0, done) && offset > 0
    ensures var rest := Truncated(log, offset).file;
            && (rest == Records(u) || rest == Records([done[|done| - 1]] + u))
            && |Dropped(log.file.ops, rest.ops)| <= |done|
            && (offset >= FileSize(log.file) ==> u == [])
  {
    hide From, Size;
    var n := |done| - 1;
    var front, last := done[..n], done[n];
    assert done == front + [last];
    assert done + u == front + ([last] + u);
    SizeConcat(done, u);
    SizeConcat(front, [last]);
    SizeOfOne(last);
    SizeGrows(u);
    FromBoundary(done, u);
    FromBoundary(front, [last] + u);
  }

  /** Steps that touch neither the log nor what any buffer holds. */
  lemma OtherDurable(s: State, step: Step)
    requires Durable(s) && Enabled(s, step)
    requires step.SpawnStep? || step.AcquireStep? || step.ReadHead? || step.ReadOffset? || step.FailWrite?
          || step.RejectStep? || step.Compact?
    ensures Durable(Next(s, step))
  {
    hide Sound, Tab, Cat, Size, LastAt, OpsOf, View, Stack, Levels, Absorbs, Aligned;
    StepSound(s, step);
    var t := Next(s, step);
    SameUnflushed(s, t);
    if step.Compact? {
      CompactSound(s, step.n);
    }
    assert Flushed(t) == Flushed(s);
    if s.cuts == 0 {
      OtherAligned(s, step);
    }
  }

  lemma OtherAligned(s: State, step: Step)
    requires Aligned(s) && Enabled(s, step)
    requires step.SpawnStep? || step.AcquireStep? || step.ReadHead? || step.ReadOffset? || step.FailWrite?
          || step.RejectStep? || step.Compact?
    ensures Aligned(Next(s, step))
  {
    hide Tab, Cat, Size, LastAt, OpsOf, Stack, Levels, Marks, SegsMarked;
  }

  lemma CrashDurable(s: State, found: seq<Op>, offset: nat)
    requires Durable(s) && Enabled(s, Crash(found, offset))
    ensures Durable(Next(s, Crash(found, offset)))
  {
    hide Sound, Tab, Stack, Levels, Size, LastAt, Absorbs, Aligned, Expected, Segmented;
    var t := Next(s, Crash(found, offset));
    CrashMeans(s, found, offset);
    CrashSound(s, found, offset);
    CatOfNone();
    assert Segmented(t) by { CrashSegmented(s, found, offset); }
    if t.cuts == 0 {
      CrashAligned(s, found, offset);
    }
  }

  lemma CrashSegmented(s: State, found: seq<Op>, offset: nat)
    requires Finds(s.log.file, found, offset)
    ensures Segmented(Reopened(s, found, offset))
  {
    hide Stack, Levels, Size, LastAt, Absorbs;
    var t := Reopened(s, found, offset);
    CatOfNone();
    Empties();
    AbsorbsNone(OnDisk(t));
    assert Flushed(t) == [];
    assert t.done + Unflushed(t) == found;
    assert t.cutoff + t.log.file.ops + t.lost == found;
  }

  lemma CrashAligned(s: State, found: seq<Op>, offset: nat)
    requires s.log.file.Records? && Finds(s.log.file, found, offset)
    ensures Aligned(Reopened(s, found, offset))
  {
    hide Tab, Stack, Levels, Size, LastAt;
    CatOfNone();
    LastAtConcat([], []);
  }

  lemma AbsorbsNone(t: Table)
    ensures Absorbs(t, map[])
  {
  }

  /** Every step of every run keeps it. */
  lemma {:induction false} StepDurable(s: State, step: Step)
    requires Durable(s) && Enabled(s, step)
    ensures Durable(Next(s, step))
  {
    hide Sound, Segmented, Aligned, Next, Enabled;
    match step
    case LogStep(op) => LogDurable(s, op);
    case ApplyStep =>
      StepSound(s, step);
      ApplySegmented(s);
      if s.cuts == 0 {
        ApplyAligned(s);
      }
      ApplyKeepsLog(s);
    case RotateStep => RotateDurable(s);
    case Publish => PublishDurable(s);
    case Clear => ClearDurable(s);
    case Cut => CutDurable(s);
    case Crash(found, offset) => CrashDurable(s, found, offset);
    case _ => OtherDurable(s, step);
  }

  lemma {:induction false} RunsAreDurable(s: State, steps: seq<Step>)
    requires Durable(s) && Legal(s, steps)
    ensures Durable(After(s, steps))
    decreases |steps|
  {
    hide Durable, Next, Enabled;
    if steps != [] {
      StepDurable(s, steps[0]);
      RunsAreDurable(Next(s, steps[0]), steps[1..]);
    }
  }

  /* ------------------------------------------------------- main results */

  /** Every crash of the run met a log of whole records and lost nothing. */
  ghost predicate LosslessCrashes(s: State, steps: seq<Step>)
    requires Legal(s, steps)
    decreases |steps|
  {
    steps == [] || ((steps[0].Crash? ==> s.log.file.Records? && Lossless(s))
                    && LosslessCrashes(Next(s, steps[0]), steps[1..]))
  }

  lemma ExpectedStep(s: State, step: Step)
    requires Durable(s) && Enabled(s, step) && Expected(s) == Tab(s.hist)
    requires step.Crash? ==> s.log.file.Records? && Lossless(s)
    ensures Expected(Next(s, step)) == Tab(Next(s, step).hist)
  {
    hide Durable, Sound, Segmented, Tab, Levels, OpsOf, Append, LastStart, ApplyTo, Truncated, View, Lossless;
    match step
    case LogStep(op) =>
      TabConcat(s.since, OpsOf(op));
      TabConcat(s.hist, OpsOf(op));
      OverlayAssoc(s.origin, Tab(s.since), Tab(OpsOf(op)));
    case Crash(found, offset) =>
      assert Sound(s) && Segmented(s) by { hide *; DurableIsSound(s); }
      RestartIff(s);
      RestartShows(s);
      AddNone(OnDisk(s) + Tab(found));
    case _ =>
      SameExpected(s, Next(s, step));
  }

  lemma DurableIsSound(s: State)
    requires Durable(s)
    ensures Sound(s) && Segmented(s)
  {
    hide Sound, Segmented;
  }

  lemma {:induction false} ExpectedIsHistory(s: State, steps: seq<Step>)
    requires Durable(s) && Legal(s, steps) && LosslessCrashes(s, steps) && Expected(s) == Tab(s.hist)
    ensures Expected(After(s, steps)) == Tab(After(s, steps).hist)
    decreases |steps|
  {
    hide Durable, Next, Enabled, Expected, Lossless;
    if steps != [] {
      ExpectedStep(s, steps[0]);
      StepDurable(s, steps[0]);
      ExpectedIsHistory(Next(s, steps[0]), steps[1..]);
    }
  }

  /** A crash in this very state, over a log of whole records. */
  function CrashHere(s: State): seq<Step> {
    [Crash(s.log.file.ops, LastAt(s.log.file.ops))]
  }

  lemma CanCrash(s: State)
    requires s.log.file.Records?
    ensures Legal(s, CrashHere(s)) && After(s, CrashHere(s)) == Restart(s)
  {
    OneStep(s, CrashHere(s)[0]);
    CrashMeans(s, s.log.file.ops, LastAt(s.log.file.ops));
  }

  /** Crash recovery, exactly: after any run from an empty store whose earlier crashes lost
      nothing, and that leaves whole records in the log, a restart shows every operation
      ever logged and nothing else if and only if what is orphaned or cut off is shown
      without it. */
  lemma {:induction false} RecoveryIff(maxSize: int, steps: seq<Step>)
    requires Legal(Init(maxSize), steps) && LosslessCrashes(Init(maxSize), steps)
    requires After(Init(maxSize), steps).log.file.Records?
    ensures var s := After(Init(maxSize), steps);
            && Legal(s, CrashHere(s)) && After(s, CrashHere(s)) == Restart(s)
            && (Shown(Restart(s)) == Tab(s.hist) <==> Lossless(s))
            && Shown(s) + Tab(Pending(s)) == Tab(s.hist)
  {
    hide After, Legal, Tab, Shown, Restart, Lossless, Expected, Segmented, LosslessCrashes, Aligned;
    InitDurable(maxSize);
    ExpectedIsHistory(Init(maxSize), steps);
    RunsAreDurable(Init(maxSize), steps);
    RestartIff(After(Init(maxSize), steps));
    CanCrash(After(Init(maxSize), steps));
  }

  /** While the file has been cut at most once since the opening -- the first flush, and
      anything before or after it -- the file is whole records, and a restart shows the
      history if and only if the disk and the file show, without them, all writes made
      through the orphaned handle, however many. */
  lemma {:induction false} OrphanedWritesIff(maxSize: int, steps: seq<Step>)
    requires Legal(Init(maxSize), steps) && LosslessCrashes(Init(maxSize), steps)
    requires After(Init(maxSize), steps).cuts <= 1
    ensures var s := After(Init(maxSize), steps);
            && s.log.file.Records?
            && (Shown(Restart(s)) == Tab(s.hist) <==> Absorbs(OnDisk(s) + Tab(s.log.file.ops), Tab(s.lost)))
  {
    hide After, Legal, Tab, Shown, Restart, Lossless, Expected, Sound, Segmented, LosslessCrashes, Aligned, Absorbs, OnDisk;
    InitDurable(maxSize);
    RunsAreDurable(Init(maxSize), steps);
    var s := After(Init(maxSize), steps);
    RecoveryIff(maxSize, steps);
    OneCutLosesNothing(s);
    RestartShows(s);
  }

  /** Appending through a handle that a truncation left on the old file, and cutting an
      already cut file by an offset from before the cut. */
  predicate Safe(s: State, step: Step) {
    && !(step.LogStep? && s.log.handle.Orphan?)
    && !(step.Cut? && s.cuts > 0 && s.holder.Held? && s.holder.pc.Cleared? && s.holder.pc.offset > 0)
  }

  /** A step is unsafe only by what it does: a write orphaned, or a second cut. */
  lemma {:induction false} SafeIff(s: State, step: Step)
    requires Enabled(s, step) && s.cuts <= 1 && s.lost == []
    ensures Safe(s, step) <==> (step.LogStep? ==> !s.log.handle.Orphan?) && Next(s, step).cuts <= 1
  {
    hide OpsOf, Append, LastStart, ApplyTo, Truncated, Dropped, Levels, Tab;
  }

  ghost predicate SafeRun(s: State, steps: seq<Step>)
    requires Legal(s, steps)
    decreases |steps|
  {
    steps == [] || (Safe(s, steps[0]) && SafeRun(Next(s, steps[0]), steps[1..]))
  }

  lemma SafeStep(s: State, step: Step)
    requires Enabled(s, step) && Safe(s, step) && s.cuts <= 1 && s.lost == []
    ensures Next(s, step).cuts <= 1 && Next(s, step).lost == []
  {
    hide OpsOf, Append, LastStart, ApplyTo, Truncated, Dropped, Levels, Tab;
  }

  lemma NothingLost(s: State)
    requires Durable(s) && s.cuts <= 1 && s.lost == []
    ensures s.log.file.Records? && Lossless(s)
  {
    hide Sound, Aligned, Segmented, OnDisk, Lossless;
    OneCutLosesNothing(s);
  }

  lemma {:induction false} SafeRunsLoseNothing(s: State, steps: seq<Step>)
    requires Durable(s) && Legal(s, steps) && SafeRun(s, steps) && s.cuts <= 1 && s.lost == []
    ensures LosslessCrashes(s, steps)
    ensures After(s, steps).cuts <= 1 && After(s, steps).lost == []
    decreases |steps|
  {
    hide Durable, Next, Enabled, Safe, Lossless;
    if steps != [] {
      NothingLost(s);
      StepDurable(s, steps[0]);
      SafeStep(s, steps[0]);
      SafeRunsLoseNothing(Next(s, steps[0]), steps[1..]);
    }
  }

  /** After any safe run from an empty store -- writes, rotations, flushes and compactions
      in any interleaving, with any number of crashes between any two steps -- reopening
      shows every operation ever logged, and nothing else. */
  lemma {:induction false} CrashRecovery(maxSize: int, steps: seq<Step>)
    requires Legal(Init(maxSize), steps) && SafeRun(Init(maxSize), steps)
    ensures var s := After(Init(maxSize), steps);
            && s.log.file.Records?
            && Shown(Restart(s)) == Tab(s.hist) == Shown(s) + Tab(Pending(s))
            && forall k :: Read(Shown(Restart(s)), k) == Find(Store(s.hist), k)
  {
    hide After, Legal, Tab, Store, Shown, Restart, Lossless, Expected, Segmented, LosslessCrashes, Aligned, SafeRun;
    InitDurable(maxSize);
    var s := After(Init(maxSize), steps);
    SafeRunsLoseNothing(Init(maxSize), steps);
    RunsAreDurable(Init(maxSize), steps);
    NothingLost(s);
    RecoveryIff(maxSize, steps);
    TombstonesEncodeStore(s.hist);
  }

  /** Reads during writes, rotations, flushes and compactions: from any state of any run, a read that
      probes the memtable there and takes its snapshot of the published tables any number
      of steps later answers what the key held at one of the states in between. */
  lemma {:induction false} ReadsAreLinearizable(maxSize: int, before: seq<Step>, steps: seq<Step>, k: Bytes)
    requires Legal(Init(maxSize), before)
    requires Legal(After(Init(maxSize), before), steps) && NoCrash(steps)
    ensures var probed, read := After(Init(maxSize), before), After(After(Init(maxSize), before), steps);
            var answer := if k in View(probed.mem) then Find(View(probed.mem), k) else Find(OnDisk(read), k);
            answer in Showings(probed, steps, k)
  {
    hide After, Legal, View, Showings, OnDisk, Sound;
    InitSound(maxSize);
    RunsAreFaithful(Init(maxSize), before);
    GetIsLinearizable(After(Init(maxSize), before), steps, k);
  }

  /** In any state that has lost nothing so far, the next write logged survives an immediate
      crash if and only if the handle is on the log's file, or the write changes nothing
      that is shown. */
  lemma {:induction false} WriteSurvivesCrashIff(s: State, op: ClientOp)
    requires Durable(s) && Enabled(s, LogStep(op)) && s.log.file.Records? && Lossless(s)
    ensures var t := Next(s, LogStep(op));
            && t.log.file.Records?
            && (Shown(Restart(t)) == Expected(t) <==> !s.log.handle.Orphan? || Absorbs(Shown(s), Tab(OpsOf(op))))
  {
    hide Sound, Segmented, Aligned, Lossless, Tab, Shown, Restart, OnDisk, OpsOf, Append, LastStart, Absorbs;
    var t, ops := Next(s, LogStep(op)), OpsOf(op);
    AppendsTo(s.log, ops);
    RestartIff(s);
    RestartShows(s);
    RestartShows(t);
    assert Shown(s) == Expected(s) by { hide *; IdleShows(s); }
    assert OnDisk(t) == OnDisk(s) by { hide *; LogKeepsDisk(s, op); }
    TabConcat(s.since, ops);
    OverlayAssoc(s.origin, Tab(s.since), Tab(ops));
    TabConcat(s.log.file.ops, ops);
    OverlayAssoc(OnDisk(s), Tab(s.log.file.ops), Tab(ops));
    AbsorbsIsNoChange(Shown(s), Tab(ops));
    assert s.log.file.ops + [] == s.log.file.ops;
  }

  lemma IdleShows(s: State)
    requires Durable(s) && s.client.Idle?
    ensures Shown(s) == Expected(s)
  {
    hide Shown, Expected, Segmented, Aligned;
    AddNone(Shown(s));
  }

  lemma LogKeepsDisk(s: State, op: ClientOp)
    requires Enabled(s, LogStep(op))
    ensures OnDisk(Next(s, LogStep(op))) == OnDisk(s)
  {
    hide Append, LastStart, OpsOf, Tab, Levels;
  }

  /** Any cut that leaves whole records -- the first or a later one, at a boundary inside
      the file or past its end -- of a state that has lost nothing: what a restart shows
      then is what is on disk overlaid by the records left, and that is what was expected
      if and only if every operation taken out and not written again is on disk. */
  lemma {:induction false} CutLosesNothingIff(s: State)
    requires Durable(s) && Enabled(s, Cut) && s.log.file.Records? && Lossless(s)
    requires Next(s, Cut).log.file.Records?
    ensures var t := Next(s, Cut);
            var rest := t.log.file.ops;
            var dropped := Dropped(s.log.file.ops, rest);
            && s.log.file.ops == dropped + rest
            && Shown(Restart(t)) == OnDisk(s) + Tab(rest)
            && (Shown(Restart(t)) == Expected(s) <==>
                  forall k :: k in Tab(dropped) && k !in Tab(rest) ==> Find(OnDisk(s), k) == Some(Tab(dropped)[k]))
  {
    hide Sound, Segmented, Aligned, Lossless, Tab, Shown, Restart, Levels, Truncated, Dropped;
    var t := Next(s, Cut);
    var rest := t.log.file.ops;
    var dropped := Dropped(s.log.file.ops, rest);
    CutDrops(s.log, s.holder.pc.offset);
    NothingDropped(s.log.file.ops);
    RestartIff(s);
    RestartShows(s);
    RestartShows(t);
    TabConcat(dropped, rest);
    OverlayAssoc(OnDisk(s), Tab(dropped), Tab(rest));
    OverlaidIff(OnDisk(s), Tab(dropped), Tab(rest), map[]);
    AddNothing(OnDisk(s) + Tab(dropped) + Tab(rest));
  }

  lemma NothingDropped(ops: seq<Op>)
    ensures Dropped(ops, ops) == []
  {
  }

  lemma AddNothing(t: Table)
    ensures t + map[] == t
  {
  }
}
