/** The memtable's reader-writer lock, built from two mutexes and a counter, as a
    transition system over any number of threads.  One step is one lock operation, one
    access to the counter or one test of it. */
module ReadWriteLock {

  /** Where a thread is: entering as a reader, reading, leaving, or writing. */
  datatype Pc =
    | Idle
    | WantEnter      // about to take the read mutex
    | EnterLocked    // holds it, has not counted itself
    | Counted        // has counted itself, has not looked at the counter
    | FirstIn        // found itself the first, about to take the write mutex
    | Entering       // about to give the read mutex back
    | Reading
    | WantLeave      // about to take the read mutex
    | LeaveLocked    // holds it, still counted
    | Uncounted      // no longer counted, has not looked at the counter
    | LastOut        // found itself the last, about to give the write mutex back
    | Leaving        // about to give the read mutex back
    | WantWrite      // about to take the write mutex
    | Writing

  type Pcs = map<nat, Pc>

  datatype State = State(pcs: Pcs, readMutex: bool, writeMutex: bool, count: int)

  /** `StartRead` and `StartWrite` are new calls; `Go(t)` is thread t's next step. */
  datatype Step = StartRead(t: nat) | StartWrite(t: nat) | Go(t: nat)

  predicate Enabled(s: State, step: Step) {
    && step.t in s.pcs
    && match step
       case StartRead(t) => s.pcs[t].Idle?
       case StartWrite(t) => s.pcs[t].Idle?
       case Go(t) =>
         match s.pcs[t]
         case Idle => false
         case WantEnter => !s.readMutex
         case WantLeave => !s.readMutex
         case FirstIn => !s.writeMutex
         case WantWrite => !s.writeMutex
         case _ => true
  }

  function Next(s: State, step: Step): State
    requires Enabled(s, step)
  {
    var t := step.t;
    match step
    case StartRead(_) => s.(pcs := s.pcs[t := WantEnter])
    case StartWrite(_) => s.(pcs := s.pcs[t := WantWrite])
    case Go(_) =>
      match s.pcs[t]
      case WantEnter => s.(pcs := s.pcs[t := EnterLocked], readMutex := true)
      case EnterLocked => s.(pcs := s.pcs[t := Counted], count := s.count + 1)
      case Counted => s.(pcs := s.pcs[t := if s.count == 1 then FirstIn else Entering])
      case FirstIn => s.(pcs := s.pcs[t := Entering], writeMutex := true)
      case Entering => s.(pcs := s.pcs[t := Reading], readMutex := false)
      case Reading => s.(pcs := s.pcs[t := WantLeave])
      case WantLeave => s.(pcs := s.pcs[t := LeaveLocked], readMutex := true)
      case LeaveLocked => s.(pcs := s.pcs[t := Uncounted], count := s.count - 1)
      case Uncounted => s.(pcs := s.pcs[t := if s.count == 0 then LastOut else Leaving])
      case LastOut => s.(pcs := s.pcs[t := Leaving], writeMutex := false)
      case Leaving => s.(pcs := s.pcs[t := Idle], readMutex := false)
      case WantWrite => s.(pcs := s.pcs[t := Writing], writeMutex := true)
      case Writing => s.(pcs := s.pcs[t := Idle], writeMutex := false)
  }

  function Init(threads: set<nat>): State {
    State(map t | t in threads :: Idle, false, false, 0)
  }

  ghost predicate Legal(s: State, steps: seq<Step>)
    decreases |steps|
  {
    steps == [] || (Enabled(s, steps[0]) && Legal(Next(s, steps[0]), steps[1..]))
  }

  function After(s: State, steps: seq<Step>): State
    requires Legal(s, steps)
    decreases |steps|
  {
    if steps == [] then s else After(Next(s, steps[0]), steps[1..])
  }

  /* ------------------------------------------------------ the invariant */

  predicate InReadMutex(pc: Pc) {
    pc in {EnterLocked, Counted, FirstIn, Entering, LeaveLocked, Uncounted, LastOut, Leaving}
  }

  predicate IsCounted(pc: Pc) {
    pc in {Counted, FirstIn, Entering, Reading, WantLeave, LeaveLocked}
  }

  function CountedThreads(pcs: Pcs): set<nat> {
    set t | t in pcs && IsCounted(pcs[t])
  }

  /** The thread's position shows that the readers together hold the write mutex. */
  predicate ShowsReaders(pc: Pc, count: int) {
    pc in {Entering, Reading, WantLeave, LeaveLocked, LastOut} || (pc == Uncounted && count == 0)
  }

  ghost predicate ReadersHold(s: State) {
    exists t :: t in s.pcs && ShowsReaders(s.pcs[t], s.count)
  }

  ghost predicate WriterIn(s: State) {
    exists t :: t in s.pcs && s.pcs[t].Writing?
  }

  ghost predicate ReadMutexInv(s: State) {
    && (s.readMutex <==> exists t :: t in s.pcs && InReadMutex(s.pcs[t]))
    && forall t, u :: t in s.pcs && u in s.pcs && InReadMutex(s.pcs[t]) && InReadMutex(s.pcs[u]) ==> t == u
  }

  ghost predicate WriteMutexInv(s: State) {
    && (s.writeMutex <==> WriterIn(s) || ReadersHold(s))
    && !(WriterIn(s) && ReadersHold(s))
    && (forall t, u :: t in s.pcs && u in s.pcs && s.pcs[t].Writing? && s.pcs[u].Writing? ==> t == u)
  }

  ghost predicate CountInv(s: State) {
    && s.count == |CountedThreads(s.pcs)|
    && (forall t :: t in s.pcs && s.pcs[t].FirstIn? ==> s.count == 1)
    && (forall t :: t in s.pcs && s.pcs[t].LastOut? ==> s.count == 0)
  }

  ghost predicate Inv(s: State) {
    ReadMutexInv(s) && WriteMutexInv(s) && CountInv(s)
  }

  lemma InitInv(threads: set<nat>)
    ensures Inv(Init(threads))
  {
    assert CountedThreads(Init(threads).pcs) == {};
  }

  lemma CountedAfter(pcs: Pcs, t: nat, pc: Pc)
    requires t in pcs
    ensures CountedThreads(pcs[t := pc])
         == if IsCounted(pc) then CountedThreads(pcs) + {t} else CountedThreads(pcs) - {t}
  {
  }

  lemma ReadMutexStep(s: State, step: Step)
    requires Inv(s) && Enabled(s, step)
    ensures ReadMutexInv(Next(s, step))
  {
    hide CountInv, WriteMutexInv;
    var n := Next(s, step);
    assert InReadMutex(n.pcs[step.t]) ==> exists t :: t in n.pcs && InReadMutex(n.pcs[t]);
    if InReadMutex(s.pcs[step.t]) == InReadMutex(n.pcs[step.t]) && s.readMutex {
      var u :| u in s.pcs && InReadMutex(s.pcs[u]);
      assert u in n.pcs && InReadMutex(n.pcs[u]);
    }
  }

  /** The counter moves exactly when the thread that steps becomes or ceases to be
      counted. */
  lemma CountMoves(s: State, step: Step)
    requires Enabled(s, step)
    ensures step.t in s.pcs
    ensures Next(s, step).pcs == s.pcs[step.t := Next(s, step).pcs[step.t]]
    ensures Next(s, step).count - s.count
         == (if IsCounted(Next(s, step).pcs[step.t]) then 1 else 0) - (if IsCounted(s.pcs[step.t]) then 1 else 0)
  {
  }

  lemma CountIsCardinality(s: State, step: Step)
    requires CountInv(s) && Enabled(s, step)
    ensures Next(s, step).count == |CountedThreads(Next(s, step).pcs)|
  {
    hide CountedThreads, Next, Enabled, IsCounted;
    CountMoves(s, step);
    var t, now := step.t, Next(s, step).pcs[step.t];
    CountedAfter(s.pcs, t, now);
    CountedMember(s.pcs, t);
    var c := CountedThreads(s.pcs);
    if IsCounted(s.pcs[t]) {
      assert c + {t} == c;
    } else {
      assert c - {t} == c;
    }
  }

  lemma CountedMember(pcs: Pcs, t: nat)
    requires t in pcs
    ensures t in CountedThreads(pcs) <==> IsCounted(pcs[t])
  {
  }

  lemma CountStep(s: State, step: Step)
    requires Inv(s) && Enabled(s, step)
    ensures CountInv(Next(s, step))
  {
    hide WriteMutexInv, CountedThreads;
    CountIsCardinality(s, step);
  }

  /** While a thread is inside the read mutex, any other counted thread is a reader at
      rest, and shows that the readers hold the write mutex. */
  lemma OtherReader(s: State, t: nat) returns (u: nat)
    requires ReadMutexInv(s) && CountInv(s)
    requires t in s.pcs && InReadMutex(s.pcs[t])
    requires s.count > if IsCounted(s.pcs[t]) then 1 else 0
    ensures u in s.pcs && u != t && (s.pcs[u].Reading? || s.pcs[u].WantLeave?)
  {
    var c := CountedThreads(s.pcs);
    var others := c - {t};
    CountedMember(s.pcs, t);
    if t in c {
      assert |others| == |c| - 1;
    } else {
      assert others == c;
    }
    assert |others| > 0;
    u :| u in others;
  }

  /** No one shows readers when the only counted thread is the one inside the mutex and
      it does not. */
  lemma NoReaders(s: State, t: nat)
    requires ReadMutexInv(s) && CountInv(s)
    requires t in s.pcs && InReadMutex(s.pcs[t]) && !ShowsReaders(s.pcs[t], s.count)
    requires CountedThreads(s.pcs) <= {t}
    ensures !ReadersHold(s)
  {
    forall u | u in s.pcs ensures !ShowsReaders(s.pcs[u], s.count) {
      if u != t {
        assert u !in CountedThreads(s.pcs);
      }
    }
  }

  lemma OnlyCounted(s: State, t: nat)
    requires CountInv(s) && t in s.pcs
    requires s.count == if IsCounted(s.pcs[t]) then 1 else 0
    ensures CountedThreads(s.pcs) <= {t}
  {
    var c := CountedThreads(s.pcs);
    if t in c {
      assert |c - {t}| == 0;
    }
  }

  lemma CountedIsPositive(s: State, t: nat)
    requires CountInv(s) && t in s.pcs && IsCounted(s.pcs[t])
    ensures s.count >= 1
  {
    assert t in CountedThreads(s.pcs);
  }

  /** A step moves one thread; what the others show about the readers stays. */
  lemma OthersShowSame(s: State, step: Step, u: nat)
    requires ReadMutexInv(s) && Enabled(s, step) && u in s.pcs && u != step.t
    ensures Next(s, step).pcs.Keys == s.pcs.Keys && Next(s, step).pcs[u] == s.pcs[u]
    ensures ShowsReaders(Next(s, step).pcs[u], Next(s, step).count) == ShowsReaders(s.pcs[u], s.count)
  {
  }

  /** If the thread that moves shows the same before and after, so does everything. */
  lemma SameHolders(s: State, step: Step)
    requires Inv(s) && Enabled(s, step)
    requires Next(s, step).writeMutex == s.writeMutex
    requires s.pcs[step.t].Writing? == Next(s, step).pcs[step.t].Writing?
    requires ShowsReaders(s.pcs[step.t], s.count) == ShowsReaders(Next(s, step).pcs[step.t], Next(s, step).count)
    ensures WriteMutexInv(Next(s, step))
  {
    hide ShowsReaders, Next, Enabled, CountInv, ReadMutexInv;
    var n := Next(s, step);
    StepKeys(s, step);
    forall u | u in s.pcs
      ensures ShowsReaders(n.pcs[u], n.count) == ShowsReaders(s.pcs[u], s.count)
      ensures n.pcs[u].Writing? == s.pcs[u].Writing?
    {
      if u != step.t {
        OthersShowSame(s, step, u);
      }
    }
    assert ReadersHold(n) == ReadersHold(s);
    assert WriterIn(n) == WriterIn(s);
  }

  lemma StepKeys(s: State, step: Step)
    requires Enabled(s, step)
    ensures Next(s, step).pcs.Keys == s.pcs.Keys
  {
  }

  /** Both before and after the step another thread shows that the readers hold the write
      mutex, and the step brings in no writer. */
  lemma KeptReaders(s: State, step: Step, u: nat)
    requires Inv(s) && Enabled(s, step) && u in s.pcs && u != step.t && ShowsReaders(s.pcs[u], s.count)
    requires Next(s, step).writeMutex == s.writeMutex && !Next(s, step).pcs[step.t].Writing?
    ensures WriteMutexInv(Next(s, step))
  {
    hide ShowsReaders, CountInv, ReadMutexInv, Enabled;
    OthersShowSame(s, step, u);
    assert ReadersHold(s);
    assert ReadersHold(Next(s, step));
    assert !WriterIn(Next(s, step));
  }

  /** The write mutex changes hands: taken by the first reader in or by a writer, given
      back by the last reader out or by the writer. */
  lemma HandOver(s: State, step: Step)
    requires Inv(s) && Enabled(s, step) && step.Go?
    requires s.pcs[step.t].FirstIn? || s.pcs[step.t].WantWrite? || s.pcs[step.t].Writing? || s.pcs[step.t].LastOut?
    ensures WriteMutexInv(Next(s, step))
  {
    var t, n := step.t, Next(s, step);
    CountStep(s, step);
    ReadMutexStep(s, step);
    forall u | u in s.pcs && u != t
      ensures n.pcs[u] == s.pcs[u] && ShowsReaders(n.pcs[u], n.count) == ShowsReaders(s.pcs[u], s.count)
    {
      OthersShowSame(s, step, u);
    }
    if s.pcs[t].LastOut? {
      OnlyCounted(n, t);
      NoReaders(n, t);
      assert ReadersHold(s);
    } else if s.pcs[t].FirstIn? {
      assert ShowsReaders(n.pcs[t], n.count);
      assert !WriterIn(s);
    } else if s.pcs[t].WantWrite? {
      assert n.pcs[t].Writing?;
      assert !ReadersHold(s) && !WriterIn(s);
    } else {
      assert WriterIn(s) && !ReadersHold(s);
    }
  }

  lemma WriteMutexStep(s: State, step: Step)
    requires Inv(s) && Enabled(s, step)
    ensures WriteMutexInv(Next(s, step))
  {
    hide ReadMutexInv, WriteMutexInv;
    var t, n := step.t, Next(s, step);
    CountStep(s, step);
    ReadMutexStep(s, step);
    assert ReadMutexInv(s);
    if step.Go? && s.pcs[t] in {FirstIn, WantWrite, Writing, LastOut} {
      HandOver(s, step);
    } else if s.pcs[t].LeaveLocked? && n.count > 0 {
      var u := OtherReader(n, t);
      KeptReaders(s, step, u);
    } else if s.pcs[t].Counted? && s.count > 1 {
      var u := OtherReader(s, t);
      KeptReaders(s, step, u);
    } else {
      if s.pcs[t].Counted? {
        CountedIsPositive(s, t);
      }
      SameHolders(s, step);
    }
  }

  lemma StepInv(s: State, step: Step)
    requires Inv(s) && Enabled(s, step)
    ensures Inv(Next(s, step))
  {
    hide ReadMutexInv, WriteMutexInv, CountInv, Next, Enabled;
    ReadMutexStep(s, step);
    WriteMutexStep(s, step);
    CountStep(s, step);
  }

  lemma {:induction false} RunsKeepInv(s: State, steps: seq<Step>)
    requires Inv(s) && Legal(s, steps)
    ensures Inv(After(s, steps))
    decreases |steps|
  {
    hide Inv, Next, Enabled;
    if steps != [] {
      StepInv(s, steps[0]);
      RunsKeepInv(Next(s, steps[0]), steps[1..]);
    }
  }

  /* ------------------------------------------------------- main results */

  /** For any number of threads and any run: no writer overlaps a reader or another
      writer. */
  lemma {:induction false} MutualExclusion(threads: set<nat>, steps: seq<Step>, t: nat, u: nat)
    requires Legal(Init(threads), steps)
    ensures var s := After(Init(threads), steps);
            t in s.pcs && u in s.pcs && s.pcs[t].Writing? ==>
              && !s.pcs[u].Reading?
              && (s.pcs[u].Writing? ==> u == t)
  {
    hide Legal, After, ReadMutexInv, CountInv;
    InitInv(threads);
    RunsKeepInv(Init(threads), steps);
    var s := After(Init(threads), steps);
    assert t in s.pcs && s.pcs[t].Writing? ==> WriterIn(s);
    assert u in s.pcs && s.pcs[u].Reading? ==> ShowsReaders(s.pcs[u], s.count);
  }

  /* ----------------------------------------------- from the calls made */

  /** The lock calls a thread makes: `_acquire_read` and later `_release_read`, or
      `_acquire_write` and later `_release_write`. */
  datatype Call = None | Read | Write

  /** The last new call of a thread in a run; nothing of what the steps lead to is used. */
  function LastCall(steps: seq<Step>, t: nat): Call {
    if steps == [] then None
    else
      match steps[|steps| - 1]
      case StartRead(u) => if u == t then Read else LastCall(steps[..|steps| - 1], t)
      case StartWrite(u) => if u == t then Write else LastCall(steps[..|steps| - 1], t)
      case Go(_) => LastCall(steps[..|steps| - 1], t)
  }

  /** Where a thread can be after its last call. */
  predicate CanBe(pc: Pc, call: Call) {
    match call
    case None => pc.Idle?
    case Read => !pc.WantWrite? && !pc.Writing?
    case Write => pc.Idle? || pc.WantWrite? || pc.Writing?
  }

  lemma {:induction false} LastCallConcat(a: seq<Step>, b: seq<Step>, t: nat)
    ensures LastCall(a + b, t) == if LastCall(b, t) == None then LastCall(a, t) else LastCall(b, t)
    decreases |b|
  {
    if b == [] {
      assert a + b == a;
    } else {
      var c := a + b;
      LastCallConcat(a, b[..|b| - 1], t);
      assert c[..|c| - 1] == a + b[..|b| - 1] && c[|c| - 1] == b[|b| - 1];
    }
  }

  lemma StepFits(s: State, step: Step, t: nat, call: Call)
    requires Enabled(s, step) && t in s.pcs && CanBe(s.pcs[t], call)
    ensures t in Next(s, step).pcs
    ensures CanBe(Next(s, step).pcs[t], if LastCall([step], t) == None then call else LastCall([step], t))
  {
    hide LastCall;
    OneCall(step, t);
  }

  lemma OneCall(step: Step, t: nat)
    ensures LastCall([step], t)
         == match step
            case StartRead(u) => if u == t then Read else None
            case StartWrite(u) => if u == t then Write else None
            case Go(_) => None
  {
    assert [step][..0] == [];
    assert LastCall([], t) == None;
  }

  lemma {:induction false} RunFits(s: State, steps: seq<Step>, t: nat, call: Call)
    requires Legal(s, steps) && t in s.pcs && CanBe(s.pcs[t], call)
    ensures t in After(s, steps).pcs
    ensures CanBe(After(s, steps).pcs[t], if LastCall(steps, t) == None then call else LastCall(steps, t))
    decreases |steps|
  {
    hide CanBe, Next, Enabled, LastCall;
    if steps == [] {
      NoCall(t);
    } else {
      StepFits(s, steps[0], t, call);
      RunFits(Next(s, steps[0]), steps[1..], t, if LastCall([steps[0]], t) == None then call else LastCall([steps[0]], t));
      assert steps == [steps[0]] + steps[1..];
      LastCallConcat([steps[0]], steps[1..], t);
    }
  }

  lemma NoCall(t: nat)
    ensures LastCall([], t) == None
  {
  }

  /** In any run, a thread whose last call is `_acquire_write` is only ever waiting for the
      write mutex, inside with it, or done; one whose last call is `_acquire_read` is never
      either of the first two; one that called nothing has not moved. */
  lemma {:induction false} CallsDecide(threads: set<nat>, steps: seq<Step>, t: nat)
    requires Legal(Init(threads), steps) && t in threads
    ensures t in After(Init(threads), steps).pcs
    ensures var pc := After(Init(threads), steps).pcs[t];
            match LastCall(steps, t)
            case None => pc == Idle
            case Read => pc != WantWrite && pc != Writing
            case Write => pc == Idle || pc == WantWrite || pc == Writing
  {
    hide Legal, After, LastCall;
    RunFits(Init(threads), steps, t, None);
  }

  /** Between the return of an acquiring call and the call that releases. */
  predicate Inside(s: State, t: nat) {
    t in s.pcs && (s.pcs[t] == Reading || s.pcs[t] == Writing)
  }

  /** So two threads are inside at once only if both called `_acquire_read`: a caller of
      `_acquire_write` shares with no one. */
  lemma {:induction false} WriteCallersAreAlone(threads: set<nat>, steps: seq<Step>, t: nat, u: nat)
    requires Legal(Init(threads), steps) && t in threads && u in threads && t != u
    requires Inside(After(Init(threads), steps), t) && Inside(After(Init(threads), steps), u)
    ensures LastCall(steps, t) == Read && LastCall(steps, u) == Read
  {
    hide Legal, After, LastCall;
    CallsDecide(threads, steps, t);
    CallsDecide(threads, steps, u);
    MutualExclusion(threads, steps, t, u);
    MutualExclusion(threads, steps, u, t);
  }

  /** The steps of one reader on its way in. */
  function ReadIn(t: nat, first: bool): seq<Step> {
    [StartRead(t), Go(t), Go(t), Go(t)] + (if first then [Go(t)] else []) + [Go(t)]
  }

  /** A lone caller of `_acquire_write` gets in, and a second one then waits. */
  lemma {:induction false} WriterGetsIn(threads: set<nat>, t: nat, u: nat)
    requires t in threads && u in threads && t != u
    ensures var steps := [StartWrite(t), Go(t), StartWrite(u)];
            && Legal(Init(threads), steps)
            && Inside(After(Init(threads), steps), t)
            && !Enabled(After(Init(threads), steps), Go(u))
  {
    var s1 := Next(Init(threads), StartWrite(t));
    var s2 := Next(s1, Go(t));
    var s3 := Next(s2, StartWrite(u));
    RunStep(s2, StartWrite(u), []);
    RunStep(s1, Go(t), [StartWrite(u)]);
    RunStep(Init(threads), StartWrite(t), [Go(t), StartWrite(u)]);
    assert After(s3, []) == s3;
  }

  lemma RunStep(s: State, step: Step, rest: seq<Step>)
    requires Enabled(s, step) && Legal(Next(s, step), rest)
    ensures Legal(s, [step] + rest)
    ensures After(s, [step] + rest) == After(Next(s, step), rest)
  {
    hide Next, Enabled;
    assert ([step] + rest)[1..] == rest;
  }

  /** Readers inside, everyone else where they started. */
  ghost predicate OnlyReaders(s: State, threads: set<nat>, inside: set<nat>) {
    && s.pcs.Keys == threads && inside <= threads
    && (forall t :: t in threads ==> s.pcs[t] == if t in inside then Reading else Idle)
    && !s.readMutex && s.count == |inside| && (s.writeMutex <==> inside != {})
  }

  /** One more reader joins. */
  lemma OneMoreReader(s: State, threads: set<nat>, inside: set<nat>, t: nat)
    requires OnlyReaders(s, threads, inside) && t in threads && t !in inside
    ensures Legal(s, ReadIn(t, inside == {}))
    ensures OnlyReaders(After(s, ReadIn(t, inside == {})), threads, inside + {t})
  {
    hide OnlyReaders, Legal, After;
    var first := inside == {};
    var tail := (if first then [Go(t)] else []) + [Go(t)];
    assert ReadIn(t, first) == [StartRead(t)] + ([Go(t)] + ([Go(t)] + ([Go(t)] + tail)));
    assert Enabled(s, StartRead(t)) && !s.readMutex && s.count == |inside| && (s.writeMutex <==> !first) by {
      assert OnlyReaders(s, threads, inside);
      hide *;
      StartsReading(s, threads, inside, t);
    }
    var s1 := Next(s, StartRead(t));
    var s2 := Next(s1, Go(t));
    var s3 := Next(s2, Go(t));
    var s4 := Next(s3, Go(t));
    assert s4.pcs[t] == if first then FirstIn else Entering;
    var s5 := if first then Next(s4, Go(t)) else s4;
    var s6 := Next(s5, Go(t));
    NoSteps(s6);
    assert [Go(t)] + [] == [Go(t)];
    RunStep(s5, Go(t), []);
    if first {
      RunStep(s4, Go(t), [Go(t)]);
    }
    assert tail == if first then [Go(t)] + [Go(t)] else [Go(t)];
    RunStep(s3, Go(t), tail);
    RunStep(s2, Go(t), [Go(t)] + tail);
    RunStep(s1, Go(t), [Go(t)] + ([Go(t)] + tail));
    RunStep(s, StartRead(t), [Go(t)] + ([Go(t)] + ([Go(t)] + tail)));
    assert s6 == State(s.pcs[t := Reading], false, true, s.count + 1);
    Joined(s, s6, threads, inside, t);
  }

  lemma StartsReading(s: State, threads: set<nat>, inside: set<nat>, t: nat)
    requires OnlyReaders(s, threads, inside) && t in threads && t !in inside
    ensures Enabled(s, StartRead(t)) && !s.readMutex && s.count == |inside| && (s.writeMutex <==> inside != {})
  {
  }

  lemma Joined(s: State, n: State, threads: set<nat>, inside: set<nat>, t: nat)
    requires OnlyReaders(s, threads, inside) && t in threads && t !in inside
    requires n == State(s.pcs[t := Reading], false, true, s.count + 1)
    ensures OnlyReaders(n, threads, inside + {t})
  {
  }

  /** Readers share: for any set of threads there is a run in which each has called
      `_acquire_read` and all are inside at once. */
  lemma {:induction false} ReadersShare(threads: set<nat>, inside: set<nat>) returns (steps: seq<Step>)
    requires inside <= threads
    ensures Legal(Init(threads), steps)
    ensures OnlyReaders(After(Init(threads), steps), threads, inside)
    ensures forall t :: t in inside ==> Inside(After(Init(threads), steps), t) && LastCall(steps, t) == Read
    decreases |inside|
  {
    hide Legal, After, LastCall;
    if inside == {} {
      steps := [];
      assert Legal(Init(threads), []) && After(Init(threads), []) == Init(threads) by { NoSteps(Init(threads)); }
    } else {
      var t :| t in inside;
      var others := inside - {t};
      var before := ReadersShare(threads, others);
      var more := ReadIn(t, others == {});
      OneMoreReader(After(Init(threads), before), threads, others, t);
      steps := before + more;
      ThenRun(Init(threads), before, more);
      assert others + {t} == inside;
      forall u | u in inside ensures LastCall(steps, u) == Read {
        LastCallConcat(before, more, u);
        ReadInCalls(t, others == {}, u);
      }
    }
  }

  lemma NoSteps(s: State)
    ensures Legal(s, []) && After(s, []) == s
  {
  }

  lemma ReadInCalls(t: nat, first: bool, u: nat)
    ensures LastCall(ReadIn(t, first), u) == if u == t then Read else None
  {
    var steps := ReadIn(t, first);
    OnlyGoes(steps[1..], t, u);
    assert steps == [StartRead(t)] + steps[1..];
    LastCallConcat([StartRead(t)], steps[1..], u);
    OneCall(StartRead(t), u);
  }

  lemma {:induction false} OnlyGoes(steps: seq<Step>, t: nat, u: nat)
    requires forall i :: 0 <= i < |steps| ==> steps[i] == Go(t)
    ensures LastCall(steps, u) == None
    decreases |steps|
  {
    if steps != [] {
      OnlyGoes(steps[..|steps| - 1], t, u);
    }
  }

  lemma {:induction false} ThenRun(s: State, first: seq<Step>, second: seq<Step>)
    requires Legal(s, first) && Legal(After(s, first), second)
    ensures Legal(s, first + second)
    ensures After(s, first + second) == After(After(s, first), second)
    decreases |first|
  {
    hide Enabled, Next;
    if first == [] {
      assert first + second == second;
    } else {
      ThenRun(Next(s, first[0]), first[1..], second);
      assert (first + second)[1..] == first[1..] + second;
    }
  }

  /** The counter is the number of threads between counting themselves in and counting
      themselves out, also in the window where the first of them has not yet taken the
      write mutex; the two mutexes are held exactly when some thread accounts for it. */
  lemma {:induction false} CounterIsReaders(threads: set<nat>, steps: seq<Step>)
    requires Legal(Init(threads), steps)
    ensures var s := After(Init(threads), steps);
            && s.count == |CountedThreads(s.pcs)|
            && (s.readMutex <==> exists t :: t in s.pcs && InReadMutex(s.pcs[t]))
            && (s.writeMutex <==> (exists t :: t in s.pcs && (s.pcs[t].Writing? || ShowsReaders(s.pcs[t], s.count))))
  {
    hide Legal, After;
    InitInv(threads);
    RunsKeepInv(Init(threads), steps);
  }

  /** No deadlock: while any thread is under way, some thread under way can take its next
      step. */
  lemma {:induction false} SomeoneCanGo(s: State) returns (t: nat)
    requires Inv(s)
    requires exists u :: u in s.pcs && !s.pcs[u].Idle?
    ensures t in s.pcs && !s.pcs[t].Idle? && Enabled(s, Go(t))
  {
    t :| t in s.pcs && !s.pcs[t].Idle?;
    if !Enabled(s, Go(t)) {
      if s.readMutex {
        t :| t in s.pcs && InReadMutex(s.pcs[t]);
        if s.pcs[t].FirstIn? && s.writeMutex {
          OnlyCounted(s, t);
          NoReaders(s, t);
          t :| t in s.pcs && s.pcs[t].Writing?;
        }
      } else if s.pcs[t].WantWrite? {
        if WriterIn(s) {
          t :| t in s.pcs && s.pcs[t].Writing?;
        } else {
          t :| t in s.pcs && ShowsReaders(s.pcs[t], s.count);
        }
      }
    }
  }

  /** Steps a thread still has to take at most. */
  function ToGo(pc: Pc): nat {
    match pc
    case Idle => 0
    case WantEnter => 11
    case EnterLocked => 10
    case Counted => 9
    case FirstIn => 8
    case Entering => 7
    case Reading => 6
    case WantLeave => 5
    case LeaveLocked => 4
    case Uncounted => 3
    case LastOut => 2
    case Leaving => 1
    case WantWrite => 2
    case Writing => 1
  }

  ghost function Work(pcs: Pcs): nat
    decreases |pcs|
  {
    if pcs == map[] then 0
    else
      var t :| t in pcs;
      ToGo(pcs[t]) + Work(pcs - {t})
  }

  lemma {:induction false} WorkOf(pcs: Pcs, t: nat)
    requires t in pcs
    ensures Work(pcs) == ToGo(pcs[t]) + Work(pcs - {t})
    decreases |pcs|
  {
    hide ToGo;
    var u :| u in pcs && Work(pcs) == ToGo(pcs[u]) + Work(pcs - {u});
    if u != t {
      WorkOf(pcs - {u}, t);
      var rest := pcs - {t};
      WorkOf(rest, u);
      assert pcs - {u} - {t} == rest - {u};
    }
  }

  lemma WorkShrinks(s: State, t: nat)
    requires Enabled(s, Go(t))
    ensures Work(Next(s, Go(t)).pcs) < Work(s.pcs)
  {
    hide Work;
    var n := Next(s, Go(t));
    WorkOf(s.pcs, t);
    WorkOf(n.pcs, t);
    assert n.pcs - {t} == s.pcs - {t};
  }

  /** Without new calls every schedule is finite, whichever threads it favours. */
  lemma {:induction false} SchedulesEnd(s: State, steps: seq<Step>)
    requires Legal(s, steps) && forall i :: 0 <= i < |steps| ==> steps[i].Go?
    ensures |steps| <= Work(s.pcs)
    decreases |steps|
  {
    hide Work, Next, Enabled;
    if steps != [] {
      WorkShrinks(s, steps[0].t);
      SchedulesEnd(Next(s, steps[0]), steps[1..]);
    }
  }

  /** So a schedule without new calls that cannot be continued has let every caller
      through: all threads are back where they started. */
  lemma {:induction false} EveryoneGetsThrough(threads: set<nat>, before: seq<Step>, steps: seq<Step>)
    requires Legal(Init(threads), before)
    requires Legal(After(Init(threads), before), steps)
    requires forall i :: 0 <= i < |steps| ==> steps[i].Go?
    ensures var end := After(After(Init(threads), before), steps);
            && |steps| <= Work(After(Init(threads), before).pcs)
            && ((forall t :: !Enabled(end, Go(t))) <==> forall t :: t in end.pcs ==> end.pcs[t].Idle?)
  {
    hide Legal, After, Work, Inv;
    InitInv(threads);
    RunsKeepInv(Init(threads), before);
    var start := After(Init(threads), before);
    RunsKeepInv(start, steps);
    SchedulesEnd(start, steps);
    var end := After(start, steps);
    if exists t :: t in end.pcs && !end.pcs[t].Idle? {
      var t := SomeoneCanGo(end);
      assert Enabled(end, Go(t));
    }
  }
}
