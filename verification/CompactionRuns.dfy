/** Compaction threads against flushes: who may run, and what each manifest saved on the
    way shows. */
module CompactionRuns {
  import opened ByteStrings
  import opened Tables
  import EngineSteps
  import Compactions

  /** A level-0 entry: its path and its table. */
  datatype Entry = Entry(path: nat, table: Table)

  /** Where a compaction thread is; `removed` counts the captured entries taken out of
      level 0 so far, newest first. */
  datatype Pc = Spawned | Flagged | Captured(c: seq<Entry>) | Added(c: seq<Entry>, removed: nat)

  /** `pub` is history: every table a flush has published. */
  datatype State = State(l0: seq<Entry>, l1: seq<Table>, inProgress: bool, threads: map<nat, Pc>, pub: seq<Table>)

  function TablesOf(es: seq<Entry>): (ts: seq<Table>)
    ensures |ts| == |es|
  {
    seq(|es|, i requires 0 <= i < |es| => es[i].table)
  }

  function Shown(s: State): Table {
    EngineSteps.Levels(TablesOf(s.l0), s.l1)
  }

  function Without(es: seq<Entry>, path: nat): seq<Entry> {
    if es == [] then []
    else (if es[0].path == path then [] else [es[0]]) + Without(es[1..], path)
  }

  datatype Step =
    | FlushPublish(path: nat, table: Table)
    | MayStart(t: nat)
    | SetFlag(t: nat) | Capture(t: nat) | AddMerged(t: nat) | RemoveNext(t: nat) | Finish(t: nat)
    | Abort(t: nat)

  /** A path made from an advancing clock: used neither in level 0 nor by a table a
      compaction is working on. */
  ghost predicate Fresh(s: State, path: nat) {
    && (forall e :: e in s.l0 ==> e.path != path)
    && forall t :: t in s.threads && s.threads[t].Added? ==> forall e :: e in s.threads[t].c ==> e.path != path
  }

  ghost predicate Enabled(s: State, step: Step) {
    match step
    case FlushPublish(path, _) => Fresh(s, path)
    case MayStart(t) => t !in s.threads
    case SetFlag(t) => t in s.threads && s.threads[t].Spawned?
    case Capture(t) => t in s.threads && s.threads[t].Flagged?
    case AddMerged(t) => t in s.threads && s.threads[t].Captured?
    case RemoveNext(t) => t in s.threads && s.threads[t].Added? && s.threads[t].removed < |s.threads[t].c|
    case Finish(t) => t in s.threads && s.threads[t].Added? && s.threads[t].removed == |s.threads[t].c|
    case Abort(t) => t in s.threads && (s.threads[t].Flagged? || s.threads[t].Captured?)
  }

  function Next(s: State, step: Step): State
    requires Enabled(s, step)
  {
    match step
    case FlushPublish(path, table) => s.(l0 := s.l0 + [Entry(path, table)], pub := s.pub + [table])
    case MayStart(t) =>
      if s.inProgress || |s.l0| <= Compactions.L0_THRESHOLD then s
      else s.(inProgress := true, threads := s.threads[t := Spawned])
    case SetFlag(t) => s.(inProgress := true, threads := s.threads[t := Flagged])
    case Capture(t) =>
      if s.l0 == [] then s.(inProgress := false, threads := s.threads - {t})
      else s.(threads := s.threads[t := Captured(s.l0)])
    case AddMerged(t) =>
      var c := s.threads[t].c;
      s.(l1 := s.l1 + [Stack(TablesOf(c))], threads := s.threads[t := Added(c, 0)])
    case RemoveNext(t) =>
      var Added(c, removed) := s.threads[t];
      s.(l0 := Without(s.l0, c[|c| - 1 - removed].path), threads := s.threads[t := Added(c, removed + 1)])
    case Finish(t) => s.(inProgress := false, threads := s.threads - {t})
    case Abort(t) => s.(inProgress := false, threads := s.threads - {t})
  }

  function Init(): State {
    State([], [], false, map[], [])
  }

  ghost predicate Legal(s: State, steps: seq<Step>)
    decreases |steps|
  {
    steps == [] || (Enabled(s, steps[0]) && Legal(Next(s, steps[0]), steps[1..]))
  }

  function After(s: State, steps: seq<Step>): State
    requires Legal(s, steps)
    decreases |steps|
  {
    if steps == [] then s else After(Next(s, steps[0]), steps[1..])
  }

  /* ------------------------------------------------------- the invariant */

  ghost predicate Distinct(es: seq<Entry>) {
    forall i, j :: 0 <= i < j < |es| ==> es[i].path != es[j].path
  }

  /** No two compactions at once; the flag says whether one is under way. */
  ghost predicate Exclusive(s: State) {
    && (forall t, u :: t in s.threads && u in s.threads ==> t == u)
    && (s.inProgress <==> s.threads != map[])
  }

  /** The entries of level 0 published since the thread captured it. */
  function Later(s: State, c: seq<Entry>, removed: nat): seq<Entry>
    requires removed <= |c| && |c| - removed <= |s.l0|
  {
    s.l0[|c| - removed..]
  }

  /** Level 0 while a thread is removing: what it has still to remove, then what was
      published meanwhile; the merged table sits on top of level 1. */
  ghost predicate Removing(s: State, c: seq<Entry>, removed: nat) {
    && removed <= |c| && |c| - removed <= |s.l0|
    && s.l0[..|c| - removed] == c[..|c| - removed]
    && Distinct(c + Later(s, c, removed))
    && s.l1 != [] && s.l1[|s.l1| - 1] == Stack(TablesOf(c))
    && Stack(s.l1) + Stack(TablesOf(Later(s, c, removed))) == Stack(s.pub)
  }

  ghost predicate ThreadInv(s: State, pc: Pc) {
    match pc
    case Spawned => Shown(s) == Stack(s.pub)
    case Flagged => Shown(s) == Stack(s.pub)
    case Captured(c) => Shown(s) == Stack(s.pub) && c <= s.l0
    case Added(c, removed) => Removing(s, c, removed)
  }

  ghost predicate Inv(s: State) {
    && Exclusive(s) && Distinct(s.l0)
    && (s.threads == map[] ==> Shown(s) == Stack(s.pub))
    && (forall t :: t in s.threads ==> ThreadInv(s, s.threads[t]))
  }

  lemma TablesConcat(a: seq<Entry>, b: seq<Entry>)
    ensures TablesOf(a + b) == TablesOf(a) + TablesOf(b)
  {
  }

  lemma {:induction false} WithoutAbsent(es: seq<Entry>, path: nat)
    requires forall i :: 0 <= i < |es| ==> es[i].path != path
    ensures Without(es, path) == es
    decreases |es|
  {
    if es != [] {
      WithoutAbsent(es[1..], path);
    }
  }

  lemma {:induction false} WithoutConcat(a: seq<Entry>, b: seq<Entry>, path: nat)
    ensures Without(a + b, path) == Without(a, path) + Without(b, path)
    decreases |a|
  {
    if a == [] {
      assert a + b == b;
    } else {
      WithoutConcat(a[1..], b, path);
      assert (a + b)[1..] == a[1..] + b;
    }
  }

  /** Removing by path takes out the one entry meant. */
  lemma RemoveTakesOne(a: seq<Entry>, e: Entry, b: seq<Entry>)
    requires forall i :: 0 <= i < |a| ==> a[i].path != e.path
    requires forall i :: 0 <= i < |b| ==> b[i].path != e.path
    ensures Without(a + ([e] + b), e.path) == a + b
  {
    hide Without;
    WithoutConcat(a, [e] + b, e.path);
    WithoutConcat([e], b, e.path);
    WithoutAbsent(a, e.path);
    WithoutAbsent(b, e.path);
    WithoutSelf(e);
  }

  lemma WithoutSelf(e: Entry)
    ensures Without([e], e.path) == []
  {
  }

  lemma PublishInv(s: State, path: nat, table: Table)
    requires Inv(s) && Enabled(s, FlushPublish(path, table))
    ensures Inv(Next(s, FlushPublish(path, table)))
  {
    hide Stack, TablesOf, Removing, Distinct;
    var e := Entry(path, table);
    var t := Next(s, FlushPublish(path, table));
    TablesConcat(s.l0, [e]);
    OneTable(e);
    StackSnoc(TablesOf(s.l0), table);
    StackSnoc(s.pub, table);
    OverlayAssoc(Stack(s.l1), Stack(TablesOf(s.l0)), table);
    DistinctSnoc(s.l0, e);
    forall u | u in t.threads ensures ThreadInv(t, t.threads[u]) {
      if s.threads[u].Added? {
        RemovingSnoc(s, e, s.threads[u].c, s.threads[u].removed);
      }
    }
  }

  lemma OneTable(e: Entry)
    ensures TablesOf([e]) == [e.table]
  {
  }

  lemma DistinctSnoc(es: seq<Entry>, e: Entry)
    requires Distinct(es) && forall x :: x in es ==> x.path != e.path
    ensures Distinct(es + [e])
  {
    assert forall i :: 0 <= i < |es| ==> es[i] in es;
  }

  lemma RemovingSnoc(s: State, e: Entry, c: seq<Entry>, removed: nat)
    requires Removing(s, c, removed) && Fresh(s, e.path)
    requires forall x :: x in c ==> x.path != e.path
    ensures Removing(s.(l0 := s.l0 + [e], pub := s.pub + [e.table]), c, removed)
  {
    hide Stack, TablesOf;
    var t := s.(l0 := s.l0 + [e], pub := s.pub + [e.table]);
    var rest := Later(s, c, removed);
    assert Later(t, c, removed) == rest + [e];
    TablesConcat(rest, [e]);
    OneTable(e);
    StackSnoc(TablesOf(rest), e.table);
    StackSnoc(s.pub, e.table);
    OverlayAssoc(Stack(s.l1), Stack(TablesOf(rest)), e.table);
    assert c + (rest + [e]) == (c + rest) + [e];
    forall x | x in c + rest ensures x.path != e.path {
      if x !in c {
        assert x in rest && x in s.l0;
      }
    }
    DistinctSnoc(c + rest, e);
  }

  lemma AddInv(s: State, t: nat)
    requires Inv(s) && Enabled(s, AddMerged(t))
    ensures Inv(Next(s, AddMerged(t)))
  {
    hide Stack, TablesOf;
    var c, n := s.threads[t].c, Next(s, AddMerged(t));
    assert ThreadInv(s, s.threads[t]);
    var rest := s.l0[|c|..];
    assert s.l0 == c + rest;
    TablesConcat(c, rest);
    Compactions.CompactionPreservesView(s.l1, TablesOf(c), TablesOf(rest));
    assert Later(n, c, 0) == rest;
    assert c[..|c|] == c && s.l0[..|c|] == c;
    assert Removing(n, c, 0);
  }

  lemma DistinctDrop(a: seq<Entry>, e: Entry, b: seq<Entry>)
    requires Distinct(a + ([e] + b))
    ensures Distinct(a + b)
  {
    var whole, part := a + ([e] + b), a + b;
    forall i | 0 <= i < |part| ensures part[i] == whole[if i < |a| then i else i + 1] {
    }
  }

  lemma RemoveInv(s: State, t: nat)
    requires Inv(s) && Enabled(s, RemoveNext(t))
    ensures Inv(Next(s, RemoveNext(t)))
  {
    hide Stack, TablesOf, Without;
    var Added(c, removed) := s.threads[t];
    assert ThreadInv(s, s.threads[t]);
    var left := |c| - removed - 1;
    var n, rest := Next(s, RemoveNext(t)), Later(s, c, removed);
    var e, keep := c[left], c[..left];
    assert s.l0 == keep + ([e] + rest);
    var all := c + rest;
    forall i | 0 <= i < |keep| ensures keep[i].path != e.path {
      assert all[i] == keep[i] && all[left] == e;
    }
    forall i | 0 <= i < |rest| ensures rest[i].path != e.path {
      assert all[|c| + i] == rest[i] && all[left] == e;
    }
    RemoveTakesOne(keep, e, rest);
    DistinctDrop(keep, e, rest);
    assert n.l0 == keep + rest;
    assert n.l0[..|c| - (removed + 1)] == keep;
    assert Later(n, c, removed + 1) == rest;
    assert Removing(n, c, removed + 1);
  }

  lemma FinishInv(s: State, t: nat)
    requires Inv(s) && Enabled(s, Finish(t))
    ensures Inv(Next(s, Finish(t)))
  {
    hide Stack, TablesOf;
    var Added(c, removed) := s.threads[t];
    assert ThreadInv(s, s.threads[t]);
    assert Later(s, c, removed) == s.l0;
  }

  lemma OtherInv(s: State, step: Step)
    requires Inv(s) && Enabled(s, step)
    requires step.MayStart? || step.SetFlag? || step.Capture? || step.Abort?
    ensures Inv(Next(s, step))
  {
    hide Stack, TablesOf, Removing;
  }

  lemma StepInv(s: State, step: Step)
    requires Inv(s) && Enabled(s, step)
    ensures Inv(Next(s, step))
  {
    hide Inv, Enabled, Next;
    match step
    case FlushPublish(path, table) => PublishInv(s, path, table);
    case AddMerged(t) => AddInv(s, t);
    case RemoveNext(t) => RemoveInv(s, t);
    case Finish(t) => FinishInv(s, t);
    case _ => OtherInv(s, step);
  }

  lemma InitInv()
    ensures Inv(Init())
  {
    assert TablesOf([]) == [];
  }

  lemma {:induction false} RunsKeepInv(s: State, steps: seq<Step>)
    requires Inv(s) && Legal(s, steps)
    ensures Inv(After(s, steps))
    decreases |steps|
  {
    hide Inv, Enabled, Next;
    if steps != [] {
      StepInv(s, steps[0]);
      RunsKeepInv(Next(s, steps[0]), steps[1..]);
    }
  }

  /* ------------------------------------------------------- main results */

  /** In any run, whatever flush threads ask for, at most one compaction is under way, and
      the flag says so; while none is past publishing its output, the levels show exactly
      the published tables stacked in order. */
  lemma {:induction false} AtMostOneCompaction(steps: seq<Step>)
    requires Legal(Init(), steps)
    ensures var s := After(Init(), steps);
            && (forall t, u :: t in s.threads && u in s.threads ==> t == u)
            && (s.inProgress <==> s.threads != map[])
            && ((forall t :: t in s.threads ==> !s.threads[t].Added?) ==> Shown(s) == Stack(s.pub))
  {
    hide After, Legal, Shown;
    InitInv();
    RunsKeepInv(Init(), steps);
    var s := After(Init(), steps);
    if s.threads != map[] {
      var t :| t in s.threads;
      assert ThreadInv(s, s.threads[t]);
    }
  }

  /* -------------------------------------------------- a whole compaction */

  lemma RunStep(s: State, step: Step, rest: seq<Step>)
    requires Enabled(s, step) && Legal(Next(s, step), rest)
    ensures Legal(s, [step] + rest)
    ensures After(s, [step] + rest) == After(Next(s, step), rest)
  {
    hide Next, Enabled;
    assert ([step] + rest)[1..] == rest;
  }

  lemma {:induction false} ThenRun(s: State, first: seq<Step>, second: seq<Step>)
    requires Legal(s, first) && Legal(After(s, first), second)
    ensures Legal(s, first + second)
    ensures After(s, first + second) == After(After(s, first), second)
    decreases |first|
  {
    hide Enabled, Next;
    if first == [] {
      assert first + second == second;
    } else {
      ThenRun(Next(s, first[0]), first[1..], second);
      assert (first + second)[1..] == first[1..] + second;
    }
  }

  function Publishes(es: seq<Entry>): seq<Step> {
    seq(|es|, i requires 0 <= i < |es| => FlushPublish(es[i].path, es[i].table))
  }

  function Removes(t: nat, n: nat): seq<Step> {
    seq(n, _ => RemoveNext(t))
  }

  lemma {:induction false} PublishAll(s: State, es: seq<Entry>)
    requires Distinct(s.l0 + es)
    requires forall t :: t in s.threads ==> !s.threads[t].Added?
    ensures Legal(s, Publishes(es))
    ensures After(s, Publishes(es)) == s.(l0 := s.l0 + es, pub := s.pub + TablesOf(es))
    decreases |es|
  {
    if es == [] {
      assert s.l0 + es == s.l0 && s.pub + TablesOf(es) == s.pub;
    } else {
      var e, n := es[0], s.(l0 := s.l0 + [es[0]], pub := s.pub + [es[0].table]);
      forall x | x in s.l0 ensures x.path != e.path {
        var i :| 0 <= i < |s.l0| && s.l0[i] == x;
        assert (s.l0 + es)[i] == x && (s.l0 + es)[|s.l0|] == e;
      }
      assert s.l0 + es == (s.l0 + [e]) + es[1..];
      PublishAll(n, es[1..]);
      assert Publishes(es) == [FlushPublish(e.path, e.table)] + Publishes(es[1..]);
      RunStep(s, FlushPublish(e.path, e.table), Publishes(es[1..]));
      assert s.pub + TablesOf(es) == (s.pub + [e.table]) + TablesOf(es[1..]);
    }
  }

  lemma {:induction false} RemoveAll(s: State, t: nat, c: seq<Entry>, removed: nat, later: seq<Entry>)
    requires t in s.threads && s.threads[t] == Added(c, removed) && removed <= |c|
    requires s.l0 == c[..|c| - removed] + later && Distinct(c + later)
    ensures Legal(s, Removes(t, |c| - removed))
    ensures After(s, Removes(t, |c| - removed)) == s.(l0 := later, threads := s.threads[t := Added(c, |c|)])
    decreases |c| - removed
  {
    hide Without;
    var left := |c| - removed;
    if left == 0 {
      assert s.l0 == later && s.threads[t := Added(c, |c|)] == s.threads;
    } else {
      var e, keep, all := c[left - 1], c[..left - 1], c + later;
      assert s.l0 == keep + ([e] + later);
      forall i | 0 <= i < |keep| ensures keep[i].path != e.path {
        assert all[i] == keep[i] && all[left - 1] == e;
      }
      forall i | 0 <= i < |later| ensures later[i].path != e.path {
        assert all[|c| + i] == later[i] && all[left - 1] == e;
      }
      RemoveTakesOne(keep, e, later);
      var n := Next(s, RemoveNext(t));
      assert n.l0 == keep + later;
      RemoveAll(n, t, c, removed + 1, later);
      assert Removes(t, left) == [RemoveNext(t)] + Removes(t, left - 1);
      RunStep(s, RemoveNext(t), Removes(t, left - 1));
      assert n.threads[t := Added(c, |c|)] == s.threads[t := Added(c, |c|)];
    }
  }

  /** One compaction by thread `t`, with the tables of `later` flushed after its capture. */
  function CompactionSteps(t: nat, n: nat, later: seq<Entry>): seq<Step> {
    [MayStart(t), SetFlag(t), Capture(t)] + (Publishes(later) + ([AddMerged(t)] + (Removes(t, n) + [Finish(t)])))
  }

  /** A compaction that is asked for runs to its end when level 0 has more than two tables,
      and is not started otherwise: then exactly what was flushed since its capture is on
      level 0, the overlay of what it captured is on top of level 1, and the flag is down. */
  lemma {:induction false} CompactionCompletes(s: State, t: nat, later: seq<Entry>)
    requires s.threads == map[] && !s.inProgress && Distinct(s.l0 + later)
    ensures |s.l0| <= 2 ==> Enabled(s, MayStart(t)) && Next(s, MayStart(t)) == s
    ensures |s.l0| > 2 ==>
              && Legal(s, CompactionSteps(t, |s.l0|, later))
              && After(s, CompactionSteps(t, |s.l0|, later))
                 == State(later, s.l1 + [Stack(TablesOf(s.l0))], false, map[], s.pub + TablesOf(later))
  {
    hide Legal, After, Stack, TablesOf, Distinct, Publishes, Removes;
    if |s.l0| > 2 {
      var c := s.l0;
      var s1 := Next(s, MayStart(t));
      var s2 := Next(s1, SetFlag(t));
      var s3 := Next(s2, Capture(t));
      PublishAll(s3, later);
      var s4 := After(s3, Publishes(later));
      var s5 := Next(s4, AddMerged(t));
      assert c[..|c| - 0] == c;
      RemoveAll(s5, t, c, 0, later);
      var s6 := After(s5, Removes(t, |c|));
      NoSteps(Next(s6, Finish(t)));
      assert [Finish(t)] + [] == [Finish(t)];
      RunStep(s6, Finish(t), []);
      ThenRun(s5, Removes(t, |c|), [Finish(t)]);
      var rest := [AddMerged(t)] + (Removes(t, |c|) + [Finish(t)]);
      RunStep(s4, AddMerged(t), Removes(t, |c|) + [Finish(t)]);
      ThenRun(s3, Publishes(later), rest);
      RunStep(s2, Capture(t), Publishes(later) + rest);
      RunStep(s1, SetFlag(t), [Capture(t)] + (Publishes(later) + rest));
      RunStep(s, MayStart(t), [SetFlag(t)] + ([Capture(t)] + (Publishes(later) + rest)));
      assert CompactionSteps(t, |c|, later)
          == [MayStart(t)] + ([SetFlag(t)] + ([Capture(t)] + (Publishes(later) + rest)));
    }
  }

  lemma NoSteps(s: State)
    ensures Legal(s, []) && After(s, []) == s
  {
  }

  /** A reading of a stack comes from one of its tables. */
  lemma {:induction false} StackMember(ts: seq<Table>, k: Bytes)
    requires k in Stack(ts)
    ensures exists j :: 0 <= j < |ts| && k in ts[j] && Stack(ts)[k] == ts[j][k]
    decreases |ts|
  {
    if k in Stack(ts[1..]) {
      StackMember(ts[1..], k);
      var j :| 0 <= j < |ts[1..]| && k in ts[1..][j] && Stack(ts[1..])[k] == ts[1..][j][k];
      assert ts[j + 1] == ts[1..][j];
    } else {
      assert k in ts[0];
    }
  }

  /** The captured tables a compaction has not yet removed from level 0. */
  function StillListed(c: seq<Entry>, removed: nat): Table
    requires removed <= |c|
  {
    Stack(TablesOf(c[..|c| - removed]))
  }

  /** Every manifest saved while a compaction removes its inputs, newest first, in any run:
      a key reads as it should if and only if it was flushed again meanwhile, or no input
      still listed holds it, or those inputs agree with the newest captured value.  A
      captured key not flushed again is never missing and never falls back to an older
      level-1 value: it reads one of its captured level-0 values. */
  lemma {:induction false} IntermediateManifests(steps: seq<Step>, t: nat, k: Bytes)
    requires Legal(Init(), steps)
    requires t in After(Init(), steps).threads && After(Init(), steps).threads[t].Added?
    ensures var s := After(Init(), steps);
            var Added(c, removed) := s.threads[t];
            && removed <= |c| && |c| - removed <= |s.l0|
            && var later, listed, merged :=
                 Stack(TablesOf(Later(s, c, removed))), StillListed(c, removed), Stack(TablesOf(c));
            && ((Find(Shown(s), k) == Find(Stack(s.pub), k))
                  <==> (k in later || k !in listed || Find(listed, k) == Find(merged, k)))
            && (k in merged && k !in later ==>
                  exists j :: 0 <= j < |c| && k in c[j].table && Find(Shown(s), k) == Some(c[j].table[k]))
  {
    hide After, Legal, TablesOf;
    InitInv();
    RunsKeepInv(Init(), steps);
    ManifestReads(After(Init(), steps), t, k);
  }

  lemma ManifestReads(s: State, t: nat, k: Bytes)
    requires Inv(s) && t in s.threads && s.threads[t].Added?
    ensures var Added(c, removed) := s.threads[t];
            && removed <= |c| && |c| - removed <= |s.l0|
            && var later, listed, merged :=
                 Stack(TablesOf(Later(s, c, removed))), StillListed(c, removed), Stack(TablesOf(c));
            && ((Find(Shown(s), k) == Find(Stack(s.pub), k))
                  <==> (k in later || k !in listed || Find(listed, k) == Find(merged, k)))
            && (k in merged && k !in later ==>
                  exists j :: 0 <= j < |c| && k in c[j].table && Find(Shown(s), k) == Some(c[j].table[k]))
  {
    hide Stack, TablesOf, Distinct;
    var Added(c, removed) := s.threads[t];
    assert ThreadInv(s, s.threads[t]);
    var n := |c| - removed;
    var later, listed, merged := Stack(TablesOf(Later(s, c, removed))), StillListed(c, removed), Stack(TablesOf(c));
    assert s.l0 == c[..n] + Later(s, c, removed);
    TablesConcat(c[..n], Later(s, c, removed));
    StackConcat(TablesOf(c[..n]), TablesOf(Later(s, c, removed)));
    assert Shown(s) == Stack(s.l1) + (listed + later);
    var older := s.l1[..|s.l1| - 1];
    assert s.l1 == older + [merged];
    StackSnoc(older, merged);
    assert c == c[..n] + c[n..];
    TablesConcat(c[..n], c[n..]);
    StackConcat(TablesOf(c[..n]), TablesOf(c[n..]));
    assert k in listed ==> k in merged;
    if k in merged && k !in later {
      CapturedMember(c, merged, k);
      if k in listed {
        CapturedMember(c[..n], listed, k);
        var j :| 0 <= j < n && k in c[..n][j].table && listed[k] == c[..n][j].table[k];
        assert c[j] == c[..n][j];
      }
    }
  }

  lemma CapturedMember(c: seq<Entry>, merged: Table, k: Bytes)
    requires merged == Stack(TablesOf(c)) && k in merged
    ensures exists j :: 0 <= j < |c| && k in c[j].table && merged[k] == c[j].table[k]
  {
    hide Stack;
    StackMember(TablesOf(c), k);
    var j :| 0 <= j < |c| && k in TablesOf(c)[j] && merged[k] == TablesOf(c)[j][k];
    assert k in c[j].table;
  }
}
