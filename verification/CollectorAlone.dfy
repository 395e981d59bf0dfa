/** The collector by itself: where no mutator has a lock in its way, it finishes its cycle. */
module CollectorAlone {
  import opened Common
  import opened Graph
  import opened ConcurrentCollector
  import opened CollectorOrder
  import opened CollectorSnapshot
  import opened CollectorInvariant
  import opened CollectorSafety

  ghost predicate GcOnly(steps: seq<Step>) {
    forall i :: 0 <= i < |steps| ==> steps[i].GcMove? || steps[i].GcScan?
  }

  // ---------------------------------------------------------------------------- runs

  lemma {:induction false} RunThen(s: State, p: seq<Step>, m: State, q: seq<Step>, s': State)
    requires Run(s, p, m) && Run(m, q, s')
    ensures Run(s, p + q, s')
    decreases |p|
  {
    hide Do, Enabled;
    if p == [] {
      assert p + q == q;
    } else {
      RunThen(Do(s, p[0]), p[1..], m, q, s');
      assert (p + q)[1..] == p[1..] + q;
    }
  }

  lemma RunFirst(s: State, step: Step, rest: seq<Step>, s': State)
    requires Enabled(s, step) && Run(Do(s, step), rest, s')
    ensures Run(s, [step] + rest, s')
  {
    hide Do, Enabled;
    assert ([step] + rest)[1..] == rest;
  }

  lemma RunLast(s: State, p: seq<Step>, m: State, step: Step)
    requires Run(s, p, m) && Enabled(m, step)
    ensures Run(s, p + [step], Do(m, step))
  {
    hide Do, Enabled;
    assert Run(Do(m, step), [], Do(m, step));
    RunFirst(m, step, [], Do(m, step));
    assert [step] + [] == [step];
    RunThen(s, p, m, [step], Do(m, step));
  }

  // ---------------------------------------------------------------------------- what is left to do

  /** The objects whose references are still to be pushed, and those still to be painted grey. */
  ghost function ToExpand(objs: Heap, gc: Pc): set<Vaddr> {
    set a | a in objs && (Is(objs, a, Unvisited) || Is(objs, a, InProgress)) && gc != FinishVisit(a)
  }

  ghost function ToPaint(objs: Heap): set<Vaddr> {
    set a | a in objs && Is(objs, a, Unvisited)
  }

  ghost function Rank(gc: Pc): nat {
    match gc
    case LockProgress(_) => 18 case MarkProgress(_) => 17 case UnlockProgress(_) => 16
    case LockVisit(_) => 15 case CheckVisit(_) => 14 case FinishVisit(_) => 13 case UnlockVisit(_) => 12
    case PopProgress(p) => if p then 11 else 8
    case PopVisit(p) => if p then 10 else 7
    case Outer(p) => if p then 9 else 6
    case _ => 5
  }

  /** The collector moved on: less is left to expand, or as much and less to paint, and so on. */
  ghost predicate MovedOn(s: State, s': State) {
    || ToExpand(s'.objs, s'.gc) < ToExpand(s.objs, s.gc)
    || (&& ToExpand(s'.objs, s'.gc) == ToExpand(s.objs, s.gc)
        && (|| ToPaint(s'.objs) < ToPaint(s.objs)
            || (&& ToPaint(s'.objs) == ToPaint(s.objs)
                && (|| |s'.inProgress| + |s'.visit| < |s.inProgress| + |s.visit|
                    || (&& |s'.inProgress| + |s'.visit| == |s.inProgress| + |s.visit|
                        && Rank(s'.gc) < Rank(s.gc))))))
  }

  lemma ChecksMoveOn(s: State)
    requires s.gc.CheckVisit? && GcEnabled(s)
    ensures MovedOn(s, GcDo(s))
  {
    var a := s.gc.a;
    if s.objs[a].status == InProgress {
      assert a in ToExpand(s.objs, s.gc) && a !in ToExpand(s.objs, FinishVisit(a));
    } else {
      assert ToExpand(s.objs, GcDo(s).gc) == ToExpand(s.objs, s.gc);
    }
  }

  lemma FinishesMoveOn(s: State)
    requires s.gc.FinishVisit? && GcEnabled(s)
    ensures MovedOn(s, GcDo(s))
  {
    var a, objs' := s.gc.a, Painted(s.objs, s.gc.a, Visited);
    assert ToExpand(objs', UnlockVisit(a)) == ToExpand(s.objs, s.gc);
    if a in ToPaint(s.objs) {
      assert a !in ToPaint(objs') && ToPaint(objs') <= ToPaint(s.objs);
    } else {
      assert ToPaint(objs') == ToPaint(s.objs);
    }
  }

  lemma MarksMoveOn(s: State)
    requires s.gc.MarkProgress? && GcEnabled(s)
    ensures MovedOn(s, GcDo(s))
  {
    var a := s.gc.a;
    assert ToExpand(s.objs, UnlockProgress(a)) == ToExpand(s.objs, s.gc);
    if s.objs[a].status == Unvisited {
      var objs' := Painted(s.objs, a, InProgress);
      assert ToExpand(objs', UnlockProgress(a)) == ToExpand(s.objs, s.gc);
      assert a in ToPaint(s.objs) && a !in ToPaint(objs') && ToPaint(objs') <= ToPaint(s.objs);
    }
  }

  lemma OthersMoveOn(s: State)
    requires Marking(s.gc) && !s.gc.ClearFlag? && GcEnabled(s)
    requires !s.gc.MarkProgress? && !s.gc.CheckVisit? && !s.gc.FinishVisit?
    ensures MovedOn(s, GcDo(s))
  {
    hide GcEnabled, Unlocked, NonNull, ToPaint;
    var s' := GcDo(s);
    assert s'.objs == s.objs && !s'.gc.FinishVisit?;
    assert ToExpand(s'.objs, s'.gc) == ToExpand(s.objs, s.gc);
  }

  /** Every step of marking moves on. */
  lemma MarkingMovesOn(s: State)
    requires Marking(s.gc) && !s.gc.ClearFlag? && GcEnabled(s)
    ensures MovedOn(s, GcDo(s))
  {
    hide MovedOn, GcDo, GcEnabled;
    match s.gc
    case MarkProgress(_) => MarksMoveOn(s);
    case CheckVisit(_) => ChecksMoveOn(s);
    case FinishVisit(_) => FinishesMoveOn(s);
    case _ => OthersMoveOn(s);
  }

  // ---------------------------------------------------------------------------- marking within a set

  /** No mutator has a lock in c, so that the collector can have every write lock in c. */
  ghost predicate FreeIn(c: set<Vaddr>, gc: Pc, writer: map<Vaddr, Owner>, muts: map<nat, Mutator>) {
    && (forall t, x :: t in muts && x in c ==> !HasLock(muts[t], x))
    && (forall x :: x in c && x in writer ==> GcHolds(gc, x))
  }

  ghost predicate StacksWithin(c: set<Vaddr>, inProgress: seq<Vaddr>, visit: seq<Vaddr>, gc: Pc) {
    && (forall x :: x in inProgress ==> x in c)
    && (forall x :: x in visit ==> x in c)
    && (forall x :: GcTouches(gc, x) ==> x in c)
  }

  /** What is white or grey in c refers to c only. */
  ghost predicate HeapWithin(c: set<Vaddr>, objs: Heap) {
    && c <= objs.Keys
    && (forall x {:trigger RefsIn(objs, x, c)} :: x in c && (Is(objs, x, Unvisited) || Is(objs, x, InProgress)) ==>
          RefsIn(objs, x, c))
  }

  /** The collector is marking, and neither comes out of c nor waits for a mutator. */
  ghost predicate AloneIn(c: set<Vaddr>, s: State) {
    && Marking(s.gc)
    && FreeIn(c, s.gc, s.writer, s.muts)
    && StacksWithin(c, s.inProgress, s.visit, s.gc)
    && HeapWithin(c, s.objs)
  }

  /** Colours change in c at most, and nothing but colours. */
  ghost predicate OnlyPaints(c: set<Vaddr>, objs: Heap, objs': Heap) {
    && objs'.Keys == objs.Keys
    && (forall x :: x in objs ==> objs'[x].refs == objs[x].refs)
    && (forall x :: x in objs && x !in c ==> objs'[x] == objs[x])
  }

  ghost predicate SameOutside(c: set<Vaddr>, s: State, s': State) {
    && OnlyPaints(c, s.objs, s'.objs)
    && s'.muts == s.muts && s'.roots == s.roots && s'.flag == s.flag && s'.born == s.born && s'.freed == s.freed
  }

  lemma AloneIsEnabled(c: set<Vaddr>, s: State)
    requires AloneIn(c, s)
    ensures GcEnabled(s)
  {
    if s.gc.LockProgress? || s.gc.LockVisit? {
      assert GcTouches(s.gc, s.gc.a);
      forall t | t in s.muts ensures s.gc.a !in s.muts[t].rlocks {
        assert !HasLock(s.muts[t], s.gc.a);
      }
    } else if s.gc.MarkProgress? || s.gc.CheckVisit? || s.gc.FinishVisit? {
      assert GcTouches(s.gc, s.gc.a);
    }
  }

  lemma AlonePops(c: set<Vaddr>, s: State)
    requires AloneIn(c, s) && (s.gc.PopProgress? || s.gc.PopVisit? || s.gc.Outer?)
    ensures AloneIn(c, GcDo(s))
  {
    hide HasLock, RefsIn, HeapWithin;
    if s.gc.PopProgress? && s.inProgress != [] {
      assert s.inProgress[|s.inProgress|-1] in s.inProgress;
    } else if s.gc.PopVisit? && s.visit != [] {
      assert s.visit[|s.visit|-1] in s.visit;
    }
  }

  lemma AloneLocks(c: set<Vaddr>, s: State)
    requires AloneIn(c, s) && GcEnabled(s)
    requires s.gc.LockProgress? || s.gc.LockVisit? || s.gc.UnlockProgress? || s.gc.UnlockVisit?
    ensures AloneIn(c, GcDo(s))
  {
    hide HasLock, RefsIn, HeapWithin, Unlocked;
  }

  lemma AlonePaints(c: set<Vaddr>, objs: Heap, x: Vaddr, st: Status)
    requires HeapWithin(c, objs) && x in c && (Is(objs, x, Unvisited) || Is(objs, x, InProgress) || st == Visited)
    ensures HeapWithin(c, Painted(objs, x, st)) && OnlyPaints(c, objs, Painted(objs, x, st))
  {
    var objs' := Painted(objs, x, st);
    forall y | y in c && (Is(objs', y, Unvisited) || Is(objs', y, InProgress)) ensures RefsIn(objs', y, c) {
      RefsInMore(objs', objs, y, c, c);
    }
  }

  lemma AloneMarks(c: set<Vaddr>, s: State)
    requires AloneIn(c, s) && s.gc.MarkProgress? && GcEnabled(s)
    ensures AloneIn(c, GcDo(s)) && OnlyPaints(c, s.objs, GcDo(s).objs)
  {
    hide HasLock, RefsIn, HeapWithin;
    assert GcTouches(s.gc, s.gc.a);
    if s.objs[s.gc.a].status == Unvisited {
      AlonePaints(c, s.objs, s.gc.a, InProgress);
    }
  }

  lemma AloneChecks(c: set<Vaddr>, s: State)
    requires AloneIn(c, s) && s.gc.CheckVisit? && GcEnabled(s)
    ensures AloneIn(c, GcDo(s))
  {
    hide HasLock;
    assert GcTouches(s.gc, s.gc.a);
    if s.objs[s.gc.a].status == InProgress {
      assert RefsIn(s.objs, s.gc.a, c);
    }
  }

  lemma AloneFinishes(c: set<Vaddr>, s: State)
    requires AloneIn(c, s) && s.gc.FinishVisit? && GcEnabled(s)
    ensures AloneIn(c, GcDo(s)) && OnlyPaints(c, s.objs, GcDo(s).objs)
  {
    hide HasLock, RefsIn, HeapWithin;
    assert GcTouches(s.gc, s.gc.a);
    AlonePaints(c, s.objs, s.gc.a, Visited);
  }

  lemma AloneFrees(s: State)
    requires GcEnabled(s) && !s.gc.Free?
    ensures GcDo(s).freed == s.freed
  {
    hide GcEnabled, Unlocked, NonNull;
    var s' := GcDo(s);
  }

  lemma AloneFlag(s: State)
    requires GcEnabled(s) && !s.gc.ClearFlag?
    ensures GcDo(s).flag == s.flag
  {
    hide GcEnabled, Unlocked, NonNull;
    var s' := GcDo(s);
  }

  /** A step of marking keeps to c. */
  lemma AloneMoves(c: set<Vaddr>, s: State)
    requires AloneIn(c, s) && !s.gc.ClearFlag?
    ensures GcEnabled(s) && AloneIn(c, GcDo(s)) && SameOutside(c, s, GcDo(s))
  {
    hide FreeIn, StacksWithin, HeapWithin, GcDo, GcEnabled, OnlyPaints;
    AloneIsEnabled(c, s);
    GcKeepsMutators(s);
    GcBearsNothing(s);
    AloneFrees(s);
    AloneFlag(s);
    AloneCases(c, s);
  }

  lemma AloneCases(c: set<Vaddr>, s: State)
    requires AloneIn(c, s) && !s.gc.ClearFlag? && GcEnabled(s)
    ensures AloneIn(c, GcDo(s)) && OnlyPaints(c, s.objs, GcDo(s).objs)
  {
    hide FreeIn, StacksWithin, HeapWithin, GcDo, GcEnabled;
    if s.gc.MarkProgress? {
      AloneMarks(c, s);
    } else if s.gc.FinishVisit? {
      AloneFinishes(c, s);
    } else {
      GcKeepsObjects(s);
      match s.gc {
        case CheckVisit(_) => AloneChecks(c, s);
        case PopProgress(_) => AlonePops(c, s);
        case PopVisit(_) => AlonePops(c, s);
        case Outer(_) => AlonePops(c, s);
        case _ => AloneLocks(c, s);
      }
    }
  }

  lemma SameThen(c: set<Vaddr>, s: State, m: State, s': State)
    requires SameOutside(c, s, m) && SameOutside(c, m, s')
    ensures SameOutside(c, s, s')
  {
  }

  /** The collector marks what it comes to in c, and reaches the end of the loop. */
  lemma {:induction false} MarkingEnds(u: set<Vaddr>, c: set<Vaddr>, s: State) returns (steps: seq<Step>, s': State)
    requires Orderly(u, s) && AloneIn(c, s)
    ensures GcOnly(steps) && Run(s, steps, s') && s'.gc.ClearFlag?
    ensures Orderly(u, s') && AloneIn(c, s') && SameOutside(c, s, s')
    decreases ToExpand(s.objs, s.gc), ToPaint(s.objs), |s.inProgress| + |s.visit|, Rank(s.gc)
  {
    hide Orderly, FreeIn, StacksWithin, HeapWithin, OnlyPaints, GcDo, GcEnabled, ToExpand, ToPaint, Rank;
    if s.gc.ClearFlag? {
      SameAsBefore(c, s);
      return [], s;
    }
    AloneMoves(c, s);
    MarkingMovesOn(s);
    GcOrder(u, s);
    var rest;
    rest, s' := MarkingEnds(u, c, GcDo(s));
    steps := [GcMove] + rest;
    SameThen(c, s, GcDo(s), s');
    RunFirst(s, GcMove, rest, s');
  }

  lemma SameAsBefore(c: set<Vaddr>, s: State)
    ensures SameOutside(c, s, s)
  {
  }

  // ---------------------------------------------------------------------------- the sweep

  predicate NoLocks(m: Mutator) {
    m.rlocks == {} && m.wlocks == {} && m.phase.Idle?
  }

  /** Nobody holds any lock, and the collector is sweeping, or has swept. */
  ghost predicate Sweepable(s: State) {
    && !Marking(s.gc)
    && s.writer == map[]
    && (forall t :: t in s.muts ==> s.muts[t].rlocks == {})
    && (s.gc.Scan? ==> s.gc.todo <= s.objs.Keys)
  }

  /** The sweep will free x. */
  predicate ToSweep(s: State, x: Vaddr) {
    || (s.gc.Scan? && (x in s.gc.doomed || (x in s.gc.todo && x !in s.gc.seen && Is(s.objs, x, Unvisited))))
    || (s.gc.Free? && x in s.gc.doomed)
  }

  ghost predicate OnlySweeps(s: State, s': State) {
    && s'.muts == s.muts && s'.roots == s.roots && s'.flag == s.flag && s'.inProgress == s.inProgress
    && s'.objs.Keys <= s.objs.Keys && (forall x :: x in s'.objs ==> s'.objs[x] == s.objs[x])
  }

  lemma SweepFrees(s: State)
    requires Sweepable(s) && s.gc.Free?
    ensures GcEnabled(s) && Sweepable(GcDo(s)) && OnlySweeps(s, GcDo(s))
    ensures forall x :: ToSweep(s, x) ==> ToSweep(GcDo(s), x) || x !in GcDo(s).objs
  {
    var doomed := s.gc.doomed;
    if doomed != [] {
      assert doomed == doomed[..|doomed|-1] + [doomed[|doomed|-1]];
    }
  }

  lemma SweepScans(s: State, a: Vaddr)
    requires Sweepable(s) && s.gc.Scan? && a in s.gc.todo && a !in s.gc.seen
    ensures Enabled(s, GcScan(a)) && Sweepable(Do(s, GcScan(a))) && OnlySweeps(s, Do(s, GcScan(a)))
    ensures forall x :: ToSweep(s, x) ==> ToSweep(Do(s, GcScan(a)), x)
    ensures Do(s, GcScan(a)).gc.todo - Do(s, GcScan(a)).gc.seen < s.gc.todo - s.gc.seen
  {
    var s' := Do(s, GcScan(a));
    assert a in s.gc.todo - s.gc.seen && a !in s'.gc.todo - s'.gc.seen;
  }

  lemma Unscanned(todo: set<Vaddr>, seen: set<Vaddr>) returns (a: Vaddr)
    requires !(todo <= seen)
    ensures a in todo && a !in seen
  {
    a :| a in todo && a !in seen;
  }

  lemma SweepThen(s: State, m: State, s': State)
    requires OnlySweeps(s, m) && OnlySweeps(m, s')
    ensures OnlySweeps(s, s')
  {
  }

  lemma {:induction false} FreeingEnds(s: State) returns (steps: seq<Step>, s': State)
    requires Sweepable(s) && s.gc.Free?
    ensures GcOnly(steps) && Run(s, steps, s') && s'.gc.Done?
    ensures OnlySweeps(s, s') && forall x :: ToSweep(s, x) ==> x !in s'.objs
    decreases |s.gc.doomed|
  {
    hide Sweepable, OnlySweeps, ToSweep;
    SweepFrees(s);
    if s.gc.doomed == [] {
      NothingToSweep(s);
      steps, s' := [GcMove], GcDo(s);
      assert Run(GcDo(s), [], GcDo(s)) && [GcMove] + [] == [GcMove];
      RunFirst(s, GcMove, [], s');
    } else {
      var rest;
      rest, s' := FreeingEnds(GcDo(s));
      steps := [GcMove] + rest;
      GoneStays(GcDo(s), s');
      SweepThen(s, GcDo(s), s');
      RunFirst(s, GcMove, rest, s');
    }
  }

  lemma NothingToSweep(s: State)
    requires s.gc == Free([])
    ensures forall x :: !ToSweep(s, x)
  {
  }

  lemma GoneStays(m: State, s': State)
    requires OnlySweeps(m, s')
    ensures forall x :: x !in m.objs ==> x !in s'.objs
  {
  }

  /** With nobody in its way, the sweep frees all it is to free, and ends. */
  lemma {:induction false} SweepEnds(s: State) returns (steps: seq<Step>, s': State)
    requires Sweepable(s) && s.gc.Scan?
    ensures GcOnly(steps) && Run(s, steps, s') && s'.gc.Done?
    ensures OnlySweeps(s, s') && forall x :: ToSweep(s, x) ==> x !in s'.objs
    decreases s.gc.todo - s.gc.seen
  {
    hide Sweepable, OnlySweeps, ToSweep;
    var rest;
    if s.gc.todo <= s.gc.seen {
      ScanIsOver(s);
      rest, s' := FreeingEnds(GcDo(s));
      steps := [GcMove] + rest;
      SweepThen(s, GcDo(s), s');
      RunFirst(s, GcMove, rest, s');
    } else {
      var a := Unscanned(s.gc.todo, s.gc.seen);
      SweepScans(s, a);
      rest, s' := SweepEnds(Do(s, GcScan(a)));
      steps := [GcScan(a)] + rest;
      SweepThen(s, Do(s, GcScan(a)), s');
      RunFirst(s, GcScan(a), rest, s');
    }
  }

  lemma ScanIsOver(s: State)
    requires Sweepable(s) && s.gc.Scan? && s.gc.todo <= s.gc.seen
    ensures GcEnabled(s) && Sweepable(GcDo(s)) && GcDo(s).gc.Free? && OnlySweeps(s, GcDo(s))
    ensures forall x :: ToSweep(s, x) ==> ToSweep(GcDo(s), x)
  {
  }

  // ---------------------------------------------------------------------------- the cycle ends

  ghost predicate AllIdle(muts: map<nat, Mutator>) {
    forall t :: t in muts ==> NoLocks(muts[t])
  }

  /** Where no mutator has a lock, the collector has those that are taken. */
  lemma NobodyWrites(u: set<Vaddr>, s: State)
    requires Orderly(u, s) && AllIdle(s.muts)
    ensures forall c :: FreeIn(c, s.gc, s.writer, s.muts)
    ensures !Marking(s.gc) || s.gc.ClearFlag? ==> s.writer == map[]
  {
    hide HeapAlive, RootsIn, MutsIn;
    assert forall x :: x in s.writer ==> GcHolds(s.gc, x);
  }

  lemma InvIsAlone(z: Snapshot, s: State)
    requires Inv(z, s) && Marking(s.gc) && AllIdle(s.muts)
    ensures AloneIn(Known(z, s), s)
  {
    hide Orderly, LateIn, Colours, GreyIn, WritesIn, Snapshotted, AllSettled, VisitEmpty, GarbageIn;
    InvIsOrderly(z, s);
    NobodyWrites(InUse(z, s), s);
    var c := Known(z, s);
    forall x | x in c ensures RefsIn(s.objs, x, c) {
    }
  }

  lemma InvIsSweepable(z: Snapshot, s: State)
    requires Inv(z, s) && !Marking(s.gc) && AllIdle(s.muts)
    ensures Sweepable(s)
  {
    hide Orderly, HeapKnown, StacksIn, LateIn, Colours, GreyIn, WritesIn, Snapshotted, AllSettled, VisitEmpty, GarbageIn;
    InvIsOrderly(z, s);
    NobodyWrites(InUse(z, s), s);
  }

  lemma ClearsFlag(u: set<Vaddr>, s: State)
    requires Orderly(u, s) && s.gc.ClearFlag? && AllIdle(s.muts)
    ensures Enabled(s, GcMove) && Do(s, GcMove).gc == Scan(s.objs.Keys, {}, []) && Sweepable(Do(s, GcMove))
  {
    hide Orderly;
    NobodyWrites(u, s);
  }

  lemma {:induction false} AloneCompletes(z: Snapshot, s: State) returns (steps: seq<Step>, s': State)
    requires Inv(z, s) && AllIdle(s.muts)
    ensures GcOnly(steps) && Run(s, steps, s') && s'.gc.Done?
  {
    hide Inv, AloneIn, Sweepable, OnlySweeps, OnlyPaints, Orderly, Enabled, Do, Run;
    if s.gc.Done? {
      NoSteps(s);
      return [], s;
    }
    if !Marking(s.gc) {
      InvIsSweepable(z, s);
      if s.gc.Scan? { steps, s' := SweepEnds(s); } else { steps, s' := FreeingEnds(s); }
      return;
    }
    InvIsOrderly(z, s);
    InvIsAlone(z, s);
    var marking, m := MarkingEnds(InUse(z, s), Known(z, s), s);
    ClearsFlag(InUse(z, s), m);
    var sweeping;
    sweeping, s' := SweepEnds(Do(m, GcMove));
    RunLast(s, marking, m, GcMove);
    RunThen(s, marking + [GcMove], Do(m, GcMove), sweeping, s');
    steps := marking + [GcMove] + sweeping;
  }

  lemma NoSteps(s: State)
    ensures Run(s, [], s)
  {
  }

  /** From any state that a run reaches in which no mutator has a lock, the collector can finish its cycle by itself. */
  lemma CycleCompletes(s0: State, steps: seq<Step>, s: State) returns (more: seq<Step>, s': State)
    requires Start(s0) && Clean(s0) && Run(s0, steps, s) && AllIdle(s.muts)
    ensures GcOnly(more) && Run(s, more, s') && s'.gc.Done?
  {
    hide Inv, Start, Clean;
    RunHasInv(s0, steps, s);
    more, s' := AloneCompletes(Shot(s0), s);
  }
}
