/** The two stacks of a concurrent cycle: what is pushed and popped, and how often an object is visited. */
module CollectorStacks {
  import opened Common
  import opened Graph
  import opened ConcurrentCollector
  import opened CollectorOrder
  import opened CollectorHistory

  // ---------------------------------------------------------------------------- last in, first out

  datatype Op = Push(v: Vaddr) | Pop(v: Vaddr)

  /** One push for each reference that is not null, in order. */
  function PushEach(refs: seq<Vaddr>): seq<Op> {
    if refs == [] then []
    else if refs[0] == NULL_VADDR then PushEach(refs[1..])
    else [Push(refs[0])] + PushEach(refs[1..])
  }

  /** The operations turn the stack q into q', and each pop takes what is on top. */
  ghost predicate Stacked(q: seq<Vaddr>, ops: seq<Op>, q': seq<Vaddr>)
    decreases |ops|
  {
    if ops == [] then q' == q
    else
      match ops[0]
      case Push(v) => Stacked(q + [v], ops[1..], q')
      case Pop(v) => q != [] && q[|q|-1] == v && Stacked(q[..|q|-1], ops[1..], q')
  }

  lemma StackedPush(q: seq<Vaddr>, v: Vaddr, ops: seq<Op>, q': seq<Vaddr>)
    requires Stacked(q + [v], ops, q')
    ensures Stacked(q, [Push(v)] + ops, q')
  {
    assert ([Push(v)] + ops)[1..] == ops;
  }

  lemma PushesStep(refs: seq<Vaddr>)
    ensures refs == [] ==> PushEach(refs) == [] && NonNull(refs) == []
    ensures refs != [] ==>
              if refs[0] == NULL_VADDR then PushEach(refs) == PushEach(refs[1..]) && NonNull(refs) == NonNull(refs[1..])
              else PushEach(refs) == [Push(refs[0])] + PushEach(refs[1..])
                   && NonNull(refs) == [refs[0]] + NonNull(refs[1..])
  {
  }

  lemma {:induction false} StackedPushes(q: seq<Vaddr>, refs: seq<Vaddr>)
    ensures Stacked(q, PushEach(refs), q + NonNull(refs))
    decreases |refs|
  {
    hide Stacked, PushEach, NonNull;
    PushesStep(refs);
    if refs == [] {
      StackedNothing(q);
      assert q + NonNull(refs) == q;
    } else if refs[0] == NULL_VADDR {
      StackedPushes(q, refs[1..]);
    } else {
      StackedPushes(q + [refs[0]], refs[1..]);
      assert q + [refs[0]] + NonNull(refs[1..]) == q + NonNull(refs);
      StackedPush(q, refs[0], PushEach(refs[1..]), q + NonNull(refs));
    }
  }

  lemma {:induction false} StackedThen(q: seq<Vaddr>, a: seq<Op>, q1: seq<Vaddr>, b: seq<Op>, q2: seq<Vaddr>)
    requires Stacked(q, a, q1) && Stacked(q1, b, q2)
    ensures Stacked(q, a + b, q2)
    decreases |a|
  {
    if a == [] {
      assert a + b == b;
    } else {
      assert (a + b)[0] == a[0] && (a + b)[1..] == a[1..] + b;
      match a[0]
      case Push(v) => StackedThen(q + [v], a[1..], q1, b, q2);
      case Pop(_) => StackedThen(q[..|q|-1], a[1..], q1, b, q2);
    }
  }

  lemma StackedNothing(q: seq<Vaddr>)
    ensures Stacked(q, [], q)
  {
  }

  lemma StackedTop(q: seq<Vaddr>)
    requires q != []
    ensures Stacked(q, [Pop(q[|q|-1])], q[..|q|-1])
  {
    assert [Pop(q[|q|-1])][1..] == [];
  }

  lemma StackedOne(q: seq<Vaddr>, v: Vaddr)
    ensures Stacked(q, [Push(v)], q + [v])
  {
    assert [Push(v)][1..] == [];
  }

  /** A visit, by the collector or in the barrier, pushes its references; the collector pops what it locks next. */
  function ProgressOps(s: State, step: Step): seq<Op>
    requires Enabled(s, step)
  {
    if step.PushRefs? then PushEach(s.objs[s.muts[step.t].phase.a].refs)
    else if !step.GcMove? then []
    else if s.gc.CheckVisit? && Is(s.objs, s.gc.a, InProgress) then PushEach(s.objs[s.gc.a].refs)
    else if s.gc.PopProgress? && Do(s, step).gc.LockProgress? then [Pop(Do(s, step).gc.a)]
    else []
  }

  /** A white object is pushed; the collector pops what it locks next. */
  function VisitOps(s: State, step: Step): seq<Op>
    requires Enabled(s, step)
  {
    if !step.GcMove? then []
    else if s.gc.MarkProgress? && Is(s.objs, s.gc.a, Unvisited) then [Push(s.gc.a)]
    else if s.gc.PopVisit? && Do(s, step).gc.LockVisit? then [Pop(Do(s, step).gc.a)]
    else []
  }

  ghost function AllProgressOps(s: State, steps: seq<Step>): seq<Op>
    decreases |steps|
  {
    if steps == [] || !Enabled(s, steps[0]) then []
    else ProgressOps(s, steps[0]) + AllProgressOps(Do(s, steps[0]), steps[1..])
  }

  ghost function AllVisitOps(s: State, steps: seq<Step>): seq<Op>
    decreases |steps|
  {
    if steps == [] || !Enabled(s, steps[0]) then []
    else VisitOps(s, steps[0]) + AllVisitOps(Do(s, steps[0]), steps[1..])
  }

  lemma AllOpsStep(s: State, steps: seq<Step>)
    requires steps != [] && Enabled(s, steps[0])
    ensures AllProgressOps(s, steps) == ProgressOps(s, steps[0]) + AllProgressOps(Do(s, steps[0]), steps[1..])
    ensures AllVisitOps(s, steps) == VisitOps(s, steps[0]) + AllVisitOps(Do(s, steps[0]), steps[1..])
  {
    hide Enabled, Do, ProgressOps, VisitOps;
  }

  lemma AllOpsOfNone(s: State)
    ensures AllProgressOps(s, []) == [] == AllVisitOps(s, [])
  {
  }

  lemma GcStacks(s: State)
    requires GcEnabled(s)
    ensures Stacked(s.inProgress, ProgressOps(s, GcMove), GcDo(s).inProgress)
  {
    hide Unlocked, NonNull, PushEach, Stacked, Painted;
    StackedNothing(s.inProgress);
    match s.gc
    case CheckVisit(a) =>
      StackedPushes(s.inProgress, s.objs[a].refs);
    case PopProgress(_) =>
      if s.inProgress != [] {
        StackedTop(s.inProgress);
      }
    case _ =>
  }

  lemma ProgressStacks(s: State, step: Step)
    requires Enabled(s, step)
    ensures Stacked(s.inProgress, ProgressOps(s, step), Do(s, step).inProgress)
  {
    hide GcEnabled, GcDo, Unlocked, NonNull, PushEach, Stacked, Painted;
    StackedNothing(s.inProgress);
    if step.GcMove? {
      GcStacks(s);
    } else if step.PushRefs? {
      StackedPushes(s.inProgress, s.objs[s.muts[step.t].phase.a].refs);
    }
  }

  lemma GcVisitStacks(s: State)
    requires GcEnabled(s)
    ensures Stacked(s.visit, VisitOps(s, GcMove), GcDo(s).visit)
  {
    hide Unlocked, NonNull, Stacked, Painted;
    StackedNothing(s.visit);
    match s.gc
    case MarkProgress(a) =>
      StackedOne(s.visit, a);
    case PopVisit(_) =>
      if s.visit != [] {
        StackedTop(s.visit);
      }
    case CheckVisit(_) =>
    case PopProgress(_) =>
    case _ =>
  }

  lemma VisitStacks(s: State, step: Step)
    requires Enabled(s, step)
    ensures Stacked(s.visit, VisitOps(s, step), Do(s, step).visit)
  {
    hide GcEnabled, GcDo, Unlocked, NonNull, Stacked, Painted;
    StackedNothing(s.visit);
    if step.GcMove? {
      GcVisitStacks(s);
    }
  }

  /** Both stacks are last in, first out; the collector goes on with what it pops, and visits push one by one in order. */
  lemma {:induction false} StacksAreLifo(s: State, steps: seq<Step>, s': State)
    requires Run(s, steps, s')
    ensures Stacked(s.inProgress, AllProgressOps(s, steps), s'.inProgress)
    ensures Stacked(s.visit, AllVisitOps(s, steps), s'.visit)
    decreases |steps|
  {
    hide Run, Do, Enabled, ProgressOps, VisitOps, AllProgressOps, AllVisitOps, Stacked;
    if steps == [] {
      RunEnds(s, s');
      AllOpsOfNone(s);
      StackedNothing(s.inProgress);
      StackedNothing(s.visit);
    } else {
      RunStep(s, steps, s');
      AllOpsStep(s, steps);
      var n := Do(s, steps[0]);
      ProgressStacks(s, steps[0]);
      VisitStacks(s, steps[0]);
      StacksAreLifo(n, steps[1..], s');
      StackedThen(s.inProgress, ProgressOps(s, steps[0]), n.inProgress, AllProgressOps(n, steps[1..]), s'.inProgress);
      StackedThen(s.visit, VisitOps(s, steps[0]), n.visit, AllVisitOps(n, steps[1..]), s'.visit);
    }
  }

  // ---------------------------------------------------------------------------- each object is visited at most once

  /** The object that the collector pops off the visit stack. */
  function Taken(s: State, step: Step): seq<Vaddr>
    requires Enabled(s, step)
  {
    var ops := VisitOps(s, step);
    if ops != [] && ops[0].Pop? then [ops[0].v] else []
  }

  /** The objects popped so, in order. */
  ghost function Visits(s: State, steps: seq<Step>): seq<Vaddr>
    decreases |steps|
  {
    if steps == [] || !Enabled(s, steps[0]) then []
    else Taken(s, steps[0]) + Visits(Do(s, steps[0]), steps[1..])
  }

  predicate MarkingOver(gc: Pc) {
    gc.ClearFlag? || gc.Scan? || gc.Free? || gc.Done?
  }

  predicate Found(objs: Heap, a: Vaddr) {
    Is(objs, a, InProgress) || Is(objs, a, Visited)
  }

  /** The objects of past, and those on the visit stack, are different, and have been found. */
  ghost predicate VisitedOnce(past: set<Vaddr>, s: State) {
    && NoRepeats(s.visit)
    && (forall a :: a in s.visit ==> a !in past)
    && (s.gc.Outer? || MarkingOver(s.gc) ==> s.visit == [])
    && (!MarkingOver(s.gc) ==> forall a :: a in past || a in s.visit ==> Found(s.objs, a))
  }

  lemma GcFoundStays(s: State, a: Vaddr)
    requires GcEnabled(s) && Found(s.objs, a) && !s.gc.Free?
    ensures Found(GcDo(s).objs, a)
  {
    hide GcEnabled, GcDo, Unlocked, NonNull;
    if s.gc.MarkProgress? || s.gc.FinishVisit? {
      GcPaintsOne(s);
    } else {
      GcKeepsObjects(s);
    }
  }

  lemma FoundStays(s: State, step: Step, a: Vaddr)
    requires Enabled(s, step) && Found(s.objs, a) && !s.gc.Free?
    ensures Found(Do(s, step).objs, a)
  {
    hide GcEnabled, GcDo, Unlocked, NonNull;
    if step.GcMove? {
      GcFoundStays(s, a);
    }
  }

  lemma WhiteWasWhite(s: State, step: Step, a: Vaddr)
    requires Enabled(s, step) && Is(Do(s, step).objs, a, Unvisited)
    ensures Is(s.objs, a, Unvisited)
  {
    hide Enabled, Do;
    TablesStep(s, step, a);
  }

  lemma GcPopsVisit(s: State)
    requires GcEnabled(s) && s.gc.PopVisit?
    ensures var n, v := GcDo(s), s.visit;
            if v == [] then n.gc.Outer? && n.visit == v
            else n.gc == LockVisit(v[|v|-1]) && n.visit == v[..|v|-1]
  {
    hide Unlocked, NonNull, Painted;
  }

  lemma GcMarks(s: State)
    requires GcEnabled(s) && s.gc.MarkProgress?
    ensures var n, a := GcDo(s), s.gc.a;
            && n.gc == UnlockProgress(a) && n.visit == (if Is(s.objs, a, Unvisited) then s.visit + [a] else s.visit)
            && (Is(s.objs, a, Unvisited) ==> Is(n.objs, a, InProgress))
  {
    hide Unlocked, NonNull;
  }

  lemma GcLeavesVisit(s: State)
    requires GcEnabled(s) && !s.gc.PopVisit? && !s.gc.MarkProgress?
    ensures GcDo(s).visit == s.visit && !GcDo(s).gc.Outer?
  {
    hide GcEnabled, Unlocked, NonNull, Painted;
    match s.gc
    case CheckVisit(_) =>
    case PopProgress(_) =>
    case Free(_) =>
    case _ =>
  }

  /** Marking ends at the head of the outer loop, and does not start again. */
  lemma GcMovesOn(s: State)
    requires GcEnabled(s) && !s.gc.PopVisit? && !s.gc.MarkProgress?
    ensures MarkingOver(GcDo(s).gc) ==> s.gc.Outer? || MarkingOver(s.gc)
    ensures MarkingOver(s.gc) ==> MarkingOver(GcDo(s).gc)
  {
    hide GcEnabled, Unlocked, NonNull, Painted;
    match s.gc
    case CheckVisit(_) =>
    case PopProgress(_) =>
    case Free(_) =>
    case _ =>
  }

  lemma TakenIs(s: State, step: Step)
    requires Enabled(s, step)
    ensures Taken(s, step) == if step.GcMove? && s.gc.PopVisit? && s.visit != [] then [s.visit[|s.visit|-1]] else []
  {
    hide GcEnabled, GcDo, MutEnabled, MutDo;
    if step.GcMove? && s.gc.PopVisit? {
      GcPopsVisit(s);
    }
  }

  lemma OthersLeaveVisit(s: State, step: Step)
    requires Enabled(s, step) && !step.GcMove?
    ensures Do(s, step).visit == s.visit && (Do(s, step).gc == s.gc || (s.gc.Scan? && Do(s, step).gc.Scan?))
  {
    hide GcEnabled, GcDo, Unlocked, NonNull, Painted;
  }

  lemma FoundAllStay(past: set<Vaddr>, s: State, step: Step)
    requires Enabled(s, step) && VisitedOnce(past, s) && !MarkingOver(s.gc)
    ensures forall a :: a in past || a in s.visit ==> Found(Do(s, step).objs, a)
  {
    hide Enabled, Do, Found;
    forall a | a in past || a in s.visit ensures Found(Do(s, step).objs, a) {
      FoundStays(s, step, a);
    }
  }

  lemma TopGoes(past: set<Vaddr>, v: seq<Vaddr>)
    requires NoRepeats(v) && v != [] && forall a :: a in v ==> a !in past
    ensures var q, top := v[..|v|-1], v[|v|-1];
            NoRepeats(q) && top !in past && forall a :: a in q ==> a in v && a !in past + {top}
  {
  }

  lemma TopComes(past: set<Vaddr>, v: seq<Vaddr>, a: Vaddr)
    requires NoRepeats(v) && a !in v && a !in past && forall x :: x in v ==> x !in past
    ensures NoRepeats(v + [a]) && forall x :: x in v + [a] ==> x !in past && (x in v || x == a)
  {
  }

  lemma GcVisitsOnce(past: set<Vaddr>, s: State)
    requires GcEnabled(s) && VisitedOnce(past, s)
    requires !MarkingOver(s.gc) ==> forall a :: a in past || a in s.visit ==> Found(GcDo(s).objs, a)
    ensures var q := if s.gc.PopVisit? && s.visit != [] then [s.visit[|s.visit|-1]] else [];
            VisitedOnce(past + Elems(q), GcDo(s)) && forall a :: a in q ==> a in s.visit && a !in past
    ensures forall a :: a in GcDo(s).visit ==> a in s.visit || Is(s.objs, a, Unvisited)
  {
    hide GcEnabled, GcDo;
    if s.gc.PopVisit? {
      GcPopsVisit(s);
      if s.visit != [] {
        TopGoes(past, s.visit);
      }
    } else if s.gc.MarkProgress? {
      GcMarks(s);
      if Is(s.objs, s.gc.a, Unvisited) {
        assert !Found(s.objs, s.gc.a);
        TopComes(past, s.visit, s.gc.a);
      }
    } else {
      GcLeavesVisit(s);
      GcMovesOn(s);
    }
  }

  lemma StepVisitsOnce(past: set<Vaddr>, s: State, step: Step)
    requires Enabled(s, step) && VisitedOnce(past, s)
    ensures VisitedOnce(past + Elems(Taken(s, step)), Do(s, step))
    ensures forall a :: a in Taken(s, step) ==> a in s.visit && a !in past
    ensures forall a :: a in Do(s, step).visit ==> a in s.visit || Is(s.objs, a, Unvisited)
  {
    hide GcEnabled, GcDo, MutEnabled, MutDo, Taken, Found;
    TakenIs(s, step);
    if !MarkingOver(s.gc) {
      FoundAllStay(past, s, step);
    }
    if step.GcMove? {
      GcVisitsOnce(past, s);
    } else {
      OthersLeaveVisit(s, step);
    }
  }

  lemma VisitsStep(s: State, steps: seq<Step>)
    requires steps != [] && Enabled(s, steps[0])
    ensures Visits(s, steps) == Taken(s, steps[0]) + Visits(Do(s, steps[0]), steps[1..])
  {
    hide Enabled, Do, Taken;
  }

  lemma VisitsOfNone(s: State)
    ensures Visits(s, []) == []
  {
  }

  lemma OneThenRest(q: seq<Vaddr>, r: seq<Vaddr>)
    requires |q| <= 1 && NoRepeats(r) && forall a :: a in r ==> a !in q
    ensures NoRepeats(q + r) && forall a :: a in q + r <==> a in q || a in r
  {
    if q == [] {
      assert q + r == r;
    } else {
      assert q + r == [q[0]] + r && q[0] in q;
    }
  }

  lemma {:induction false} RunVisitsOnce(past: set<Vaddr>, s: State, steps: seq<Step>, s': State)
    requires Run(s, steps, s') && VisitedOnce(past, s)
    ensures NoRepeats(Visits(s, steps))
    ensures forall a :: a in Visits(s, steps) ==> a !in past && (a in s.visit || Is(s.objs, a, Unvisited))
    decreases |steps|
  {
    hide Run, Do, Enabled, Taken, Visits, VisitedOnce, NoRepeats, Is;
    if steps == [] {
      VisitsOfNone(s);
      NoneRepeat();
    } else {
      RunStep(s, steps, s');
      VisitsStep(s, steps);
      var q, n := Taken(s, steps[0]), Do(s, steps[0]);
      StepVisitsOnce(past, s, steps[0]);
      TakenIs(s, steps[0]);
      RunVisitsOnce(past + Elems(q), n, steps[1..], s');
      InElems(q);
      forall a | Is(n.objs, a, Unvisited) ensures Is(s.objs, a, Unvisited) {
        WhiteWasWhite(s, steps[0], a);
      }
      OneThenRest(q, Visits(n, steps[1..]));
    }
  }

  lemma NoneRepeat()
    ensures NoRepeats<Vaddr>([])
  {
  }

  lemma InElems(q: seq<Vaddr>)
    ensures forall a :: a in Elems(q) <==> a in q
  {
  }

  /**
   Beside any mutators, the collector visits only objects that were white when the roots were pushed, each at most once.
   */
  lemma EachIsVisitedOnce(s0: State, steps: seq<Step>, s: State)
    requires Start(s0) && Run(s0, steps, s)
    ensures NoRepeats(Visits(s0, steps)) && forall a :: a in Visits(s0, steps) ==> Is(s0.objs, a, Unvisited)
  {
    hide Run, Visits, Live, Owned, KnowsItsLocks, MutLocks, NotBlack, Handles;
    RunVisitsOnce({}, s0, steps, s);
  }

  // ---------------------------------------------------------------------------- the loops

  predicate InProgressLoop(gc: Pc) {
    gc.PopProgress? || gc.LockProgress? || gc.MarkProgress? || gc.UnlockProgress?
  }

  predicate InVisitLoop(gc: Pc) {
    gc.PopVisit? || gc.LockVisit? || gc.CheckVisit? || gc.FinishVisit? || gc.UnlockVisit?
  }

  /** The iteration has popped something so far. */
  predicate Productive(gc: Pc) {
    match gc
    case Outer(productive) => productive
    case PopProgress(productive) => productive
    case PopVisit(productive) => productive
    case _ => InProgressLoop(gc) || InVisitLoop(gc)
  }

  /** Each inner loop goes on until its stack is empty, and the outer one until an iteration has popped nothing. */
  lemma LoopsDrain(s: State)
    requires GcEnabled(s)
    ensures InProgressLoop(s.gc) && !InProgressLoop(GcDo(s).gc) ==>
              s.inProgress == [] && s.gc.PopProgress? && GcDo(s).gc == PopVisit(Productive(s.gc))
    ensures InVisitLoop(s.gc) && !InVisitLoop(GcDo(s).gc) ==>
              s.visit == [] && s.gc.PopVisit? && GcDo(s).gc == Outer(Productive(s.gc))
    ensures s.gc.Outer? ==> if Productive(s.gc) then GcDo(s).gc == PopProgress(false) else GcDo(s).gc.ClearFlag?
  {
    hide GcEnabled, Unlocked, NonNull, Painted;
    match s.gc
    case Outer(_) =>
    case PopProgress(_) =>
    case MarkProgress(_) =>
    case PopVisit(_) =>
    case CheckVisit(_) =>
    case _ =>
  }

  predicate Pops(ops: seq<Op>) {
    ops != [] && ops[0].Pop?
  }

  /** Some step of the run has popped one of the stacks. */
  ghost predicate SomePop(s: State, steps: seq<Step>)
    decreases |steps|
  {
    steps != [] && Enabled(s, steps[0])
    && (Pops(ProgressOps(s, steps[0])) || Pops(VisitOps(s, steps[0])) || SomePop(Do(s, steps[0]), steps[1..]))
  }

  /** All of the run lies within the loops, in one iteration of the outer one. */
  ghost predicate OneIteration(s: State, steps: seq<Step>)
    decreases |steps|
  {
    (InProgressLoop(s.gc) || InVisitLoop(s.gc) || steps == [])
    && (steps != [] && Enabled(s, steps[0]) ==> OneIteration(Do(s, steps[0]), steps[1..]))
  }

  lemma IterationStep(s: State, steps: seq<Step>)
    ensures steps == [] ==> !SomePop(s, steps)
    ensures steps != [] && Enabled(s, steps[0]) ==>
              SomePop(s, steps) == (Pops(ProgressOps(s, steps[0])) || Pops(VisitOps(s, steps[0]))
                                    || SomePop(Do(s, steps[0]), steps[1..]))
    ensures steps != [] && Enabled(s, steps[0]) && OneIteration(s, steps) ==>
              OneIteration(Do(s, steps[0]), steps[1..]) && (InProgressLoop(s.gc) || InVisitLoop(s.gc))
  {
    hide Enabled, Do, Pops, ProgressOps, VisitOps, InProgressLoop, InVisitLoop;
  }

  lemma GcProductive(s: State)
    requires GcEnabled(s) && (InProgressLoop(s.gc) || InVisitLoop(s.gc))
    ensures Productive(GcDo(s).gc)
            <==> Productive(s.gc) || (s.gc.PopProgress? && GcDo(s).gc.LockProgress?)
                 || (s.gc.PopVisit? && GcDo(s).gc.LockVisit?)
  {
    hide GcEnabled, Unlocked, NonNull, Painted;
    match s.gc
    case PopProgress(_) =>
    case MarkProgress(_) =>
    case PopVisit(_) =>
    case CheckVisit(_) =>
    case _ =>
  }

  lemma PushesDoNotPop(refs: seq<Vaddr>)
    ensures !Pops(PushEach(refs))
  {
    if refs != [] && refs[0] == NULL_VADDR {
      PushesDoNotPop(refs[1..]);
    }
  }

  lemma OnlyGcPops(s: State, step: Step)
    requires Enabled(s, step)
    ensures Pops(ProgressOps(s, step)) <==> step.GcMove? && s.gc.PopProgress? && Do(s, step).gc.LockProgress?
    ensures Pops(VisitOps(s, step)) <==> step.GcMove? && s.gc.PopVisit? && Do(s, step).gc.LockVisit?
  {
    hide GcDo, MutDo, PushEach, Unlocked;
    if step.PushRefs? {
      PushesDoNotPop(s.objs[s.muts[step.t].phase.a].refs);
    } else if step.GcMove? && s.gc.CheckVisit? {
      PushesDoNotPop(s.objs[s.gc.a].refs);
    }
  }

  lemma StepProductive(s: State, step: Step)
    requires Enabled(s, step) && (InProgressLoop(s.gc) || InVisitLoop(s.gc))
    ensures Productive(Do(s, step).gc)
            <==> Productive(s.gc) || Pops(ProgressOps(s, step)) || Pops(VisitOps(s, step))
  {
    hide GcEnabled, GcDo, MutEnabled, MutDo, Pops, ProgressOps, VisitOps, Productive;
    OnlyGcPops(s, step);
    if step.GcMove? {
      GcProductive(s);
    } else {
      OthersLeaveVisit(s, step);
    }
  }

  /** An iteration of the outer loop counts as productive exactly when it has popped one of the stacks. */
  lemma {:induction false} IterationIsProductive(s: State, steps: seq<Step>, s': State)
    requires Run(s, steps, s') && OneIteration(s, steps)
    ensures Productive(s'.gc) <==> Productive(s.gc) || SomePop(s, steps)
    decreases |steps|
  {
    hide Run, Do, Enabled, OneIteration, SomePop, Productive, Pops, ProgressOps, VisitOps, InProgressLoop, InVisitLoop;
    IterationStep(s, steps);
    if steps == [] {
      RunEnds(s, s');
    } else {
      RunStep(s, steps, s');
      StepProductive(s, steps[0]);
      IterationIsProductive(Do(s, steps[0]), steps[1..], s');
    }
  }
}
