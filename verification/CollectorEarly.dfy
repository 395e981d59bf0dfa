/** The first half of a cycle, beside running mutators: painting white, raising the flag, and pushing the roots. */
module CollectorEarly {
  import opened Common
  import opened Graph
  import opened ConcurrentCollector
  import opened CollectorOrder
  import opened CollectorSnapshot
  import opened CollectorInvariant
  import opened CollectorSafety
  import opened CollectorExact

  /** Where the collecting thread is. Its pass over the objects comes to all that were there when it began. */
  datatype Prelude =
    | Painting(todo: set<Vaddr>, seen: set<Vaddr>)
    | RootsLocked  // nobody can add or drop a root
    | Flagged
    | RootsPushed

  datatype Early = Early(pre: Prelude, s: State)

  /** roots lists the addresses of the live roots, in the order of their entries. */
  datatype EarlyStep =
    | PaintOne(a: Vaddr)
    | LockRoots
    | RaiseFlag
    | PushRoots(roots: seq<Vaddr>)
    | Move(step: Step)

  predicate MoveEnabled(e: Early, step: Step) {
    && !step.GcMove? && !step.GcScan? && MutEnabled(e.s, step)
    && (step.AddRoot? || step.DropRoot? ==> e.pre.Painting?)
  }

  ghost predicate EarlyEnabled(e: Early, x: EarlyStep) {
    match x
    case PaintOne(a) => e.pre.Painting? && a in e.s.objs && a !in e.pre.seen && Unlocked(e.s, a)
    case LockRoots => e.pre.Painting? && e.pre.todo <= e.pre.seen
    case RaiseFlag => e.pre.RootsLocked?
    case PushRoots(roots) => e.pre.Flagged? && Elems(roots) == e.s.roots.Values
    case Move(step) => !e.pre.RootsPushed? && MoveEnabled(e, step)
  }

  /** With the roots pushed the record of new objects starts afresh. */
  ghost function EarlyDo(e: Early, x: EarlyStep): Early
    requires EarlyEnabled(e, x)
  {
    match x
    case PaintOne(a) =>
      Early(Painting(e.pre.todo, e.pre.seen + {a}), e.s.(objs := Painted(e.s.objs, a, Unvisited)))
    case LockRoots => e.(pre := RootsLocked)
    case RaiseFlag => Early(Flagged, e.s.(flag := true))
    case PushRoots(roots) => Early(RootsPushed, e.s.(inProgress := e.s.inProgress + roots, born := {}))
    case Move(step) => e.(s := MutDo(e.s, step))
  }

  ghost predicate EarlyRun(e: Early, xs: seq<EarlyStep>, e': Early)
    decreases |xs|
  {
    if xs == [] then e' == e
    else EarlyEnabled(e, xs[0]) && EarlyRun(EarlyDo(e, xs[0]), xs[1..], e')
  }

  /** The flag is down: a new cycle may begin. */
  ghost predicate Begin(b: State) {
    Ready(b) && !b.flag
  }

  ghost function Beginning(b: State): Early {
    Early(Painting(b.objs.Keys, {}), b)
  }

  // ---------------------------------------------------------------------------- the invariant

  ghost predicate NoGrey(objs: Heap) {
    forall a :: a in objs ==> objs[a].status != InProgress
  }

  ghost predicate StackIn(u: set<Vaddr>, inProgress: seq<Vaddr>) {
    forall a :: a in inProgress ==> a in u
  }

  /** The pass has not come to a yet. */
  predicate Unseen(pre: Prelude, a: Vaddr) {
    pre.Painting? && a !in pre.seen
  }

  /** What was garbage at the beginning is touched by the pass only. */
  ghost predicate OldGarbage(b: State, u: set<Vaddr>, pre: Prelude, objs: Heap) {
    forall a :: a in b.objs && a !in Live(b) ==>
      a !in u && a in objs && objs[a].refs == b.objs[a].refs && (Is(objs, a, Unvisited) || Unseen(pre, a))
  }

  ghost predicate EarlyInv(b: State, e: Early) {
    var u := Live(b) + e.s.born;
    && Orderly(u, e.s)
    && e.s.gc == Outer(true) && e.s.visit == [] && e.s.freed == {} && NoGrey(e.s.objs) && StackIn(u, e.s.inProgress)
    && e.s.flag == e.pre.Flagged? && !e.pre.RootsPushed?
    && (e.pre.Painting? ==> b.objs.Keys <= e.pre.todo)
    && OldGarbage(b, u, e.pre, e.s.objs)
  }

  /** What the prelude leaves: a start state, in which the old garbage is white and still garbage. */
  ghost predicate Prepared(b: State, s: State) {
    && Start(s)
    && forall a :: a in b.objs && a !in Live(b) ==> Is(s.objs, a, Unvisited) && a !in Live(s)
  }

  lemma EarlyAtBeginning(b: State)
    requires Begin(b)
    ensures EarlyInv(b, Beginning(b))
  {
    hide Live, Orderly;
    ReadyIsOrderly(b);
    assert Live(b) + {} == Live(b);
  }

  // ---------------------------------------------------------------------------- the steps

  lemma PaintsOne(b: State, e: Early, a: Vaddr)
    requires EarlyInv(b, e) && EarlyEnabled(e, PaintOne(a))
    ensures EarlyInv(b, EarlyDo(e, PaintOne(a)))
  {
    hide Live, HeapAlive, RootsIn, MutsIn, WriterIn;
    var u := Live(b) + e.s.born;
    PaintOrder(u, e.s, a);
  }

  /** Nobody is inside the barrier for an object whose lock is free. */
  lemma PaintOrder(u: set<Vaddr>, s: State, a: Vaddr)
    requires Orderly(u, s) && a in s.objs && Unlocked(s, a)
    ensures Orderly(u, s.(objs := Painted(s.objs, a, Unvisited)))
  {
    hide HeapAlive, RootsIn, MutsIn, WriterIn;
    Repainted(u, s.objs, a, Unvisited);
    GcActs(u, s.objs, s.writer, s.muts, Painted(s.objs, a, Unvisited), s.writer);
  }

  lemma LocksAndFlags(b: State, e: Early, x: EarlyStep)
    requires EarlyInv(b, e) && EarlyEnabled(e, x) && (x.LockRoots? || x.RaiseFlag?)
    ensures EarlyInv(b, EarlyDo(e, x))
  {
    hide Live, HeapAlive, RootsIn, MutsIn, WriterIn;
  }

  /** What a mutator does to the heap: it changes, or adds, an object of u. */
  lemma MutTouches(u: set<Vaddr>, s: State, step: Step)
    requires Orderly(u, s) && !step.GcMove? && !step.GcScan? && MutEnabled(s, step) && NoGrey(s.objs)
    ensures NoGrey(MutDo(s, step).objs)
    ensures forall a :: a in s.objs && a !in u ==> a in MutDo(s, step).objs && MutDo(s, step).objs[a] == s.objs[a]
    ensures forall a :: a in s.objs && a !in u ==> a !in Grown(u, step)
  {
    hide HeapAlive, RootsIn, MutsIn, WriterIn, NonNull;
    OwnLocks(u, s, step.t);
    assert step.Store? ==> HasLock(s.muts[step.t], step.a);
    assert step.SetVisited? ==> HasLock(s.muts[step.t], s.muts[step.t].phase.a);
  }

  lemma MutPushesUsed(u: set<Vaddr>, s: State, step: Step)
    requires Orderly(u, s) && !step.GcMove? && !step.GcScan? && MutEnabled(s, step) && StackIn(u, s.inProgress)
    ensures StackIn(Grown(u, step), MutDo(s, step).inProgress)
  {
    hide RootsIn, MutsIn, WriterIn;
    OwnLocks(u, s, step.t);
    assert step.PushRefs? ==> HasLock(s.muts[step.t], s.muts[step.t].phase.a);
  }

  lemma MutFrame(s: State, step: Step)
    requires !step.GcMove? && !step.GcScan? && MutEnabled(s, step)
    ensures var s' := MutDo(s, step); s'.gc == s.gc && s'.visit == s.visit && s'.freed == s.freed && s'.flag == s.flag
    ensures MutDo(s, step).born == s.born + (if step.Malloc? then {step.a} else {})
  {
    hide NonNull;
  }

  lemma Moves(b: State, e: Early, step: Step)
    requires EarlyInv(b, e) && EarlyEnabled(e, Move(step))
    ensures EarlyInv(b, EarlyDo(e, Move(step)))
  {
    hide Live, Orderly, NoGrey, StackIn, MutDo, MutEnabled;
    var u := Live(b) + e.s.born;
    MallocIsNew(e.s, step);
    MutOrder(u, e.s, step);
    MutTouches(u, e.s, step);
    MutPushesUsed(u, e.s, step);
    MutFrame(e.s, step);
    assert Live(b) + MutDo(e.s, step).born == Grown(u, step);
  }

  // ---------------------------------------------------------------------------- the roots are pushed

  /** What is orderly for a set of objects with the handles and stacked addresses is ready, and uses nothing else. */
  lemma OrderlyIsReady(u: set<Vaddr>, s: State)
    requires Orderly(u, s) && StackIn(u, s.inProgress) && NoGrey(s.objs)
    requires s.gc == Outer(true) && s.visit == [] && s.born == {} && s.freed == {}
    ensures Ready(s) && Live(s) <= u
  {
    hide Handles;
    AccessibleIsUsed(u, s);
    var from := Handles(s) + Elems(s.inProgress);
    assert Closed(RefGraph(s.objs), from, u);
    ReachIsLeast(RefGraph(s.objs), from, u);
  }

  lemma PushesRoots(b: State, e: Early, roots: seq<Vaddr>)
    requires EarlyInv(b, e) && EarlyEnabled(e, PushRoots(roots))
    ensures Prepared(b, EarlyDo(e, PushRoots(roots)).s)
  {
    hide Live, HeapAlive, MutsIn, WriterIn, Ready, NoGrey;
    var u, s := Live(b) + e.s.born, EarlyDo(e, PushRoots(roots)).s;
    forall a | a in roots ensures a in u {
      assert a in Elems(roots);
    }
    forall id | id in s.roots ensures s.roots[id] in s.inProgress {
      assert s.roots[id] in Elems(roots);
    }
    assert Orderly(u, s);
    OrderlyIsReady(u, s);
  }

  lemma EarlyStepKeepsInv(b: State, e: Early, x: EarlyStep)
    requires EarlyInv(b, e) && EarlyEnabled(e, x)
    ensures if x.PushRoots? then Prepared(b, EarlyDo(e, x).s) else EarlyInv(b, EarlyDo(e, x))
    ensures EarlyDo(e, x).pre.RootsPushed? <==> x.PushRoots?
  {
    hide EarlyInv, Prepared, MoveEnabled, MutDo;
    NotPushedYet(b, e);
    match x
    case PaintOne(a) => PaintsOne(b, e, a);
    case PushRoots(roots) => PushesRoots(b, e, roots);
    case Move(step) => Moves(b, e, step);
    case _ => LocksAndFlags(b, e, x);
  }

  lemma NotPushedYet(b: State, e: Early)
    requires EarlyInv(b, e)
    ensures !e.pre.RootsPushed?
  {
  }

  lemma {:induction false} EarlyRunPrepares(b: State, e: Early, xs: seq<EarlyStep>, e': Early)
    requires EarlyInv(b, e) && EarlyRun(e, xs, e') && e'.pre.RootsPushed?
    ensures Prepared(b, e'.s)
    decreases |xs|
  {
    hide EarlyInv, Prepared, EarlyDo, EarlyEnabled;
    NotPushedYet(b, e);
    EarlyStepKeepsInv(b, e, xs[0]);
    if EarlyDo(e, xs[0]).pre.RootsPushed? {
      NothingAfterPush(EarlyDo(e, xs[0]), xs[1..], e');
    } else {
      EarlyRunPrepares(b, EarlyDo(e, xs[0]), xs[1..], e');
    }
  }

  lemma NothingAfterPush(e: Early, xs: seq<EarlyStep>, e': Early)
    requires e.pre.RootsPushed? && EarlyRun(e, xs, e')
    ensures e' == e
  {
  }

  /** However mutators run beside it, the first half of a cycle ends in a start state of the second half. */
  lemma PreludeEstablishesStart(b: State, xs: seq<EarlyStep>, e: Early)
    requires Begin(b) && EarlyRun(Beginning(b), xs, e) && e.pre.RootsPushed?
    ensures Prepared(b, e.s)
  {
    hide EarlyInv, Begin, Beginning, Prepared;
    EarlyAtBeginning(b);
    EarlyRunPrepares(b, Beginning(b), xs, e);
  }

  // ---------------------------------------------------------------------------- whole cycles

  /** The rest of the cycle is safe in every interleaving if and only if the prelude has left a clean state. */
  lemma CycleIsSafeExactlyWhenClean(b: State, xs: seq<EarlyStep>, e: Early)
    requires Begin(b) && EarlyRun(Beginning(b), xs, e) && e.pre.RootsPushed?
    ensures Start(e.s) && (Clean(e.s) <==> AlwaysSafe(e.s))
  {
    hide Begin, Start, Clean, AlwaysSafe, EarlyRun;
    PreludeEstablishesStart(b, xs, e);
    SafeExactlyWhenClean(e.s);
  }

  /** What was garbage when the cycle began, with the painting of the first object, is gone when it is done. */
  lemma CycleFreesOldGarbage(b: State, xs: seq<EarlyStep>, e: Early, steps: seq<Step>, s: State)
    requires Begin(b) && EarlyRun(Beginning(b), xs, e) && e.pre.RootsPushed? && Clean(e.s)
    requires Run(e.s, steps, s) && s.gc.Done?
    ensures forall a :: a in b.objs && a !in Live(b) ==> a in s.freed
  {
    hide Begin, Start, Clean, Live, EarlyRun, Run, Accessible, Led;
    PreludeEstablishesStart(b, xs, e);
    CollectionIsPrecise(e.s, steps, s);
  }

  /** The state that a finished cycle leaves to the next one. */
  function Renewed(s: State): State {
    s.(gc := Outer(true), born := {}, freed := {})
  }

  lemma DoneIsOrderly(z: Snapshot, s: State)
    requires Inv(z, s) && s.gc.Done?
    ensures Orderly(InUse(z, s), Renewed(s)) && StackIn(InUse(z, s), s.inProgress) && NoGrey(s.objs)
    ensures s.visit == [] && !s.flag
  {
    hide HeapAlive, HeapKnown, RootsIn, MutsIn, StacksIn, Colours, WritesIn, Snapshotted, AllSettled, GarbageIn, SweepIn;
    forall a | a in s.objs ensures s.objs[a].status != InProgress {
      assert Is(s.objs, a, InProgress) ==> a in s.visit;
    }
  }

  /** When a cycle is done, the next one may begin, with mutators where they are and the left-over addresses stacked. */
  lemma NextCycleMayBegin(s0: State, steps: seq<Step>, s: State)
    requires Start(s0) && Clean(s0) && Run(s0, steps, s) && s.gc.Done?
    ensures Begin(Renewed(s))
  {
    hide Start, Clean, Run, Inv, Orderly, Ready;
    RunHasInv(s0, steps, s);
    DoneIsOrderly(Shot(s0), s);
    OrderlyIsReady(InUse(Shot(s0), s), Renewed(s));
  }

  ghost predicate AllWhite(s: State) {
    forall a :: a in s.objs ==> Is(s.objs, a, Unvisited)
  }

  ghost predicate NoneWriting(s: State) {
    forall t :: t in s.muts ==> s.muts[t].wlocks == {} && s.muts[t].phase.Idle?
  }

  /** Mutators know only what the roots lead to. */
  ghost predicate KnownIsRooted(s: State) {
    forall t, a :: t in s.muts && a in s.muts[t].locals ==> a in Reach(RefGraph(s.objs), s.roots.Values)
  }

  ghost predicate Quiescent(s: State) {
    AllWhite(s) && NoneWriting(s) && KnownIsRooted(s)
  }

  lemma WhiteIsLed(s: State)
    requires Start(s) && Quiescent(s)
    ensures Reach(RefGraph(s.objs), s.roots.Values) <= Led(s)
  {
    hide Reach, Handles, Live;
    LedIsLive(s);
    var g, c := RefGraph(s.objs), Led(s);
    forall x, b | x in c && x in g && b in g[x] && b in g ensures b in c {
      assert Traced(s.objs, WriteHeld(s.muts), s.muts, x);
      assert LeadsTo(s.objs, WriteHeld(s.muts), s.muts, x, b);
      assert b in LeadGraph(s)[x];
    }
    forall a | a in s.roots.Values ensures a in c {
      var id :| id in s.roots && s.roots[id] == a;
      assert a in Elems(s.inProgress);
    }
    ReachIsLeast(g, s.roots.Values, c);
  }

  /** Such a start is clean. */
  lemma QuiescentStartIsClean(s: State)
    requires Start(s) && Quiescent(s)
    ensures Clean(s)
  {
    hide Led, InVisit, Start;
    WhiteIsLed(s);
    var g, c := RefGraph(s.objs), Reach(RefGraph(s.objs), s.roots.Values);
    ReachIsClosed(g, s.roots.Values);
    KnowsLocks(s);
    forall a | a in Handles(s) && a in g ensures a in c {
      if a !in s.roots.Values {
        var t :| t in s.muts && a in MutHandles(s.muts[t]);
        assert HasHandle(s.muts[t], a) && a in s.muts[t].locals;
      }
    }
    ReachIsLeast(g, Handles(s), c);
  }

  lemma KnowsLocks(s: State)
    requires Start(s)
    ensures forall t :: t in s.muts ==> KnowsItsLocks(s.muts[t])
  {
  }
}
