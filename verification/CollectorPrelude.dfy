/** What the half of a cycle before the roots are pushed leaves, read off the steps it was made of. */
module CollectorPrelude {
  import opened Common
  import opened Graph
  import opened ConcurrentCollector
  import opened CollectorOrder
  import opened CollectorEarly
  import opened CollectorHistory
  import opened CollectorStacks

  /** The steps of the mutators. */
  function Moves(xs: seq<EarlyStep>): seq<Step> {
    if xs == [] then []
    else (if xs[0].Move? then [xs[0].step] else []) + Moves(xs[1..])
  }

  lemma EarlyRunStep(e: Early, xs: seq<EarlyStep>, e': Early)
    requires EarlyRun(e, xs, e') && xs != []
    ensures EarlyEnabled(e, xs[0]) && EarlyRun(EarlyDo(e, xs[0]), xs[1..], e')
  {
  }

  lemma EarlyRunEnds(e: Early, e': Early)
    requires EarlyRun(e, [], e')
    ensures e' == e
  {
  }

  lemma LastOfMore(x: Step, rest: seq<Step>, p: Step -> bool)
    ensures Last([x] + rest, p) == if Last(rest, p).Some? then Last(rest, p) else if p(x) then Some(x) else None
  {
    hide Last;
    LastStep([x] + rest, p);
    assert ([x] + rest)[1..] == rest;
  }

  lemma MovesAre(xs: seq<EarlyStep>)
    ensures xs == [] ==> Moves(xs) == []
    ensures xs != [] ==> Moves(xs) == if xs[0].Move? then [xs[0].step] + Moves(xs[1..]) else Moves(xs[1..])
  {
  }

  lemma MovesStep(xs: seq<EarlyStep>, p: Step -> bool)
    ensures xs == [] ==> Moves(xs) == []
    ensures xs != [] ==> Last(Moves(xs), p) == if Last(Moves(xs[1..]), p).Some? then Last(Moves(xs[1..]), p)
                                               else if xs[0].Move? && p(xs[0].step) then Some(xs[0].step) else None
  {
    hide Moves, Last;
    MovesAre(xs);
    if xs != [] && xs[0].Move? {
      LastOfMore(xs[0].step, Moves(xs[1..]), p);
    }
  }

  lemma EarlyRootStep(e: Early, x: EarlyStep, id: nat)
    requires EarlyEnabled(e, x)
    ensures RootAt(EarlyDo(e, x).s, id)
            == RootBy(if x.Move? && OnRoot(id)(x.step) then Some(x.step) else None, RootAt(e.s, id))
  {
    hide MutEnabled, MutDo, Painted, RootAt, OnRoot, RootBy;
    RootUntouched(RootAt(e.s, id));
    if x.Move? {
      RootStep(e.s, x.step, id);
    } else {
      RootsAlone(e, x, id);
    }
  }

  lemma RootUntouched(was: Option<Vaddr>)
    ensures RootBy(None, was) == was
  {
  }

  lemma RootsAlone(e: Early, x: EarlyStep, id: nat)
    requires EarlyEnabled(e, x) && !x.Move?
    ensures RootAt(EarlyDo(e, x).s, id) == RootAt(e.s, id)
  {
  }

  /** The roots that are pushed are those that mutators have left. */
  lemma {:induction false} PreludeKeepsRoots(e: Early, xs: seq<EarlyStep>, e': Early, id: nat)
    requires EarlyRun(e, xs, e')
    ensures RootAt(e'.s, id) == RootBy(Last(Moves(xs), OnRoot(id)), RootAt(e.s, id))
    decreases |xs|
  {
    hide EarlyRun, EarlyDo, EarlyEnabled, RootAt, OnRoot, Last, Moves;
    MovesStep(xs, OnRoot(id));
    if xs == [] {
      EarlyRunEnds(e, e');
      LastOfNone(OnRoot(id));
    } else {
      EarlyRunStep(e, xs, e');
      EarlyRootStep(e, xs[0], id);
      PreludeKeepsRoots(EarlyDo(e, xs[0]), xs[1..], e', id);
    }
  }

  lemma RootsStandStep(e: Early, x: EarlyStep)
    requires EarlyEnabled(e, x) && !e.pre.Painting?
    ensures EarlyDo(e, x).s.roots == e.s.roots && !EarlyDo(e, x).pre.Painting?
  {
    hide Unlocked, NonNull, Painted;
  }

  /** Once the root set is locked no root changes until all have been pushed. */
  lemma {:induction false} LockedRootsStand(e: Early, xs: seq<EarlyStep>, e': Early)
    requires EarlyRun(e, xs, e') && !e.pre.Painting?
    ensures e'.s.roots == e.s.roots
    decreases |xs|
  {
    hide EarlyRun, EarlyDo, EarlyEnabled;
    if xs == [] {
      EarlyRunEnds(e, e');
    } else {
      EarlyRunStep(e, xs, e');
      RootsStandStep(e, xs[0]);
      LockedRootsStand(EarlyDo(e, xs[0]), xs[1..], e');
    }
  }

  // ---------------------------------------------------------------------------- objects

  lemma EarlyObjectStep(e: Early, x: EarlyStep, a: Vaddr, i: nat)
    requires EarlyEnabled(e, x)
    ensures a in e.s.objs ==> a in EarlyDo(e, x).s.objs && EarlyDo(e, x).s.objs[a].data == e.s.objs[a].data
    ensures RefAt(EarlyDo(e, x).s, a, i)
            == RefBy(if x.Move? && OnRef(a, i)(x.step) then Some(x.step) else None, i, RefAt(e.s, a, i))
  {
    hide Unlocked, NonNull;
  }

  /** No object goes or changes its data, and each reference is what was last stored there: painting moves none. */
  lemma {:induction false} PreludeKeepsRefs(e: Early, xs: seq<EarlyStep>, e': Early, a: Vaddr, i: nat)
    requires EarlyRun(e, xs, e')
    ensures a in e.s.objs ==> a in e'.s.objs && e'.s.objs[a].data == e.s.objs[a].data
    ensures RefAt(e'.s, a, i) == RefBy(Last(Moves(xs), OnRef(a, i)), i, RefAt(e.s, a, i))
    decreases |xs|
  {
    hide EarlyRun, EarlyDo, EarlyEnabled, RefAt, OnRef, Last, Moves, RefBy;
    MovesStep(xs, OnRef(a, i));
    if xs == [] {
      EarlyRunEnds(e, e');
      LastOfNone(OnRef(a, i));
      RefUntouched(None, i, RefAt(e.s, a, i), RefAt(e.s, a, i));
    } else {
      EarlyRunStep(e, xs, e');
      EarlyObjectStep(e, xs[0], a, i);
      var n := EarlyDo(e, xs[0]);
      PreludeKeepsRefs(n, xs[1..], e', a, i);
      RefUntouched(Last(Moves(xs[1..]), OnRef(a, i)), i, RefAt(n.s, a, i), RefAt(e.s, a, i));
    }
  }

  ghost predicate NoVisitEnds(xs: seq<EarlyStep>) {
    forall k :: 0 <= k < |xs| ==> !(xs[k].Move? && xs[k].step.SetVisited?)
  }

  /** The objects of u that the pass has come to are white. */
  ghost predicate SeenAreWhite(u: set<Vaddr>, e: Early) {
    && u <= e.s.objs.Keys
    && (e.pre.Painting? ==> u <= e.pre.todo && forall a :: a in u && a in e.pre.seen ==> Is(e.s.objs, a, Unvisited))
    && (!e.pre.Painting? ==> forall a :: a in u ==> Is(e.s.objs, a, Unvisited))
  }

  lemma EarlyPaintStep(u: set<Vaddr>, e: Early, x: EarlyStep)
    requires EarlyEnabled(e, x) && SeenAreWhite(u, e) && !(x.Move? && x.step.SetVisited?)
    ensures SeenAreWhite(u, EarlyDo(e, x))
  {
    hide Unlocked, NonNull;
  }

  lemma {:induction false} PaintedSoFar(u: set<Vaddr>, e: Early, xs: seq<EarlyStep>, e': Early)
    requires EarlyRun(e, xs, e') && SeenAreWhite(u, e) && NoVisitEnds(xs)
    ensures SeenAreWhite(u, e')
    decreases |xs|
  {
    hide EarlyRun, EarlyDo, EarlyEnabled, SeenAreWhite;
    if xs == [] {
      EarlyRunEnds(e, e');
    } else {
      EarlyRunStep(e, xs, e');
      EarlyPaintStep(u, e, xs[0]);
      PaintedSoFar(u, EarlyDo(e, xs[0]), xs[1..], e');
    }
  }

  /** Every object that was there when the pass began is white when it is over, but for those that mutators blacken. */
  lemma PreludePaintsAll(b: State, xs: seq<EarlyStep>, e: Early)
    requires EarlyRun(Beginning(b), xs, e) && NoVisitEnds(xs) && !e.pre.Painting?
    ensures forall a :: a in b.objs ==> Is(e.s.objs, a, Unvisited)
  {
    hide EarlyRun;
    PaintedSoFar(b.objs.Keys, Beginning(b), xs, e);
  }

  // ---------------------------------------------------------------------------- the stack

  function PushAll(q: seq<Vaddr>): seq<Op> {
    if q == [] then [] else [Push(q[0])] + PushAll(q[1..])
  }

  lemma {:induction false} StackedAll(q: seq<Vaddr>, r: seq<Vaddr>)
    ensures Stacked(q, PushAll(r), q + r)
    decreases |r|
  {
    hide Stacked;
    if r == [] {
      StackedNothing(q);
      assert q + r == q;
    } else {
      StackedAll(q + [r[0]], r[1..]);
      assert q + [r[0]] + r[1..] == q + r;
      StackedPush(q, r[0], PushAll(r[1..]), q + r);
    }
  }

  /** Before the roots are pushed only barriers push. */
  ghost function EarlyOps(e: Early, x: EarlyStep): seq<Op>
    requires EarlyEnabled(e, x)
  {
    match x
    case PushRoots(roots) => PushAll(roots)
    case Move(step) => ProgressOps(e.s, step)
    case _ => []
  }

  ghost function AllEarlyOps(e: Early, xs: seq<EarlyStep>): seq<Op>
    decreases |xs|
  {
    if xs == [] || !EarlyEnabled(e, xs[0]) then []
    else EarlyOps(e, xs[0]) + AllEarlyOps(EarlyDo(e, xs[0]), xs[1..])
  }

  lemma EarlyOpsStep(e: Early, xs: seq<EarlyStep>)
    ensures xs == [] ==> AllEarlyOps(e, xs) == []
    ensures xs != [] && EarlyEnabled(e, xs[0]) ==>
              AllEarlyOps(e, xs) == EarlyOps(e, xs[0]) + AllEarlyOps(EarlyDo(e, xs[0]), xs[1..])
  {
    hide EarlyEnabled, EarlyDo, EarlyOps;
  }

  lemma EarlyStacks(e: Early, x: EarlyStep)
    requires EarlyEnabled(e, x)
    ensures Stacked(e.s.inProgress, EarlyOps(e, x), EarlyDo(e, x).s.inProgress)
  {
    hide MutEnabled, MutDo, ProgressOps, Stacked, PushAll, Painted, Unlocked;
    StackedNothing(e.s.inProgress);
    match x
    case Move(step) =>
      ProgressStacks(e.s, step);
    case PushRoots(roots) =>
      StackedAll(e.s.inProgress, roots);
    case _ =>
  }

  /** What was left over on the stack stays, below what barriers push, and the roots come on top. */
  lemma {:induction false} PreludeStacks(e: Early, xs: seq<EarlyStep>, e': Early)
    requires EarlyRun(e, xs, e')
    ensures Stacked(e.s.inProgress, AllEarlyOps(e, xs), e'.s.inProgress)
    decreases |xs|
  {
    hide EarlyRun, EarlyDo, EarlyEnabled, EarlyOps, AllEarlyOps, Stacked;
    EarlyOpsStep(e, xs);
    if xs == [] {
      EarlyRunEnds(e, e');
      StackedNothing(e.s.inProgress);
    } else {
      EarlyRunStep(e, xs, e');
      var n := EarlyDo(e, xs[0]);
      EarlyStacks(e, xs[0]);
      PreludeStacks(n, xs[1..], e');
      StackedThen(e.s.inProgress, EarlyOps(e, xs[0]), n.s.inProgress, AllEarlyOps(n, xs[1..]), e'.s.inProgress);
    }
  }
}
