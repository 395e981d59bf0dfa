/** Whole cycles, and one after the other. */
module CollectorCycles {
  import opened Common
  import opened Graph
  import opened ConcurrentCollector
  import opened CollectorOrder
  import opened CollectorSnapshot
  import opened CollectorInvariant
  import opened CollectorSafety
  import opened CollectorAlone
  import opened CollectorWind
  import opened CollectorEarly

  // ---------------------------------------------------------------------------- safety over many cycles

  lemma {:induction false} EarlyRunKeepsInv(b: State, e: Early, xs: seq<EarlyStep>, e': Early)
    requires EarlyInv(b, e) && EarlyRun(e, xs, e')
    ensures e'.pre.RootsPushed? || EarlyInv(b, e')
    decreases |xs|
  {
    hide EarlyInv, Prepared, EarlyDo, EarlyEnabled;
    if xs != [] {
      EarlyStepKeepsInv(b, e, xs[0]);
      if EarlyDo(e, xs[0]).pre.RootsPushed? {
        NothingAfterPush(EarlyDo(e, xs[0]), xs[1..], e');
      } else {
        EarlyRunKeepsInv(b, EarlyDo(e, xs[0]), xs[1..], e');
      }
    }
  }

  lemma EarlyIsOrderly(b: State, e: Early)
    requires EarlyInv(b, e)
    ensures Orderly(Live(b) + e.s.born, e.s)
  {
  }

  /** Nothing dangles while the objects are painted and the roots are pushed. */
  lemma PreludeIsSafe(b: State, xs: seq<EarlyStep>, e: Early)
    requires Begin(b) && EarlyRun(Beginning(b), xs, e)
    ensures NoDangling(e.s)
  {
    hide EarlyInv, Begin, Beginning, NoDangling, Orderly, Live;
    EarlyAtBeginning(b);
    EarlyRunKeepsInv(b, Beginning(b), xs, e);
    if e.pre.RootsPushed? {
      PreludeEstablishesStart(b, xs, e);
      ReadyIsOrderly(e.s);
      OrderIsSafe(Live(e.s), e.s);
    } else {
      EarlyIsOrderly(b, e);
      OrderIsSafe(Live(b) + e.s.born, e.s);
    }
  }

  /** A prelude that ends in the state pushed, and a run from there that ends with the cycle done. */
  datatype Cycle = Cycle(xs: seq<EarlyStep>, pushed: State, steps: seq<Step>, done: State)

  /** The cycle c begins in b, is clean when the roots have been pushed, and is finished. */
  ghost predicate CycleFrom(b: State, c: Cycle) {
    && EarlyRun(Beginning(b), c.xs, Early(RootsPushed, c.pushed)) && Clean(c.pushed)
    && Run(c.pushed, c.steps, c.done) && c.done.gc.Done?
  }

  /** Clean cycles one after the other, mutators running all the while, lead from b to b'. */
  ghost predicate Cycles(b: State, cs: seq<Cycle>, b': State)
    decreases |cs|
  {
    if cs == [] then b' == b else CycleFrom(b, cs[0]) && Cycles(Renewed(cs[0].done), cs[1..], b')
  }

  lemma CycleLeadsOn(b: State, c: Cycle)
    requires Begin(b) && CycleFrom(b, c)
    ensures Begin(Renewed(c.done))
  {
    hide Begin, Clean, Run, EarlyRun, Start;
    PreludeEstablishesStart(b, c.xs, Early(RootsPushed, c.pushed));
    NextCycleMayBegin(c.pushed, c.steps, c.done);
  }

  lemma {:induction false} CyclesLeadOn(b: State, cs: seq<Cycle>, b': State)
    requires Begin(b) && Cycles(b, cs, b')
    ensures Begin(b')
    decreases |cs|
  {
    hide Begin, CycleFrom;
    if cs != [] {
      CycleLeadsOn(b, cs[0]);
      CyclesLeadOn(Renewed(cs[0].done), cs[1..], b');
    }
  }

  /**
   After any number of clean cycles, nothing dangles in the next one: not in its prelude, nor, when it is clean, in the
   rest.
   */
  lemma AllCyclesAreSafe(b: State, cs: seq<Cycle>, b': State, xs: seq<EarlyStep>, e: Early)
    requires Begin(b) && Cycles(b, cs, b') && EarlyRun(Beginning(b'), xs, e)
    ensures NoDangling(e.s)
    ensures e.pre.RootsPushed? && Clean(e.s) ==> forall steps, s :: Run(e.s, steps, s) ==> NoDangling(s)
  {
    hide Begin, Cycles, EarlyRun, Beginning, NoDangling, Clean, Run, Start;
    CyclesLeadOn(b, cs, b');
    PreludeIsSafe(b', xs, e);
    if e.pre.RootsPushed? && Clean(e.s) {
      PreludeEstablishesStart(b', xs, e);
      forall steps, s | Run(e.s, steps, s) ensures NoDangling(s) {
        CollectionIsSafe(e.s, steps, s);
      }
    }
  }

  /** And each of them has freed what was garbage when it began. */
  lemma {:induction false} AllCyclesFreeGarbage(b: State, cs: seq<Cycle>, b': State, i: nat, bi: State)
    requires Begin(b) && Cycles(b, cs, b') && i < |cs|
    requires bi == if i == 0 then b else Renewed(cs[i - 1].done)
    ensures forall a :: a in bi.objs && a !in Live(bi) ==> a in cs[i].done.freed
    decreases |cs|
  {
    hide Begin, EarlyRun, Beginning, Clean, Run, Live;
    CycleLeadsOn(b, cs[0]);
    if i == 0 {
      var c := cs[0];
      CycleFreesOldGarbage(b, c.xs, Early(RootsPushed, c.pushed), c.steps, c.done);
    } else {
      AllCyclesFreeGarbage(Renewed(cs[0].done), cs[1..], b', i - 1, bi);
    }
  }

  // ---------------------------------------------------------------------------- a cycle can be completed

  lemma {:induction false} EarlyThen(e: Early, p: seq<EarlyStep>, m: Early, q: seq<EarlyStep>, e': Early)
    requires EarlyRun(e, p, m) && EarlyRun(m, q, e')
    ensures EarlyRun(e, p + q, e')
    decreases |p|
  {
    hide EarlyDo, EarlyEnabled;
    if p == [] {
      assert p + q == q;
    } else {
      EarlyThen(EarlyDo(e, p[0]), p[1..], m, q, e');
      assert (p + q)[1..] == p[1..] + q;
    }
  }

  lemma EarlyOne(e: Early, x: EarlyStep)
    requires EarlyEnabled(e, x)
    ensures EarlyRun(e, [x], EarlyDo(e, x))
  {
    hide EarlyDo, EarlyEnabled;
    assert EarlyRun(EarlyDo(e, x), [], EarlyDo(e, x)) && [x][1..] == [];
  }

  function Moves(steps: seq<Step>): (r: seq<EarlyStep>)
    ensures |r| == |steps|
  {
    if steps == [] then [] else [Move(steps[0])] + Moves(steps[1..])
  }

  /** While the objects are painted, mutators may wind down. */
  lemma {:induction false} WindingIsEarly(pre: Prelude, c: set<Vaddr>, s: State, steps: seq<Step>, s': State)
    requires WindRun(c, s, steps, s') && pre.Painting?
    ensures EarlyRun(Early(pre, s), Moves(steps), Early(pre, s'))
    decreases |steps|
  {
    hide MutEnabled, MutDo;
    if steps != [] {
      WindActs(c, s, steps[0]);
      var e := Early(pre, s);
      WindingIsEarly(pre, c, Do(s, steps[0]), steps[1..], s');
      WindIsMove(pre, c, s, steps[0]);
      assert Moves(steps)[1..] == Moves(steps[1..]) && Moves(steps)[0] == Move(steps[0]);
    }
  }

  lemma WindIsMove(pre: Prelude, c: set<Vaddr>, s: State, step: Step)
    requires Enabled(s, step) && Winds(c, s, step) && pre.Painting?
    ensures EarlyEnabled(Early(pre, s), Move(step)) && EarlyDo(Early(pre, s), Move(step)) == Early(pre, Do(s, step))
  {
    hide MutEnabled, MutDo, LockIn;
    WindActs(c, s, step);
  }

  /** What the collector's own steps of the prelude leave alone. */
  ghost predicate OnlyPainted(s: State, s': State) {
    && s'.muts == s.muts && s'.roots == s.roots && s'.inProgress == s.inProgress && s'.writer == s.writer
    && RefGraph(s'.objs) == RefGraph(s.objs)
  }

  ghost predicate SeenIsWhite(e: Early) {
    e.pre.Painting? && e.pre.todo == e.s.objs.Keys && forall a :: a in e.pre.seen ==> Is(e.s.objs, a, Unvisited)
  }

  lemma PaintsNext(b: State, e: Early, a: Vaddr)
    requires EarlyInv(b, e) && SeenIsWhite(e) && a in e.pre.todo && a !in e.pre.seen
    requires e.s.writer == map[] && AllIdle(e.s.muts)
    ensures EarlyEnabled(e, PaintOne(a))
    ensures var e' := EarlyDo(e, PaintOne(a));
            && SeenIsWhite(e') && OnlyPainted(e.s, e'.s) && e'.pre.todo - e'.pre.seen < e.pre.todo - e.pre.seen
  {
    hide EarlyInv;
    var e' := EarlyDo(e, PaintOne(a));
    assert a in e.pre.todo - e.pre.seen && a !in e'.pre.todo - e'.pre.seen;
    assert RefGraph(e'.s.objs) == RefGraph(e.s.objs);
  }

  lemma PaintedThen(s: State, m: State, s': State)
    requires OnlyPainted(s, m) && OnlyPainted(m, s')
    ensures OnlyPainted(s, s')
  {
  }

  /** With nobody in its way, the pass paints every object. */
  lemma {:induction false} PaintsAll(b: State, e: Early) returns (xs: seq<EarlyStep>, e': Early)
    requires EarlyInv(b, e) && SeenIsWhite(e) && e.s.writer == map[] && AllIdle(e.s.muts)
    ensures EarlyRun(e, xs, e') && EarlyInv(b, e') && SeenIsWhite(e') && e'.pre.todo <= e'.pre.seen
    ensures OnlyPainted(e.s, e'.s)
    decreases e.pre.todo - e.pre.seen
  {
    hide EarlyInv, EarlyDo, EarlyEnabled, AllIdle, RefGraph;
    if e.pre.todo <= e.pre.seen {
      return [], e;
    }
    var a := Unscanned(e.pre.todo, e.pre.seen);
    PaintsNext(b, e, a);
    EarlyStepKeepsInv(b, e, PaintOne(a));
    var rest;
    rest, e' := PaintsAll(b, EarlyDo(e, PaintOne(a)));
    EarlyOne(e, PaintOne(a));
    EarlyThen(e, [PaintOne(a)], EarlyDo(e, PaintOne(a)), rest, e');
    xs := [PaintOne(a)] + rest;
    PaintedThen(e.s, EarlyDo(e, PaintOne(a)).s, e'.s);
  }

  lemma {:induction false} ListOf(vs: set<Vaddr>) returns (q: seq<Vaddr>)
    ensures Elems(q) == vs
    decreases vs
  {
    q := [];
    if vs != {} {
      var v := SomeOf(vs);
      q := ListOf(vs - {v});
      assert Elems(q + [v]) == Elems(q) + {v} == vs;
      q := q + [v];
    }
  }

  /** It comes to the push of the roots. */
  lemma PushesAll(b: State, e: Early) returns (xs: seq<EarlyStep>, s: State)
    requires EarlyInv(b, e) && SeenIsWhite(e) && e.pre.todo <= e.pre.seen
    ensures EarlyRun(e, xs, Early(RootsPushed, s))
    ensures s.muts == e.s.muts && s.roots == e.s.roots && s.objs == e.s.objs
    ensures Elems(s.inProgress) == Elems(e.s.inProgress) + e.s.roots.Values
  {
    hide EarlyInv;
    var roots := ListOf(e.s.roots.Values);
    var e1 := EarlyDo(e, LockRoots);
    var e2 := EarlyDo(e1, RaiseFlag);
    var e3 := EarlyDo(e2, PushRoots(roots));
    EarlyOne(e, LockRoots);
    EarlyOne(e1, RaiseFlag);
    EarlyOne(e2, PushRoots(roots));
    EarlyThen(e, [LockRoots], e1, [RaiseFlag], e2);
    EarlyThen(e, [LockRoots] + [RaiseFlag], e2, [PushRoots(roots)], e3);
    xs, s := [LockRoots] + [RaiseFlag] + [PushRoots(roots)], e3.s;
    assert Elems(s.inProgress) == Elems(e.s.inProgress) + Elems(roots);
  }

  lemma NobodyHolds(b: State, e: Early)
    requires EarlyInv(b, e) && AllIdle(e.s.muts)
    ensures e.s.writer == map[]
  {
    hide HeapAlive, RootsIn, MutsIn, OldGarbage;
    assert forall x :: x !in e.s.writer;
  }

  /** Where no mutator has a lock, the collector completes the prelude by itself, and all objects are white. */
  lemma PreludeCompletes(b: State, e: Early) returns (xs: seq<EarlyStep>, s: State)
    requires EarlyInv(b, e) && SeenIsWhite(e) && AllIdle(e.s.muts)
    ensures EarlyRun(e, xs, Early(RootsPushed, s)) && AllWhite(s)
    ensures s.muts == e.s.muts && s.roots == e.s.roots && RefGraph(s.objs) == RefGraph(e.s.objs)
    ensures Elems(s.inProgress) == Elems(e.s.inProgress) + e.s.roots.Values
  {
    hide EarlyInv, EarlyDo, EarlyEnabled, EarlyRun, AllIdle, RefGraph;
    NobodyHolds(b, e);
    var p, m := PaintsAll(b, e);
    var q;
    q, s := PushesAll(b, m);
    EarlyThen(e, p, m, q, Early(RootsPushed, s));
    xs := p + q;
  }

  /** Left alone after it has pushed the roots, the collector finishes, clean or not. */
  lemma CollectorCompletes(s0: State) returns (steps: seq<Step>, s: State)
    requires Start(s0) && AllIdle(s0.muts)
    ensures GcOnly(steps) && Run(s0, steps, s) && s.gc.Done?
  {
    hide Ready, AloneIn, Sweepable, OnlySweeps, OnlyPaints, Orderly, Enabled, Do, Run, Live, AllIdle;
    ReadyIsOrderly(s0);
    StartIsAlone(s0);
    var u := Live(s0);
    var p, m := MarkingEnds(u, u, s0);
    ClearsFlag(u, m);
    var q;
    q, s := SweepEnds(Do(m, GcMove));
    RunLast(s0, p, m, GcMove);
    RunThen(s0, p + [GcMove], Do(m, GcMove), q, s);
    steps := p + [GcMove] + q;
  }

  lemma StartIsAlone(s: State)
    requires Ready(s) && AllIdle(s.muts)
    ensures AloneIn(Live(s), s)
  {
    hide Live, Ready;
    ReadyIsOrderly(s);
    NobodyWrites(Live(s), s);
    OuterIsQuiet(s);
    forall x | x in Live(s) ensures RefsIn(s.objs, x, Live(s)) {
    }
  }

  lemma OuterIsQuiet(s: State)
    requires Ready(s)
    ensures s.gc == Outer(true) && s.visit == []
  {
  }

  /** Whatever state a cycle begins in, mutators can give back their locks, and the collector then completes it alone. */
  lemma EveryCycleCanBeCompleted(b: State) returns (xs: seq<EarlyStep>, s0: State, steps: seq<Step>, s: State)
    requires Begin(b)
    ensures EarlyRun(Beginning(b), xs, Early(RootsPushed, s0)) && Start(s0) && AllIdle(s0.muts)
    ensures GcOnly(steps) && Run(s0, steps, s) && s.gc.Done?
  {
    hide Begin, Ready, Live, EarlyInv, Orderly, WindRun, EarlyRun, AllIdle, Run, LockIn;
    var u := Live(b);
    BeginIsOrderly(b);
    LocksInHeap(u, b);
    EarlyAtBeginning(b);
    var w, m := WindAll(u, b.objs.Keys, b, b.muts.Keys);
    WoundIsIdle(b, m);
    var e := Early(Painting(b.objs.Keys, {}), m);
    WindingIsEarly(e.pre, b.objs.Keys, b, w, m);
    EarlyRunKeepsInv(b, Beginning(b), Moves(w), e);
    var p;
    p, s0 := PreludeCompletes(b, e);
    EarlyThen(Beginning(b), Moves(w), e, p, Early(RootsPushed, s0));
    xs := Moves(w) + p;
    PreludeEstablishesStart(b, xs, Early(RootsPushed, s0));
    steps, s := CollectorCompletes(s0);
  }

  lemma BeginIsOrderly(b: State)
    requires Begin(b)
    ensures Orderly(Live(b), b)
  {
    hide Ready, Live, Orderly;
    ReadyIsOrderly(b);
  }

  lemma WoundIsIdle(s: State, s': State)
    requires WoundDown(s, s', s.muts.Keys)
    ensures AllIdle(s'.muts) && s'.objs.Keys == s.objs.Keys
  {
  }

  /**
   A cycle that begins with no lock held, with mutators knowing only what the roots lead to, and with nothing else left
   over on the stack: the collector can complete it by itself, and has then freed exactly what nobody can use.
   */
  lemma QuietCycleIsExact(b: State) returns (c: Cycle)
    requires Begin(b) && AllIdle(b.muts) && KnownIsRooted(b) && Elems(b.inProgress) <= Handles(b)
    ensures CycleFrom(b, c) && GcOnly(c.steps)
    ensures forall a :: a in c.done.freed <==> a in b.objs && a !in Accessible(b)
  {
    hide Begin, Ready, Live, EarlyInv, EarlyRun, Run, RefGraph, Handles, Start, Led, Clean, Reach;
    var e := Beginning(b);
    EarlyAtBeginning(b);
    var xs, s0 := PreludeCompletes(b, e);
    PreludeEstablishesStart(b, xs, Early(RootsPushed, s0));
    QuietIsQuiescent(b, s0);
    QuiescentStartIsClean(s0);
    var steps, s := CollectorCompletes(s0);
    c := Cycle(xs, s0, steps, s);
    CollectionIsPrecise(s0, steps, s);
    QuietIsSame(b, s0);
  }

  lemma QuietIsQuiescent(b: State, s: State)
    requires AllIdle(b.muts) && KnownIsRooted(b) && AllWhite(s)
    requires s.muts == b.muts && s.roots == b.roots && RefGraph(s.objs) == RefGraph(b.objs)
    ensures Quiescent(s)
  {
    hide Reach, RefGraph;
  }

  lemma QuietIsSame(b: State, s: State)
    requires s.muts == b.muts && s.roots == b.roots && RefGraph(s.objs) == RefGraph(b.objs) && AllWhite(s)
    requires Elems(b.inProgress) <= Handles(b) && Elems(s.inProgress) == Elems(b.inProgress) + b.roots.Values
    ensures Accessible(s) == Accessible(b) && Elems(s.inProgress) <= Handles(s)
    ensures forall a :: Is(s.objs, a, Unvisited) <==> a in b.objs
  {
    hide Reach;
    assert RefGraph(s.objs).Keys == s.objs.Keys && RefGraph(b.objs).Keys == b.objs.Keys;
  }
}
