/** What every step keeps, whatever the colours: locks have their holders, and what mutators know exists. */
module CollectorOrder {
  import opened Common
  import opened Graph
  import opened ConcurrentCollector

  predicate GcHolds(gc: Pc, a: Vaddr) {
    (gc.MarkProgress? || gc.UnlockProgress? || gc.CheckVisit? || gc.FinishVisit? || gc.UnlockVisit?) && gc.a == a
  }

  /** The objects of u are closed under references, and none of them is gone. */
  ghost predicate HeapAlive(u: set<Vaddr>, objs: Heap) {
    && NULL_VADDR !in objs
    && u <= objs.Keys
    && (forall a, b :: a in u && b in objs[a].refs && b != NULL_VADDR ==> b in u)
  }

  ghost predicate RootsIn(u: set<Vaddr>, roots: map<nat, Vaddr>) {
    forall id :: id in roots ==> roots[id] in u
  }

  ghost predicate WriterIn(u: set<Vaddr>, gc: Pc, writer: map<Vaddr, Owner>, muts: map<nat, Mutator>) {
    && Owned(writer, muts)
    && (forall a :: a in writer && writer[a] == Gc ==> GcHolds(gc, a))
    && (forall a :: GcHolds(gc, a) ==> a in writer && writer[a] == Gc)
  }

  ghost predicate MutIn(u: set<Vaddr>, objs: Heap, writer: map<Vaddr, Owner>, t: nat, m: Mutator) {
    && (forall a :: a in m.locals ==> a in u)
    && KnowsItsLocks(m)
    && MutLocks(writer, t, m)
    && NotBlack(objs, m)
  }

  ghost predicate MutsIn(u: set<Vaddr>, objs: Heap, writer: map<Vaddr, Owner>, muts: map<nat, Mutator>) {
    forall t :: t in muts ==> MutIn(u, objs, writer, t, muts[t])
  }

  ghost predicate Orderly(u: set<Vaddr>, s: State) {
    && HeapAlive(u, s.objs)
    && RootsIn(u, s.roots)
    && WriterIn(u, s.gc, s.writer, s.muts)
    && MutsIn(u, s.objs, s.writer, s.muts)
  }

  /** What u becomes: a new object joins. */
  function Grown(u: set<Vaddr>, step: Step): set<Vaddr> {
    if step.Malloc? then u + {step.a} else u
  }

  // ---------------------------------------------------------------------------- what others notice of a step

  /** o takes and gives up locks that nobody else has, and blackens only what it has locked. */
  ghost predicate OwnerActs(objs: Heap, writer: map<Vaddr, Owner>, muts: map<nat, Mutator>,
                            objs': Heap, writer': map<Vaddr, Owner>, o: Owner) {
    && (forall a :: a in writer && writer[a] != o ==> a in writer' && writer'[a] == writer[a])
    && (forall a, t :: a in writer' && a !in writer && t in muts ==> a !in muts[t].rlocks)
    && (forall a :: Is(objs', a, Visited) ==> Is(objs, a, Visited) || (a in writer && writer[a] == o))
  }

  lemma OtherStays(u: set<Vaddr>, objs: Heap, writer: map<Vaddr, Owner>, muts: map<nat, Mutator>,
                   u': set<Vaddr>, objs': Heap, writer': map<Vaddr, Owner>, o: Owner, t: nat)
    requires u <= u' && OwnerActs(objs, writer, muts, objs', writer', o)
    requires t in muts && Mut(t) != o && MutIn(u, objs, writer, t, muts[t])
    requires forall a :: a in writer' && a in writer && writer[a] == o ==> writer'[a] == o
    ensures MutIn(u', objs', writer', t, muts[t])
  {
  }

  lemma GcActs(u: set<Vaddr>, objs: Heap, writer: map<Vaddr, Owner>, muts: map<nat, Mutator>,
               objs': Heap, writer': map<Vaddr, Owner>)
    requires MutsIn(u, objs, writer, muts) && OwnerActs(objs, writer, muts, objs', writer', Gc)
    requires forall a :: a in writer' && a in writer && writer[a] == Gc ==> writer'[a] == Gc
    ensures MutsIn(u, objs', writer', muts)
  {
    hide MutIn, OwnerActs;
    forall t | t in muts ensures MutIn(u, objs', writer', t, muts[t]) {
      OtherStays(u, objs, writer, muts, u, objs', writer', Gc, t);
    }
  }

  lemma MutActs(u: set<Vaddr>, objs: Heap, writer: map<Vaddr, Owner>, muts: map<nat, Mutator>,
                u': set<Vaddr>, objs': Heap, writer': map<Vaddr, Owner>, t: nat, m: Mutator)
    requires MutsIn(u, objs, writer, muts) && u <= u'
    requires OwnerActs(objs, writer, muts, objs', writer', Mut(t))
    requires forall a :: a in writer' && a in writer && writer[a] == Mut(t) ==> writer'[a] == Mut(t)
    requires MutIn(u', objs', writer', t, m)
    ensures MutsIn(u', objs', writer', muts[t := m])
  {
    hide MutIn, OwnerActs;
    var muts' := muts[t := m];
    forall k | k in muts' ensures MutIn(u', objs', writer', k, muts'[k]) {
      if k != t {
        OtherStays(u, objs, writer, muts, u', objs', writer', Mut(t), k);
      }
    }
  }

  // ---------------------------------------------------------------------------- the collector

  lemma GcLocks(u: set<Vaddr>, s: State)
    requires Orderly(u, s) && (s.gc.LockProgress? || s.gc.LockVisit?) && GcEnabled(s)
    ensures Orderly(u, GcDo(s))
  {
    hide HeapAlive, RootsIn, MutsIn;
    GcActs(u, s.objs, s.writer, s.muts, s.objs, s.writer[s.gc.a := Gc]);
  }

  lemma GcUnlocks(u: set<Vaddr>, s: State)
    requires Orderly(u, s) && (s.gc.UnlockProgress? || s.gc.UnlockVisit?) && GcEnabled(s)
    ensures Orderly(u, GcDo(s))
  {
    hide HeapAlive, RootsIn, MutsIn;
    GcActs(u, s.objs, s.writer, s.muts, s.objs, s.writer - {s.gc.a});
  }

  lemma Repainted(u: set<Vaddr>, objs: Heap, a: Vaddr, st: Status)
    requires HeapAlive(u, objs) && a in objs
    ensures HeapAlive(u, objs[a := objs[a].(status := st)])
  {
  }

  lemma GcPaints(u: set<Vaddr>, s: State, a: Vaddr, st: Status)
    requires Orderly(u, s) && GcHolds(s.gc, a) && a in s.objs
    ensures var objs' := s.objs[a := s.objs[a].(status := st)];
            HeapAlive(u, objs') && MutsIn(u, objs', s.writer, s.muts)
  {
    hide HeapAlive, RootsIn, MutsIn;
    Repainted(u, s.objs, a, st);
    GcActs(u, s.objs, s.writer, s.muts, s.objs[a := s.objs[a].(status := st)], s.writer);
  }

  lemma Removed(u: set<Vaddr>, s: State, a: Vaddr)
    requires Orderly(u, s) && a !in u
    ensures HeapAlive(u, s.objs - {a}) && MutsIn(u, s.objs - {a}, s.writer, s.muts)
  {
    hide RootsIn, MutsIn;
    GcActs(u, s.objs, s.writer, s.muts, s.objs - {a}, s.writer);
  }

  /** The collector sweeps only what is not in u. */
  predicate Sweeps(gc: Pc, u: set<Vaddr>) {
    gc.Free? && gc.doomed != [] ==> gc.doomed[|gc.doomed|-1] !in u
  }

  predicate KeepsLocks(gc: Pc) {
    !gc.LockProgress? && !gc.LockVisit? && !gc.UnlockProgress? && !gc.UnlockVisit?
  }

  lemma GcHoldsOn(s: State)
    requires GcEnabled(s) && KeepsLocks(s.gc)
    ensures forall a :: GcHolds(GcDo(s).gc, a) <==> GcHolds(s.gc, a)
  {
    hide GcEnabled, Unlocked, NonNull;
    match s.gc
    case MarkProgress(_) =>
    case CheckVisit(_) =>
    case FinishVisit(_) =>
    case PopProgress(_) =>
    case PopVisit(_) =>
    case _ =>
  }

  lemma GcKeepsWriters(s: State)
    requires GcEnabled(s) && KeepsLocks(s.gc)
    ensures GcDo(s).writer == s.writer
  {
    hide GcEnabled, Unlocked, NonNull;
    var s' := GcDo(s);
  }

  lemma GcKeepsRoots(s: State)
    requires GcEnabled(s)
    ensures GcDo(s).roots == s.roots
  {
    hide GcEnabled, Unlocked, NonNull, Painted;
    match s.gc
    case MarkProgress(_) =>
    case CheckVisit(_) =>
    case PopProgress(_) =>
    case PopVisit(_) =>
    case Free(_) =>
    case _ =>
  }

  lemma GcKeepsMuts(s: State)
    requires GcEnabled(s)
    ensures GcDo(s).muts == s.muts
  {
    hide GcEnabled, Unlocked, NonNull;
    var s' := GcDo(s);
  }

  lemma GcKeepsMutators(s: State)
    requires GcEnabled(s)
    ensures GcDo(s).roots == s.roots && GcDo(s).muts == s.muts
  {
    hide GcEnabled, GcDo;
    GcKeepsRoots(s);
    GcKeepsMuts(s);
  }

  lemma GcBearsNothing(s: State)
    requires GcEnabled(s)
    ensures GcDo(s).born == s.born
  {
    hide GcEnabled, Unlocked, NonNull;
    var s' := GcDo(s);
  }

  lemma GcKeepsObjects(s: State)
    requires GcEnabled(s) && !s.gc.MarkProgress? && !s.gc.FinishVisit? && !s.gc.Free?
    ensures GcDo(s).objs == s.objs
  {
    hide GcEnabled, Unlocked, NonNull;
    var s' := GcDo(s);
  }

  lemma GcOrder(u: set<Vaddr>, s: State)
    requires Orderly(u, s) && GcEnabled(s) && Sweeps(s.gc, u)
    ensures Orderly(u, GcDo(s))
  {
    hide HeapAlive, RootsIn, MutsIn;
    if s.gc.LockProgress? || s.gc.LockVisit? {
      GcLocks(u, s);
    } else if s.gc.UnlockProgress? || s.gc.UnlockVisit? {
      GcUnlocks(u, s);
    } else {
      GcHoldsOn(s);
      GcKeepsWriters(s);
      GcKeepsMutators(s);
      GcHeapOrder(u, s);
    }
  }

  lemma GcHeapOrder(u: set<Vaddr>, s: State)
    requires Orderly(u, s) && GcEnabled(s) && Sweeps(s.gc, u)
    requires KeepsLocks(s.gc)
    ensures HeapAlive(u, GcDo(s).objs) && MutsIn(u, GcDo(s).objs, s.writer, s.muts)
  {
    hide HeapAlive, RootsIn, MutsIn, WriterIn;
    if s.gc.MarkProgress? {
      GcPaints(u, s, s.gc.a, InProgress);
    } else if s.gc.FinishVisit? {
      GcPaints(u, s, s.gc.a, Visited);
    } else if s.gc.Free? && s.gc.doomed != [] {
      Removed(u, s, s.gc.doomed[|s.gc.doomed|-1]);
    } else if !s.gc.Free? {
      GcKeepsObjects(s);
    }
  }

  // ---------------------------------------------------------------------------- the mutators

  lemma WriterAfter(u: set<Vaddr>, gc: Pc, writer: map<Vaddr, Owner>, muts: map<nat, Mutator>,
                    writer': map<Vaddr, Owner>, t: nat, m: Mutator)
    requires WriterIn(u, gc, writer, muts) && t in muts
    requires forall a :: a in writer && writer[a] == Gc ==> a in writer' && writer'[a] == Gc
    requires forall a :: a in writer' && writer'[a] != Mut(t) ==> a in writer && writer[a] == writer'[a]
    requires forall a :: a in writer' && writer'[a] == Mut(t) ==> HasLock(m, a)
    ensures WriterIn(u, gc, writer', muts[t := m])
  {
  }

  /** A mutator learns of, or forgets, an address that it has no lock on. */
  lemma MutLearns(u: set<Vaddr>, s: State, t: nat, m: Mutator)
    requires Orderly(u, s) && t in s.muts && m == s.muts[t].(locals := m.locals) && m.locals <= u
    requires forall a :: HasLock(m, a) ==> a in m.locals
    ensures Orderly(u, SetMut(s, t, m))
  {
    hide HeapAlive, RootsIn;
    MutActs(u, s.objs, s.writer, s.muts, u, s.objs, s.writer, t, m);
    WriterAfter(u, s.gc, s.writer, s.muts, s.writer, t, m);
  }

  lemma OwnLocks(u: set<Vaddr>, s: State, t: nat)
    requires Orderly(u, s) && t in s.muts
    ensures MutIn(u, s.objs, s.writer, t, s.muts[t])
    ensures forall a :: a in s.writer && s.writer[a] == Mut(t) ==> HasLock(s.muts[t], a)
    ensures forall a :: HasLock(s.muts[t], a) ==> a in u && a in s.objs
    ensures s.muts[t].locals <= u <= s.objs.Keys
  {
  }

  /** A mutator changes its locks, and the writers accordingly. */
  lemma MutRelocks(u: set<Vaddr>, s: State, t: nat, m: Mutator, writer': map<Vaddr, Owner>)
    requires Orderly(u, s) && t in s.muts && MutIn(u, s.objs, writer', t, m)
    requires forall a :: a in s.writer && s.writer[a] != Mut(t) ==> a in writer' && writer'[a] == s.writer[a]
    requires forall a :: a in writer' && writer'[a] != Mut(t) ==> a in s.writer && s.writer[a] == writer'[a]
    requires forall a :: a in writer' && writer'[a] == Mut(t) ==> HasLock(m, a)
    requires forall a, k :: a in writer' && a !in s.writer && k in s.muts ==> a !in s.muts[k].rlocks
    ensures Orderly(u, SetMut(s, t, m).(writer := writer'))
  {
    hide HeapAlive, RootsIn, MutsIn, MutIn, WriterIn;
    MutActs(u, s.objs, s.writer, s.muts, u, s.objs, writer', t, m);
    WriterAfter(u, s.gc, s.writer, s.muts, writer', t, m);
  }

  lemma LockReadOrder(u: set<Vaddr>, s: State, step: Step)
    requires Orderly(u, s) && step.LockRead? && MutEnabled(s, step)
    ensures Orderly(u, MutDo(s, step))
  {
    hide HeapAlive, RootsIn, MutsIn, WriterIn;
    var m := s.muts[step.t];
    OwnLocks(u, s, step.t);
    MutRelocks(u, s, step.t, m.(rlocks := m.rlocks + {step.a}), s.writer);
  }

  lemma UnlockReadOrder(u: set<Vaddr>, s: State, step: Step)
    requires Orderly(u, s) && step.UnlockRead? && MutEnabled(s, step)
    ensures Orderly(u, MutDo(s, step))
  {
    hide HeapAlive, RootsIn, MutsIn, WriterIn;
    var m := s.muts[step.t];
    OwnLocks(u, s, step.t);
    var m' := m.(rlocks := m.rlocks - {step.a});
    forall a | a in s.writer && s.writer[a] == Mut(step.t) ensures HasLock(m', a) {
      assert HasLock(m, a);
    }
    MutRelocks(u, s, step.t, m', s.writer);
  }

  lemma LockWriteOrder(u: set<Vaddr>, s: State, step: Step)
    requires Orderly(u, s) && step.LockWrite? && MutEnabled(s, step)
    ensures Orderly(u, MutDo(s, step))
  {
    hide HeapAlive, RootsIn, MutsIn, WriterIn;
    var m := s.muts[step.t];
    OwnLocks(u, s, step.t);
    MutRelocks(u, s, step.t, m.(phase := Locked(step.a)), s.writer[step.a := Mut(step.t)]);
  }

  lemma UnlockWriteOrder(u: set<Vaddr>, s: State, step: Step)
    requires Orderly(u, s) && step.UnlockWrite? && MutEnabled(s, step)
    ensures Orderly(u, MutDo(s, step))
  {
    hide HeapAlive, RootsIn, MutsIn, WriterIn;
    var m := s.muts[step.t];
    OwnLocks(u, s, step.t);
    MutRelocks(u, s, step.t, m.(wlocks := m.wlocks - {step.a}), s.writer - {step.a});
  }

  /** The steps inside cs_get_write that paint nothing. */
  lemma BarrierOrder(u: set<Vaddr>, s: State, step: Step)
    requires Orderly(u, s) && (step.ReadStatus? || step.ReadFlag? || step.PushRefs?) && MutEnabled(s, step)
    ensures Orderly(u, MutDo(s, step))
  {
    hide HeapAlive, RootsIn, MutsIn, WriterIn, NonNull;
    var m := s.muts[step.t];
    OwnLocks(u, s, step.t);
    var m' := MutDo(s, step).muts[step.t];
    assert m'.locals == m.locals && m'.rlocks == m.rlocks;
    assert forall a :: HasLock(m', a) <==> HasLock(m, a);
    MutRelocks(u, s, step.t, m', s.writer);
  }

  lemma VisitedOrder(u: set<Vaddr>, s: State, step: Step)
    requires Orderly(u, s) && step.SetVisited? && MutEnabled(s, step)
    ensures Orderly(u, MutDo(s, step))
  {
    hide HeapAlive, RootsIn, MutsIn;
    var m := s.muts[step.t];
    var a := m.phase.a;
    OwnLocks(u, s, step.t);
    var m' := m.(phase := Idle, wlocks := m.wlocks + {a});
    var objs' := s.objs[a := s.objs[a].(status := Visited)];
    Repainted(u, s.objs, a, Visited);
    assert forall x :: HasLock(m', x) <==> HasLock(m, x);
    MutActs(u, s.objs, s.writer, s.muts, u, objs', s.writer, step.t, m');
    WriterAfter(u, s.gc, s.writer, s.muts, s.writer, step.t, m');
  }

  lemma Stored(u: set<Vaddr>, objs: Heap, a: Vaddr, i: nat, b: Vaddr)
    requires HeapAlive(u, objs) && a in u && i < |objs[a].refs| && (b == NULL_VADDR || b in u)
    ensures HeapAlive(u, objs[a := objs[a].(refs := objs[a].refs[i := b])])
  {
  }

  lemma StoreOrder(u: set<Vaddr>, s: State, step: Step)
    requires Orderly(u, s) && step.Store? && MutEnabled(s, step)
    ensures Orderly(u, MutDo(s, step))
  {
    hide HeapAlive, RootsIn, MutsIn, WriterIn;
    OwnLocks(u, s, step.t);
    assert HasLock(s.muts[step.t], step.a);
    Stored(u, s.objs, step.a, step.i, step.b);
    var objs' := s.objs[step.a := s.objs[step.a].(refs := s.objs[step.a].refs[step.i := step.b])];
    MutActs(u, s.objs, s.writer, s.muts, u, objs', s.writer, step.t, s.muts[step.t]);
    assert s.muts[step.t := s.muts[step.t]] == s.muts;
  }

  lemma Born(u: set<Vaddr>, objs: Heap, a: Vaddr, x: Obj)
    requires HeapAlive(u, objs) && a !in objs && a != NULL_VADDR && forall b :: b in x.refs ==> b == NULL_VADDR
    ensures HeapAlive(u + {a}, objs[a := x])
  {
  }

  lemma NobodyReads(u: set<Vaddr>, s: State, a: Vaddr)
    requires Orderly(u, s) && a !in s.objs
    ensures forall t :: t in s.muts ==> !HasLock(s.muts[t], a)
    ensures a in s.writer ==> GcHolds(s.gc, a)
  {
    forall t | t in s.muts ensures !HasLock(s.muts[t], a) {
      OwnLocks(u, s, t);
    }
  }

  lemma MallocOrder(u: set<Vaddr>, s: State, step: Step)
    requires Orderly(u, s) && step.Malloc? && MutEnabled(s, step) && !GcHolds(s.gc, step.a)
    ensures Orderly(u + {step.a}, MutDo(s, step))
  {
    hide HeapAlive, MutsIn;
    var a, m := step.a, s.muts[step.t];
    var u', x := u + {a}, Obj(NewlyAdded, Nulls(step.n), step.data);
    OwnLocks(u, s, step.t);
    NobodyReads(u, s, a);
    Born(u, s.objs, a, x);
    var m' := m.(locals := m.locals + {a}, wlocks := m.wlocks + {a});
    MutActs(u, s.objs, s.writer, s.muts, u', s.objs[a := x], s.writer[a := Mut(step.t)], step.t, m');
    WriterAfter(u, s.gc, s.writer, s.muts, s.writer[a := Mut(step.t)], step.t, m');
  }

  lemma LearnOrder(u: set<Vaddr>, s: State, step: Step)
    requires Orderly(u, s) && (step.ReadRoot? || step.Forget? || step.Load?) && MutEnabled(s, step)
    ensures Orderly(u, MutDo(s, step))
  {
    hide MutsIn, WriterIn;
    var m := s.muts[step.t];
    OwnLocks(u, s, step.t);
    if step.Load? {
      var b := s.objs[step.a].refs[step.i];
      assert HasLock(m, step.a) && b in s.objs[step.a].refs;
      if b != NULL_VADDR {
        MutLearns(u, s, step.t, m.(locals := m.locals + {b}));
      }
    } else {
      MutLearns(u, s, step.t, MutDo(s, step).muts[step.t]);
    }
  }

  lemma RootOrder(u: set<Vaddr>, s: State, step: Step)
    requires Orderly(u, s) && (step.AddRoot? || step.DropRoot?) && MutEnabled(s, step)
    ensures Orderly(u, MutDo(s, step))
  {
    hide HeapAlive, MutsIn, WriterIn;
    OwnLocks(u, s, step.t);
  }

  lemma MutOrder(u: set<Vaddr>, s: State, step: Step)
    requires Orderly(u, s) && !step.GcMove? && !step.GcScan? && MutEnabled(s, step)
    requires step.Malloc? ==> !GcHolds(s.gc, step.a)
    ensures Orderly(Grown(u, step), MutDo(s, step))
  {
    hide Orderly, MutEnabled, MutDo, GcHolds;
    match step
    case ReadRoot(_, _) => LearnOrder(u, s, step);
    case Forget(_, _) => LearnOrder(u, s, step);
    case Load(_, _, _) => LearnOrder(u, s, step);
    case AddRoot(_, _, _) => RootOrder(u, s, step);
    case DropRoot(_, _) => RootOrder(u, s, step);
    case LockRead(_, _) => LockReadOrder(u, s, step);
    case UnlockRead(_, _) => UnlockReadOrder(u, s, step);
    case LockWrite(_, _) => LockWriteOrder(u, s, step);
    case SetVisited(_) => VisitedOrder(u, s, step);
    case Store(_, _, _, _) => StoreOrder(u, s, step);
    case UnlockWrite(_, _) => UnlockWriteOrder(u, s, step);
    case Malloc(_, _, _, _) => MallocOrder(u, s, step);
    case _ => BarrierOrder(u, s, step);
  }

  lemma ScanOrder(u: set<Vaddr>, s: State, a: Vaddr)
    requires Orderly(u, s) && Enabled(s, GcScan(a))
    ensures Orderly(u, Do(s, GcScan(a)))
  {
    hide HeapAlive, RootsIn, MutsIn;
  }

  /** Every step keeps the order, as long as the collector exists where it works and sweeps nothing that is in use. */
  lemma StepKeepsOrder(u: set<Vaddr>, s: State, step: Step)
    requires Orderly(u, s) && Enabled(s, step) && Sweeps(s.gc, u)
    requires step.Malloc? ==> !GcHolds(s.gc, step.a)
    ensures Orderly(Grown(u, step), Do(s, step))
  {
    hide Orderly, GcEnabled, GcDo, MutEnabled, MutDo, GcHolds, Sweeps;
    match step
    case GcMove => GcOrder(u, s);
    case GcScan(a) => ScanOrder(u, s, a);
    case _ => MutOrder(u, s, step);
  }
}
