/** The invariant of a concurrent cycle, and that every step keeps it. */
module CollectorInvariant {
  import opened Common
  import opened Graph
  import opened ConcurrentCollector
  import opened CollectorOrder
  import opened CollectorSnapshot

  // ---------------------------------------------------------------------------- the invariant

  /** The start state s0, and sets computed in it. */
  datatype Snapshot = Snapshot(s0: State, led: set<Vaddr>, used: set<Vaddr>, live: set<Vaddr>, held: set<Vaddr>)

  predicate Settled(objs: Heap, a: Vaddr) {
    Is(objs, a, NewlyAdded) || Is(objs, a, Visited)
  }

  predicate Marking(gc: Pc) {
    !gc.Scan? && !gc.Free? && !gc.Done?
  }

  /** The loop has seen the in-progress stack empty for the last time. */
  predicate Drained(gc: Pc) {
    gc == PopVisit(false) || gc == Outer(false) || gc.ClearFlag? || !Marking(gc)
  }

  predicate GcTouches(gc: Pc, a: Vaddr) {
    GcHolds(gc, a) || ((gc.LockProgress? || gc.LockVisit?) && gc.a == a)
  }

  predicate VisitHand(gc: Pc, a: Vaddr) {
    (gc.LockVisit? || gc.CheckVisit? || gc.FinishVisit?) && gc.a == a
  }

  /** What the stacks can lead to is known, and exists unless it has been freed. */
  ghost predicate HeapKnown(live: set<Vaddr>, objs: Heap, freed: set<Vaddr>) {
    && live <= objs.Keys + freed
    && (forall a, b :: a in live && a in objs && b in objs[a].refs && b != NULL_VADDR ==> b in live)
  }

  ghost predicate StacksIn(live: set<Vaddr>, inProgress: seq<Vaddr>, visit: seq<Vaddr>, gc: Pc) {
    && (forall a :: a in inProgress ==> a in live)
    && (forall a :: a in visit ==> a in live)
    && (forall a :: GcTouches(gc, a) ==> a in live)
  }

  /** What is stacked late is in use. */
  ghost predicate LateIn(used: set<Vaddr>, inProgress: seq<Vaddr>, gc: Pc) {
    Drained(gc) ==> forall a :: a in inProgress ==> a in used
  }

  ghost predicate Colours(z: Snapshot, born: set<Vaddr>, objs: Heap, muts: map<nat, Mutator>) {
    && (forall a :: a in born ==> Settled(objs, a))
    && (forall a :: a in z.used && !Settled(objs, a) ==> a in z.led || InVisit(muts, a))
  }

  /** A grey object waits on the visit stack, or is the one the collector is at. */
  ghost predicate GreyIn(objs: Heap, visit: seq<Vaddr>, gc: Pc) {
    && (forall a :: Is(objs, a, InProgress) ==> a in visit || VisitHand(gc, a))
    && (gc.FinishVisit? ==> Is(objs, gc.a, InProgress))
  }

  /** What a mutator may write to is neither white nor grey, or is white and was held from the start. */
  predicate Writable(held: set<Vaddr>, objs: Heap, a: Vaddr) {
    Settled(objs, a) || (a in held && Is(objs, a, Unvisited))
  }

  ghost predicate WritesIn(held: set<Vaddr>, objs: Heap, muts: map<nat, Mutator>) {
    forall t, a :: t in muts && a in muts[t].wlocks ==> Writable(held, objs, a)
  }

  /** Nothing in use is left to mark, but for what mutators are about to paint black that marking would not come to. */
  ghost predicate AllSettled(led: set<Vaddr>, used: set<Vaddr>, objs: Heap, muts: map<nat, Mutator>) {
    forall a :: a in used ==> Settled(objs, a) || (InVisit(muts, a) && a !in led)
  }

  ghost predicate VisitEmpty(gc: Pc, visit: seq<Vaddr>) {
    gc.Outer? || gc == PopProgress(false) || gc == PopVisit(false) || gc.ClearFlag? || !Marking(gc) ==> visit == []
  }

  /** Garbage: white at the start, and nothing led to it. */
  ghost predicate IsGarbage(z: Snapshot, a: Vaddr) {
    Is(z.s0.objs, a, Unvisited) && a !in z.live
  }

  /** What may be swept: white at the start, and not in use. */
  ghost predicate MayGo(z: Snapshot, a: Vaddr) {
    Is(z.s0.objs, a, Unvisited) && a !in z.used
  }

  /** An object outside the snapshot is not touched before it is freed. */
  ghost predicate GarbageIn(z: Snapshot, born: set<Vaddr>, objs: Heap, freed: set<Vaddr>) {
    && (forall a :: a in objs && a !in z.live && a !in born ==> a in z.s0.objs && objs[a] == z.s0.objs[a])
    && (forall a :: a in objs && a !in born ==> a in z.s0.objs)
    && (forall a :: a in objs && a !in born && Is(objs, a, Unvisited) ==> Is(z.s0.objs, a, Unvisited))
    && (forall a :: a in z.s0.objs ==> a in objs || a in freed)
    && (forall a :: a in z.s0.objs && a in born ==> a in freed)
    && (forall a :: a in freed ==> MayGo(z, a))
  }

  ghost predicate Doomed(z: Snapshot, used: set<Vaddr>, objs: Heap, doomed: seq<Vaddr>) {
    && NoRepeats(doomed)
    && (forall a :: a in doomed ==> a in objs && a !in used && MayGo(z, a))
  }

  /** The sweep has dealt with, or will deal with, each piece of garbage, once. */
  ghost predicate SweepIn(z: Snapshot, used: set<Vaddr>, objs: Heap, gc: Pc, freed: set<Vaddr>) {
    match gc
    case Scan(todo, seen, doomed) =>
      && freed == {} && todo <= objs.Keys
      && Doomed(z, used, objs, doomed)
      && (forall a :: a in doomed ==> a in seen)
      && (forall a :: IsGarbage(z, a) ==> a in todo && (a in seen ==> a in doomed))
    case Free(doomed) =>
      && Doomed(z, used, objs, doomed)
      && (forall a :: IsGarbage(z, a) ==> a in doomed || a in freed)
    case Done => forall a :: IsGarbage(z, a) ==> a in freed
    case _ => freed == {}
  }

  /** The objects in use, old and new. */
  ghost function InUse(z: Snapshot, s: State): set<Vaddr> {
    z.used + s.born
  }

  /** The objects that are in use or were stacked, old and new. */
  ghost function Known(z: Snapshot, s: State): set<Vaddr> {
    z.live + s.born
  }

  ghost predicate Inv(z: Snapshot, s: State) {
    && Orderly(InUse(z, s), s)
    && z.used <= z.live
    && HeapKnown(Known(z, s), s.objs, s.freed)
    && StacksIn(Known(z, s), s.inProgress, s.visit, s.gc)
    && LateIn(InUse(z, s), s.inProgress, s.gc)
    && Colours(z, s.born, s.objs, s.muts)
    && GreyIn(s.objs, s.visit, s.gc)
    && WritesIn(z.held, s.objs, s.muts)
    && (Marking(s.gc) ==> Snapshotted(z.led, z.held, ViewOf(s)))
    && s.flag == Marking(s.gc)
    && VisitEmpty(s.gc, s.visit)
    && (Drained(s.gc) ==> AllSettled(z.led, InUse(z, s), s.objs, s.muts))
    && GarbageIn(z, s.born, s.objs, s.freed)
    && SweepIn(z, InUse(z, s), s.objs, s.gc, s.freed)
  }

  /** What the collector is at exists. */
  lemma TouchedExists(z: Snapshot, s: State, a: Vaddr)
    requires Inv(z, s) && GcTouches(s.gc, a)
    ensures a in s.objs && a in Known(z, s)
  {
    hide Orderly, Snapshotted;
    assert s.freed == {} && a in s.objs.Keys + s.freed;
  }

  lemma HeldExists(z: Snapshot, s: State)
    requires Inv(z, s)
    ensures forall a :: GcHolds(s.gc, a) ==> a in s.objs
  {
    hide Inv;
    forall a | GcHolds(s.gc, a) ensures a in s.objs {
      TouchedExists(z, s, a);
    }
  }

  lemma DoomedGo(z: Snapshot, used: set<Vaddr>, objs: Heap, doomed: seq<Vaddr>)
    requires Doomed(z, used, objs, doomed) && doomed != []
    ensures var a := doomed[|doomed|-1]; a in objs && a !in used && MayGo(z, a) && a in doomed
    ensures Doomed(z, used, objs - {doomed[|doomed|-1]}, doomed[..|doomed|-1])
    ensures forall a :: a in doomed ==> a in doomed[..|doomed|-1] || a == doomed[|doomed|-1]
  {
    var a := doomed[|doomed|-1];
    assert doomed == doomed[..|doomed|-1] + [a];
    assert a in doomed;
  }

  /** The collector sweeps nothing that is in use. */
  lemma InvSweeps(z: Snapshot, s: State)
    requires Inv(z, s)
    ensures Sweeps(s.gc, InUse(z, s))
  {
    hide Orderly, Snapshotted, HeapKnown;
    if s.gc.Free? && s.gc.doomed != [] {
      DoomedGo(z, InUse(z, s), s.objs, s.gc.doomed);
    }
  }

  // ------------------------------------------------------------------ steps of the collector that paint nothing

  /** With nothing queued and nothing grey, nothing in use is white that nobody is visiting. */
  lemma NothingLeftToMark(z: Snapshot, s: State)
    requires Inv(z, s) && s.inProgress == [] && s.gc == PopProgress(false)
    ensures AllSettled(z.led, InUse(z, s), s.objs, s.muts)
  {
    hide Orderly, StacksIn, HeapKnown, WritesIn, GarbageIn, SweepIn, InVisit;
    UsedExist(InUse(z, s), s);
    EmptyCovers(z.held, ViewOf(s));
    assert Covers(z.held, ViewOf(s), {});
    assert WhiteWithin(z.led, ViewOf(s), {});
    forall a | a in InUse(z, s) ensures Settled(s.objs, a) || (InVisit(s.muts, a) && a !in z.led) {
      assert !Is(s.objs, a, InProgress);
      assert a in z.led ==> !Is(s.objs, a, Unvisited);
    }
  }

  lemma UsedExist(u: set<Vaddr>, s: State)
    requires Orderly(u, s)
    ensures u <= s.objs.Keys
  {
  }

  lemma EmptyCovers(held: set<Vaddr>, v: View)
    requires v.inProgress == [] && v.gc == PopProgress(false) && forall a :: !Is(v.objs, a, InProgress)
    ensures Covers(held, v, {})
  {
  }

  /** The collector changes its place, its hand and the stacks only. */
  ghost predicate OnlyMoves(s: State, s': State) {
    && s'.objs == s.objs && s'.roots == s.roots && s'.muts == s.muts && s'.born == s.born && s'.freed == s.freed
    && s'.flag == s.flag
  }

  lemma Moved(z: Snapshot, s: State)
    requires Inv(z, s) && GcEnabled(s) && OnlyMoves(s, GcDo(s)) && Marking(s.gc) && Marking(GcDo(s).gc)
    requires var s' := GcDo(s);
             && StacksIn(Known(z, s), s'.inProgress, s'.visit, s'.gc) && GreyIn(s.objs, s'.visit, s'.gc)
             && Snapshotted(z.led, z.held, ViewOf(s')) && VisitEmpty(s'.gc, s'.visit)
             && LateIn(InUse(z, s), s'.inProgress, s'.gc)
             && (Drained(s'.gc) ==> AllSettled(z.led, InUse(z, s), s.objs, s.muts))
    ensures Inv(z, GcDo(s))
  {
    hide Inv, StacksIn, GreyIn, Snapshotted, VisitEmpty, LateIn, Sweeps;
    InvSweeps(z, s);
    MovedInv(z, s);
  }

  lemma MovedInv(z: Snapshot, s: State)
    requires Inv(z, s) && GcEnabled(s) && OnlyMoves(s, GcDo(s)) && Marking(s.gc) && Marking(GcDo(s).gc)
    requires Sweeps(s.gc, InUse(z, s))
    requires var s' := GcDo(s);
             && StacksIn(Known(z, s), s'.inProgress, s'.visit, s'.gc) && GreyIn(s.objs, s'.visit, s'.gc)
             && Snapshotted(z.led, z.held, ViewOf(s')) && VisitEmpty(s'.gc, s'.visit)
             && LateIn(InUse(z, s), s'.inProgress, s'.gc)
             && (Drained(s'.gc) ==> AllSettled(z.led, InUse(z, s), s.objs, s.muts))
    ensures Inv(z, GcDo(s))
  {
    hide Orderly, HeapKnown, StacksIn, LateIn, Colours, GreyIn, WritesIn, Snapshotted, AllSettled, VisitEmpty, GarbageIn,
         Sweeps, GcDo, GcEnabled;
    GcOrder(InUse(z, s), s);
  }

  lemma GcOuter(z: Snapshot, s: State)
    requires Inv(z, s) && s.gc.Outer?
    ensures Inv(z, GcDo(s))
  {
    hide Orderly, HeapKnown, Colours, WritesIn, GarbageIn, SweepIn, AllSettled, Snapshotted;
    Requeued(z.led, z.held, ViewOf(s), ViewOf(GcDo(s)));
    Moved(z, s);
  }

  lemma GcPopsProgress(z: Snapshot, s: State)
    requires Inv(z, s) && s.gc.PopProgress? && s.inProgress != []
    ensures Inv(z, GcDo(s))
  {
    hide Orderly, HeapKnown, Colours, WritesIn, GarbageIn, SweepIn, AllSettled, Snapshotted;
    var s', a := GcDo(s), s.inProgress[|s.inProgress|-1];
    assert s.inProgress == s'.inProgress + [a];
    Requeued(z.led, z.held, ViewOf(s), ViewOf(s'));
    Moved(z, s);
  }

  lemma GcSeesProgressEmpty(z: Snapshot, s: State)
    requires Inv(z, s) && s.gc.PopProgress? && s.inProgress == []
    ensures Inv(z, GcDo(s))
  {
    hide Orderly, HeapKnown, Colours, WritesIn, GarbageIn, SweepIn, AllSettled, Snapshotted;
    if s.gc == PopProgress(false) {
      NothingLeftToMark(z, s);
    }
    Requeued(z.led, z.held, ViewOf(s), ViewOf(GcDo(s)));
    Moved(z, s);
  }

  lemma GcLocksInv(z: Snapshot, s: State)
    requires Inv(z, s) && GcEnabled(s)
    requires s.gc.LockProgress? || s.gc.LockVisit? || s.gc.UnlockProgress? || s.gc.UnlockVisit?
    ensures Inv(z, GcDo(s))
  {
    hide Orderly, HeapKnown, Colours, WritesIn, GarbageIn, SweepIn, AllSettled, Snapshotted;
    Requeued(z.led, z.held, ViewOf(s), ViewOf(GcDo(s)));
    Moved(z, s);
  }

  lemma GcPopsVisit(z: Snapshot, s: State)
    requires Inv(z, s) && s.gc.PopVisit? && s.visit != []
    ensures Inv(z, GcDo(s))
  {
    hide Orderly, HeapKnown, Colours, WritesIn, GarbageIn, SweepIn, AllSettled, Snapshotted;
    var s', a := GcDo(s), s.visit[|s.visit|-1];
    assert s.visit == s'.visit + [a];
    Requeued(z.led, z.held, ViewOf(s), ViewOf(s'));
    Moved(z, s);
  }

  lemma GcSeesVisitEmpty(z: Snapshot, s: State)
    requires Inv(z, s) && s.gc.PopVisit? && s.visit == []
    ensures Inv(z, GcDo(s))
  {
    hide Orderly, HeapKnown, Colours, WritesIn, GarbageIn, SweepIn, AllSettled, Snapshotted;
    Requeued(z.led, z.held, ViewOf(s), ViewOf(GcDo(s)));
    Moved(z, s);
  }

  /** It pushes the references of a grey object, or finds that a mutator has visited it. */
  lemma GcCheckVisit(z: Snapshot, s: State)
    requires Inv(z, s) && s.gc.CheckVisit? && GcEnabled(s)
    ensures Inv(z, GcDo(s))
  {
    hide Orderly, HeapKnown, Colours, WritesIn, GarbageIn, SweepIn, AllSettled, Snapshotted;
    var a := s.gc.a;
    TouchedExists(z, s, a);
    if s.objs[a].status == InProgress {
      KnownRefs(z, s, a);
      GreyPushed(z.led, z.held, ViewOf(s), ViewOf(GcDo(s)), a);
    } else {
      Requeued(z.led, z.held, ViewOf(s), ViewOf(GcDo(s)));
    }
    Moved(z, s);
  }

  lemma KnownRefs(z: Snapshot, s: State, a: Vaddr)
    requires Inv(z, s) && a in s.objs && a in Known(z, s)
    ensures forall b :: b in NonNull(s.objs[a].refs) ==> b in Known(z, s)
  {
  }

  // ---------------------------------------------------------------------------- steps of the collector that paint

  lemma PaintColours(z: Snapshot, s: State, a: Vaddr, st: Status)
    requires Inv(z, s) && a in s.objs && GcHas(s.muts, a)
    requires st == Visited || (st == InProgress && Is(s.objs, a, Unvisited))
    ensures Colours(z, s.born, Painted(s.objs, a, st), s.muts) && WritesIn(z.held, Painted(s.objs, a, st), s.muts)
  {
    hide Inv, Colours, WritesIn;
    InvColours(z, s);
    if st == InProgress {
      WhiteIsLed(z, s, a);
    }
    ColoursPainted(z, s.born, s.objs, s.muts, a, st);
  }

  lemma InvColours(z: Snapshot, s: State)
    requires Inv(z, s)
    ensures Colours(z, s.born, s.objs, s.muts) && WritesIn(z.held, s.objs, s.muts)
  {
  }

  lemma ColoursPainted(z: Snapshot, born: set<Vaddr>, objs: Heap, muts: map<nat, Mutator>, a: Vaddr, st: Status)
    requires Colours(z, born, objs, muts) && WritesIn(z.held, objs, muts) && a in objs && GcHas(muts, a)
    requires st == Visited || (st == InProgress && a !in born && (a in z.used ==> a in z.led))
    ensures Colours(z, born, Painted(objs, a, st), muts) && WritesIn(z.held, Painted(objs, a, st), muts)
  {
    hide InVisit;
    forall t, b | t in muts && b in muts[t].wlocks ensures Writable(z.held, Painted(objs, a, st), b) {
      assert !HasLock(muts[t], a) && Writable(z.held, objs, b);
    }
  }

  lemma WhiteIsLed(z: Snapshot, s: State, a: Vaddr)
    requires Inv(z, s) && Is(s.objs, a, Unvisited) && GcHas(s.muts, a)
    ensures a !in s.born && (a in z.used ==> a in z.led)
  {
    NotInPush(s.muts, a);
  }

  lemma PaintKnown(z: Snapshot, s: State, a: Vaddr, st: Status)
    requires Inv(z, s) && a in s.objs && a in Known(z, s) && (st == Unvisited ==> Is(s.objs, a, Unvisited))
    ensures HeapKnown(Known(z, s), Painted(s.objs, a, st), s.freed)
    ensures GarbageIn(z, s.born, Painted(s.objs, a, st), s.freed)
  {
    hide Orderly, StacksIn, Colours, SweepIn;
  }

  lemma MarkedGrey(z: Snapshot, s: State)
    requires Inv(z, s) && s.gc.MarkProgress? && Is(s.objs, s.gc.a, Unvisited)
    ensures Inv(z, GcDo(s))
  {
    hide Orderly, HeapKnown, Colours, WritesIn, GarbageIn, AllSettled, Snapshotted, Covers;
    var a := s.gc.a;
    TouchedExists(z, s, a);
    GcHasIt(InUse(z, s), s, a);
    PaintColours(z, s, a, InProgress);
    PaintKnown(z, s, a, InProgress);
    TurnsGrey(z.led, z.held, ViewOf(s), a);
    GcOrder(InUse(z, s), s);
  }

  lemma MarkedNothing(z: Snapshot, s: State)
    requires Inv(z, s) && s.gc.MarkProgress? && GcEnabled(s) && !Is(s.objs, s.gc.a, Unvisited)
    ensures Inv(z, GcDo(s))
  {
    hide Orderly, HeapKnown, Colours, WritesIn, GarbageIn, SweepIn, AllSettled, Snapshotted;
    GcHasIt(InUse(z, s), s, s.gc.a);
    Dropped(z.led, z.held, ViewOf(s), s.gc.a);
    Moved(z, s);
  }

  lemma GcFinishVisit(z: Snapshot, s: State)
    requires Inv(z, s) && s.gc.FinishVisit? && GcEnabled(s)
    ensures Inv(z, GcDo(s))
  {
    hide Orderly, HeapKnown, Colours, WritesIn, GarbageIn, AllSettled, Snapshotted, Covers;
    var a := s.gc.a;
    TouchedExists(z, s, a);
    GcHasIt(InUse(z, s), s, a);
    PaintColours(z, s, a, Visited);
    PaintKnown(z, s, a, Visited);
    TurnsBlack(z.led, z.held, ViewOf(s), a);
    GcOrder(InUse(z, s), s);
  }

  // ---------------------------------------------------------------------------- the sweep

  lemma InvIsOrderly(z: Snapshot, s: State)
    requires Inv(z, s)
    ensures Orderly(InUse(z, s), s)
  {
  }

  lemma SweepOrder(z: Snapshot, s: State, step: Step)
    requires Inv(z, s) && Enabled(s, step) && (step.GcMove? || step.GcScan?)
    ensures Orderly(InUse(z, s), Do(s, step))
  {
    hide Inv, Orderly, Enabled, Do;
    InvIsOrderly(z, s);
    InvSweeps(z, s);
    StepKeepsOrder(InUse(z, s), s, step);
  }

  lemma GcClearFlag(z: Snapshot, s: State)
    requires Inv(z, s) && s.gc.ClearFlag?
    ensures Inv(z, GcDo(s))
  {
    hide Orderly, HeapKnown, Colours, WritesIn, AllSettled, Snapshotted;
    SweepOrder(z, s, GcMove);
  }

  lemma GcScanEnds(z: Snapshot, s: State)
    requires Inv(z, s) && s.gc.Scan? && GcEnabled(s)
    ensures Inv(z, GcDo(s))
  {
    hide Orderly, HeapKnown, Colours, WritesIn, AllSettled, Snapshotted, Doomed;
    SweepOrder(z, s, GcMove);
  }

  lemma GcScans(z: Snapshot, s: State, a: Vaddr)
    requires Inv(z, s) && Enabled(s, GcScan(a))
    ensures Inv(z, Do(s, GcScan(a)))
  {
    hide Orderly, HeapKnown, Colours, WritesIn, AllSettled, Snapshotted, GarbageIn;
    SweepOrder(z, s, GcScan(a));
    ScannedWhite(z, s, a);
  }

  /** A white object that nobody has locked is not in use. */
  lemma ScannedWhite(z: Snapshot, s: State, a: Vaddr)
    requires Inv(z, s) && s.gc.Scan? && a in s.objs && a !in s.writer
    ensures Is(s.objs, a, Unvisited) ==> a !in InUse(z, s) && MayGo(z, a)
    ensures IsGarbage(z, a) ==> Is(s.objs, a, Unvisited)
  {
    hide HeapKnown, StacksIn, WritesIn, Snapshotted, Doomed;
    if t :| t in s.muts && Visits(s.muts[t], a) {
      OwnLocks(InUse(z, s), s, t);
    }
  }

  lemma GcFreeEnds(z: Snapshot, s: State)
    requires Inv(z, s) && s.gc == Free([])
    ensures Inv(z, GcDo(s))
  {
    hide Orderly, HeapKnown, Colours, WritesIn, AllSettled, Snapshotted, GarbageIn;
    SweepOrder(z, s, GcMove);
  }

  lemma FreedKnown(z: Snapshot, s: State, a: Vaddr)
    requires Inv(z, s) && s.gc.Free? && MayGo(z, a) && a !in InUse(z, s)
    ensures HeapKnown(Known(z, s), s.objs - {a}, s.freed + {a})
    ensures GarbageIn(z, s.born, s.objs - {a}, s.freed + {a})
  {
    hide Orderly, StacksIn, Colours, SweepIn;
  }

  lemma FreedColours(z: Snapshot, s: State, a: Vaddr)
    requires Inv(z, s) && s.gc.Free? && a !in InUse(z, s)
    ensures var objs' := s.objs - {a};
            && Colours(z, s.born, objs', s.muts) && WritesIn(z.held, objs', s.muts)
            && AllSettled(z.led, InUse(z, s), objs', s.muts)
  {
    hide Orderly, StacksIn, HeapKnown, GarbageIn, SweepIn, InVisit;
    forall t, b | t in s.muts && b in s.muts[t].wlocks ensures Writable(z.held, s.objs - {a}, b) {
      InvIsOrderly(z, s);
      OwnLocks(InUse(z, s), s, t);
      assert HasLock(s.muts[t], b) && Writable(z.held, s.objs, b);
    }
  }

  lemma GcFrees(z: Snapshot, s: State)
    requires Inv(z, s) && s.gc.Free? && s.gc.doomed != [] && GcEnabled(s)
    ensures Inv(z, GcDo(s))
  {
    hide Orderly, HeapKnown, Colours, WritesIn, AllSettled, Snapshotted, GarbageIn, Doomed;
    DoomedGo(z, InUse(z, s), s.objs, s.gc.doomed);
    FreedKnown(z, s, s.gc.doomed[|s.gc.doomed|-1]);
    FreedColours(z, s, s.gc.doomed[|s.gc.doomed|-1]);
    SweepOrder(z, s, GcMove);
  }

  lemma GcKeepsInv(z: Snapshot, s: State)
    requires Inv(z, s) && GcEnabled(s)
    ensures Inv(z, GcDo(s))
  {
    hide Inv, GcDo, Unlocked;
    match s.gc
    case Outer(_) => GcOuter(z, s);
    case PopProgress(_) => if s.inProgress == [] { GcSeesProgressEmpty(z, s); } else { GcPopsProgress(z, s); }
    case PopVisit(_) => if s.visit == [] { GcSeesVisitEmpty(z, s); } else { GcPopsVisit(z, s); }
    case MarkProgress(a) => if Is(s.objs, a, Unvisited) { MarkedGrey(z, s); } else { MarkedNothing(z, s); }
    case CheckVisit(_) => GcCheckVisit(z, s);
    case FinishVisit(_) => GcFinishVisit(z, s);
    case ClearFlag => GcClearFlag(z, s);
    case Scan(_, _, _) => GcScanEnds(z, s);
    case Free(doomed) => if doomed == [] { GcFreeEnds(z, s); } else { GcFrees(z, s); }
    case _ => GcLocksInv(z, s);
  }

  // ---------------------------------------------------------------------------- steps of the mutators

  lemma MutStepOrder(z: Snapshot, s: State, step: Step)
    requires Inv(z, s) && !step.GcMove? && !step.GcScan? && MutEnabled(s, step)
    ensures Orderly(Grown(InUse(z, s), step), MutDo(s, step))
  {
    hide Inv, Orderly, MutEnabled, MutDo, GcHolds;
    InvIsOrderly(z, s);
    HeldExists(z, s);
    MallocIsNew(s, step);
    MutOrder(InUse(z, s), s, step);
  }

  lemma MallocIsNew(s: State, step: Step)
    requires !step.GcMove? && !step.GcScan? && MutEnabled(s, step)
    ensures step.Malloc? ==> step.a !in s.objs
  {
  }

  /** One mutator and the locks change, and nothing else. */
  ghost predicate OnlyMut(s: State, s': State, t: nat) {
    && t in s.muts && t in s'.muts && s'.muts == s.muts[t := s'.muts[t]]
    && s'.objs == s.objs && s'.inProgress == s.inProgress && s'.visit == s.visit && s'.gc == s.gc && s'.flag == s.flag
    && s'.born == s.born && s'.freed == s.freed
  }

  lemma MutColours(z: Snapshot, born: set<Vaddr>, objs: Heap, muts: map<nat, Mutator>, t: nat, m: Mutator)
    requires Colours(z, born, objs, muts) && WritesIn(z.held, objs, muts) && t in muts
    requires StillForces(objs, muts[t], m) && forall a :: a in m.wlocks ==> Writable(z.held, objs, a)
    ensures Colours(z, born, objs, muts[t := m]) && WritesIn(z.held, objs, muts[t := m])
    ensures forall u :: AllSettled(z.led, u, objs, muts) ==> AllSettled(z.led, u, objs, muts[t := m])
  {
    hide Colours, WritesIn, AllSettled, InVisit;
    VisitsOn(muts, t, muts[t], m);
    ColoursLike(z, born, objs, muts, t, m);
  }

  lemma MutStays(z: Snapshot, s: State, s': State, t: nat)
    requires Inv(z, s) && OnlyMut(s, s', t) && Orderly(InUse(z, s), s')
    requires StillForces(s.objs, s.muts[t], s'.muts[t])
    requires forall a :: a in s'.muts[t].wlocks ==> Writable(z.held, s.objs, a)
    ensures Inv(z, s')
  {
    hide Orderly, HeapKnown, StacksIn, LateIn, Colours, GreyIn, WritesIn, AllSettled, Snapshotted, GarbageIn, SweepIn,
         StillForces, Writable;
    MutColours(z, s.born, s.objs, s.muts, t, s'.muts[t]);
    if Marking(s.gc) {
      MutMoves(z.led, z.held, ViewOf(s), t, s'.muts[t]);
    }
  }

  lemma MayWrite(z: Snapshot, s: State, t: nat)
    requires Inv(z, s) && t in s.muts
    ensures forall a :: a in s.muts[t].wlocks ==> Writable(z.held, s.objs, a)
  {
    hide Orderly, HeapKnown, StacksIn, Colours, AllSettled, Snapshotted, GarbageIn, SweepIn;
  }

  /** Outside the barrier, a mutator may change what it knows and what it has locked. */
  lemma MutIdles(z: Snapshot, s: State, step: Step)
    requires Inv(z, s) && !step.GcMove? && !step.GcScan? && MutEnabled(s, step)
    requires step.ReadRoot? || step.Forget? || step.LockRead? || step.UnlockRead? || step.Load? || step.LockWrite?
             || step.UnlockWrite?
    ensures Inv(z, MutDo(s, step))
  {
    hide Inv, Orderly, Writable;
    MutStepOrder(z, s, step);
    MayWrite(z, s, step.t);
    MutStays(z, s, MutDo(s, step), step.t);
  }

  lemma MutRoots(z: Snapshot, s: State, step: Step)
    requires Inv(z, s) && (step.AddRoot? || step.DropRoot?) && MutEnabled(s, step)
    ensures Inv(z, MutDo(s, step))
  {
    hide Orderly, HeapKnown, StacksIn, LateIn, Colours, GreyIn, WritesIn, AllSettled, Snapshotted, GarbageIn, SweepIn;
    MutStepOrder(z, s, step);
  }

  lemma MutReadsStatus(z: Snapshot, s: State, step: Step)
    requires Inv(z, s) && step.ReadStatus? && MutEnabled(s, step)
    ensures Inv(z, MutDo(s, step))
  {
    hide Inv, Orderly;
    MutStepOrder(z, s, step);
    MayWrite(z, s, step.t);
    MutStays(z, s, MutDo(s, step), step.t);
  }

  /** With the flag cleared, an object that this mutator has locked is settled. */
  lemma SettledOnceCleared(z: Snapshot, s: State, t: nat)
    requires Inv(z, s) && t in s.muts && s.muts[t].phase.Seen? && !s.flag
    ensures Settled(s.objs, s.muts[t].phase.a)
  {
    hide HeapKnown, StacksIn, Colours, GreyIn, WritesIn, Snapshotted, GarbageIn, SweepIn;
    var a := s.muts[t].phase.a;
    OwnLocks(InUse(z, s), s, t);
    assert HasLock(s.muts[t], a);
    if k :| k in s.muts && Visits(s.muts[k], a) {
      OwnLocks(InUse(z, s), s, k);
    }
  }

  lemma MutReadsFlag(z: Snapshot, s: State, step: Step)
    requires Inv(z, s) && step.ReadFlag? && MutEnabled(s, step)
    ensures Inv(z, MutDo(s, step))
  {
    hide Inv, MutEnabled, MutDo;
    if s.flag {
      FlagSeen(z, s, step);
    } else {
      FlagNotSeen(z, s, step);
    }
  }

  lemma FlagSeen(z: Snapshot, s: State, step: Step)
    requires Inv(z, s) && step.ReadFlag? && MutEnabled(s, step) && s.flag
    ensures Inv(z, MutDo(s, step))
  {
    hide Inv, Orderly;
    MutStepOrder(z, s, step);
    MayWrite(z, s, step.t);
    MutStays(z, s, MutDo(s, step), step.t);
  }

  /** The flag has been cleared: marking is over, so that nothing is forced any more. */
  lemma FlagNotSeen(z: Snapshot, s: State, step: Step)
    requires Inv(z, s) && step.ReadFlag? && MutEnabled(s, step) && !s.flag
    ensures Inv(z, MutDo(s, step))
  {
    hide Orderly, HeapKnown, StacksIn, LateIn, Colours, GreyIn, WritesIn, AllSettled, GarbageIn, SweepIn;
    MutStepOrder(z, s, step);
    MayWrite(z, s, step.t);
    SettledOnceCleared(z, s, step.t);
    var m := s.muts[step.t];
    var m' := m.(phase := Idle, wlocks := m.wlocks + {m.phase.a});
    VisitsOn(s.muts, step.t, m, m');
    ColoursLike(z, s.born, s.objs, s.muts, step.t, m');
  }

  lemma ColoursLike(z: Snapshot, born: set<Vaddr>, objs: Heap, muts: map<nat, Mutator>, t: nat, m: Mutator)
    requires Colours(z, born, objs, muts) && WritesIn(z.held, objs, muts) && t in muts
    requires forall a :: InVisit(muts, a) ==> InVisit(muts[t := m], a)
    requires forall a :: a in m.wlocks ==> Writable(z.held, objs, a)
    ensures Colours(z, born, objs, muts[t := m]) && WritesIn(z.held, objs, muts[t := m])
    ensures forall u :: AllSettled(z.led, u, objs, muts) ==> AllSettled(z.led, u, objs, muts[t := m])
  {
    hide InVisit;
  }

  lemma VisitedObject(z: Snapshot, s: State, t: nat)
    requires Inv(z, s) && t in s.muts && !s.muts[t].phase.Idle?
    ensures var a := s.muts[t].phase.a;
            a in s.objs && a in InUse(z, s) && a in Known(z, s) && OnlyLock(s.muts, t, a) && !GcHolds(s.gc, a)
  {
    hide HeapKnown, StacksIn, Colours, GreyIn, WritesIn, AllSettled, Snapshotted, GarbageIn, SweepIn;
    var a := s.muts[t].phase.a;
    OwnLocks(InUse(z, s), s, t);
    assert HasLock(s.muts[t], a);
    OnlyIts(InUse(z, s), s, t, a);
  }

  lemma UsedRefs(z: Snapshot, s: State, a: Vaddr)
    requires Inv(z, s) && a in InUse(z, s) && a in s.objs
    ensures forall b :: b in NonNull(s.objs[a].refs) ==> b in InUse(z, s) && b in Known(z, s)
  {
    hide HeapKnown, StacksIn, Colours, GreyIn, WritesIn, AllSettled, Snapshotted, GarbageIn, SweepIn;
  }

  lemma MutPushRefs(z: Snapshot, s: State, step: Step)
    requires Inv(z, s) && step.PushRefs? && MutEnabled(s, step)
    ensures Inv(z, MutDo(s, step))
  {
    hide Orderly, HeapKnown, Colours, GreyIn, WritesIn, AllSettled, Snapshotted, GarbageIn, SweepIn;
    var t, m := step.t, s.muts[step.t];
    var m' := m.(phase := Pushed(m.phase.a));
    VisitedObject(z, s, t);
    UsedRefs(z, s, m.phase.a);
    MayWrite(z, s, t);
    MutStepOrder(z, s, step);
    VisitsOn(s.muts, t, m, m');
    ColoursLike(z, s.born, s.objs, s.muts, t, m');
    if Marking(s.gc) {
      MutPushes(z.led, z.held, ViewOf(s), t);
    }
  }

  /** A mutator blackens the object it has been visiting. */
  lemma VisitedColours(z: Snapshot, u: set<Vaddr>, born: set<Vaddr>, objs: Heap, muts: map<nat, Mutator>,
                       t: nat, m: Mutator)
    requires Colours(z, born, objs, muts) && WritesIn(z.held, objs, muts) && t in muts && muts[t].phase.Pushed?
    requires var x := muts[t].phase.a; x in objs && m.wlocks == muts[t].wlocks + {x} && OnlyLock(muts, t, x)
    ensures var objs' := Painted(objs, muts[t].phase.a, Visited);
            && Colours(z, born, objs', muts[t := m]) && WritesIn(z.held, objs', muts[t := m])
            && (AllSettled(z.led, u, objs, muts) ==> AllSettled(z.led, u, objs', muts[t := m]))
  {
    hide InVisit;
    OtherVisits(muts, t, m);
    var x := muts[t].phase.a;
    var muts', objs' := muts[t := m], Painted(objs, x, Visited);
    forall k, b | k in muts' && b in muts'[k].wlocks ensures Writable(z.held, objs', b) {
      if b == x {
        assert Settled(objs', b);
      } else {
        assert b in muts[k].wlocks && Writable(z.held, objs, b);
      }
    }
  }

  lemma OtherVisits(muts: map<nat, Mutator>, t: nat, m: Mutator)
    requires t in muts && muts[t].phase.Pushed?
    ensures forall a :: InVisit(muts, a) && a != muts[t].phase.a ==> InVisit(muts[t := m], a)
  {
    forall a | InVisit(muts, a) && a != muts[t].phase.a ensures InVisit(muts[t := m], a) {
      var k :| k in muts && Visits(muts[k], a);
      assert k != t && Visits(muts[t := m][k], a);
    }
  }

  lemma VisitedGrey(objs: Heap, visit: seq<Vaddr>, gc: Pc, x: Vaddr)
    requires GreyIn(objs, visit, gc) && x in objs && !GcHolds(gc, x)
    ensures GreyIn(Painted(objs, x, Visited), visit, gc)
  {
  }

  lemma SameSweep(z: Snapshot, u: set<Vaddr>, objs: Heap, objs': Heap, gc: Pc, freed: set<Vaddr>)
    requires SweepIn(z, u, objs, gc, freed) && objs.Keys <= objs'.Keys
    ensures SweepIn(z, u, objs', gc, freed)
  {
  }

  lemma MutSetsVisited(z: Snapshot, s: State, step: Step)
    requires Inv(z, s) && step.SetVisited? && MutEnabled(s, step)
    ensures Inv(z, MutDo(s, step))
  {
    hide Orderly, HeapKnown, StacksIn, LateIn, Colours, GreyIn, WritesIn, AllSettled, Snapshotted, GarbageIn, SweepIn;
    var t, m := step.t, s.muts[step.t];
    var x, m' := m.phase.a, m.(phase := Idle, wlocks := m.wlocks + {m.phase.a});
    VisitedObject(z, s, t);
    MutStepOrder(z, s, step);
    PaintKnown(z, s, x, Visited);
    VisitedColours(z, InUse(z, s), s.born, s.objs, s.muts, t, m');
    VisitedGrey(s.objs, s.visit, s.gc, x);
    SameSweep(z, InUse(z, s), s.objs, Painted(s.objs, x, Visited), s.gc, s.freed);
    if Marking(s.gc) {
      MutBlackens(z.led, z.held, ViewOf(s), t, m');
    }
  }

  lemma SameColours(z: Snapshot, u: set<Vaddr>, born: set<Vaddr>, objs: Heap, muts: map<nat, Mutator>, a: Vaddr, x: Obj)
    requires Colours(z, born, objs, muts) && WritesIn(z.held, objs, muts) && a in objs && x.status == objs[a].status
    ensures Colours(z, born, objs[a := x], muts) && WritesIn(z.held, objs[a := x], muts)
    ensures AllSettled(z.led, u, objs, muts) ==> AllSettled(z.led, u, objs[a := x], muts)
  {
    hide InVisit;
    forall k, b | k in muts && b in muts[k].wlocks ensures Writable(z.held, objs[a := x], b) {
      assert Writable(z.held, objs, b);
    }
  }

  lemma SameGrey(objs: Heap, visit: seq<Vaddr>, gc: Pc, a: Vaddr, x: Obj)
    requires GreyIn(objs, visit, gc) && a in objs && x.status == objs[a].status
    ensures GreyIn(objs[a := x], visit, gc)
  {
  }

  lemma StoredKnown(z: Snapshot, s: State, a: Vaddr, x: Obj)
    requires Inv(z, s) && a in s.objs && a in Known(z, s) && x.status == s.objs[a].status
    requires forall b :: b in x.refs ==> b == NULL_VADDR || b in s.objs[a].refs || b in Known(z, s)
    ensures HeapKnown(Known(z, s), s.objs[a := x], s.freed) && GarbageIn(z, s.born, s.objs[a := x], s.freed)
  {
    hide Orderly, StacksIn, Colours, GreyIn, WritesIn, AllSettled, Snapshotted, SweepIn;
  }

  lemma WrittenObject(z: Snapshot, s: State, t: nat, a: Vaddr)
    requires Inv(z, s) && t in s.muts && a in s.muts[t].wlocks
    ensures a in s.objs && a in Known(z, s) && OnlyLock(s.muts, t, a) && s.muts[t].locals <= Known(z, s)
    ensures !Is(s.objs, a, InProgress) && !Traced(s.objs, z.held, s.muts, a)
  {
    hide HeapKnown, StacksIn, Colours, GreyIn, WritesIn, AllSettled, Snapshotted, GarbageIn, SweepIn;
    OwnLocks(InUse(z, s), s, t);
    assert HasLock(s.muts[t], a);
    OnlyIts(InUse(z, s), s, t, a);
    MayWrite(z, s, t);
    assert Writable(z.held, s.objs, a);
  }

  lemma MutStoresInv(z: Snapshot, s: State, step: Step)
    requires Inv(z, s) && step.Store? && MutEnabled(s, step)
    ensures Inv(z, MutDo(s, step))
  {
    hide Orderly, HeapKnown, StacksIn, LateIn, Colours, GreyIn, WritesIn, AllSettled, Snapshotted, GarbageIn, SweepIn;
    var a, x := step.a, s.objs[step.a].(refs := s.objs[step.a].refs[step.i := step.b]);
    WrittenObject(z, s, step.t, a);
    MutStepOrder(z, s, step);
    StoredKnown(z, s, a, x);
    SameColours(z, InUse(z, s), s.born, s.objs, s.muts, a, x);
    SameGrey(s.objs, s.visit, s.gc, a, x);
    SameSweep(z, InUse(z, s), s.objs, s.objs[a := x], s.gc, s.freed);
    if Marking(s.gc) {
      MutStores(z.led, z.held, ViewOf(s), step.t, a, x);
    }
  }

  lemma NewColours(z: Snapshot, u: set<Vaddr>, born: set<Vaddr>, objs: Heap, muts: map<nat, Mutator>, t: nat, m: Mutator,
                   a: Vaddr, x: Obj)
    requires Colours(z, born, objs, muts) && WritesIn(z.held, objs, muts) && a !in objs && x.status == NewlyAdded
    requires t in muts && muts[t].phase.Idle? && m.wlocks == muts[t].wlocks + {a}
    ensures Colours(z, born + {a}, objs[a := x], muts[t := m]) && WritesIn(z.held, objs[a := x], muts[t := m])
    ensures AllSettled(z.led, u, objs, muts) ==> AllSettled(z.led, u + {a}, objs[a := x], muts[t := m])
  {
    hide InVisit;
    VisitsOn(muts, t, muts[t], m);
    var muts' := muts[t := m];
    forall k, b | k in muts' && b in muts'[k].wlocks ensures Writable(z.held, objs[a := x], b) {
      if b == a {
        assert Settled(objs[a := x], b);
      } else {
        assert b in muts[k].wlocks && Writable(z.held, objs, b);
      }
    }
  }

  lemma NewGrey(objs: Heap, visit: seq<Vaddr>, gc: Pc, a: Vaddr, x: Obj)
    requires GreyIn(objs, visit, gc) && a !in objs && x.status == NewlyAdded
    ensures GreyIn(objs[a := x], visit, gc)
  {
  }

  lemma NewKnown(z: Snapshot, s: State, a: Vaddr, x: Obj)
    requires Inv(z, s) && a !in s.objs && x.status == NewlyAdded && forall b :: b in x.refs ==> b == NULL_VADDR
    ensures HeapKnown(Known(z, s) + {a}, s.objs[a := x], s.freed)
    ensures GarbageIn(z, s.born + {a}, s.objs[a := x], s.freed)
    ensures StacksIn(Known(z, s) + {a}, s.inProgress, s.visit, s.gc)
    ensures LateIn(InUse(z, s) + {a}, s.inProgress, s.gc)
    ensures SweepIn(z, InUse(z, s) + {a}, s.objs[a := x], s.gc, s.freed)
  {
    hide Orderly, Colours, GreyIn, WritesIn, AllSettled, Snapshotted;
  }

  lemma MutMallocsInv(z: Snapshot, s: State, step: Step)
    requires Inv(z, s) && step.Malloc? && MutEnabled(s, step)
    ensures Inv(z, MutDo(s, step))
  {
    hide Orderly, HeapKnown, StacksIn, LateIn, Colours, GreyIn, WritesIn, AllSettled, Snapshotted, GarbageIn, SweepIn;
    var t, a, m := step.t, step.a, s.muts[step.t];
    var x := Obj(NewlyAdded, Nulls(step.n), step.data);
    var m' := m.(locals := m.locals + {a}, wlocks := m.wlocks + {a});
    MutStepOrder(z, s, step);
    NewKnown(z, s, a, x);
    NewColours(z, InUse(z, s), s.born, s.objs, s.muts, t, m', a, x);
    NewGrey(s.objs, s.visit, s.gc, a, x);
    NewSets(z, s, a);
    if Marking(s.gc) {
      MutMallocs(z.led, z.held, ViewOf(s), t, m', a, x);
    }
  }

  lemma NewSets(z: Snapshot, s: State, a: Vaddr)
    ensures var s' := s.(born := s.born + {a}); InUse(z, s') == InUse(z, s) + {a} && Known(z, s') == Known(z, s) + {a}
  {
  }

  lemma MutKeepsInv(z: Snapshot, s: State, step: Step)
    requires Inv(z, s) && !step.GcMove? && !step.GcScan? && MutEnabled(s, step)
    ensures Inv(z, MutDo(s, step))
  {
    hide Inv, MutEnabled, MutDo;
    match step
    case AddRoot(_, _, _) => MutRoots(z, s, step);
    case DropRoot(_, _) => MutRoots(z, s, step);
    case ReadStatus(_) => MutReadsStatus(z, s, step);
    case ReadFlag(_) => MutReadsFlag(z, s, step);
    case PushRefs(_) => MutPushRefs(z, s, step);
    case SetVisited(_) => MutSetsVisited(z, s, step);
    case Store(_, _, _, _) => MutStoresInv(z, s, step);
    case Malloc(_, _, _, _) => MutMallocsInv(z, s, step);
    case _ => MutIdles(z, s, step);
  }

  lemma StepKeepsInv(z: Snapshot, s: State, step: Step)
    requires Inv(z, s) && Enabled(s, step)
    ensures Inv(z, Do(s, step))
  {
    hide Inv, GcEnabled, GcDo, MutEnabled, MutDo;
    match step
    case GcMove => GcKeepsInv(z, s);
    case GcScan(a) => GcScans(z, s, a);
    case _ => MutKeepsInv(z, s, step);
  }

  lemma {:induction false} RunKeepsInv(z: Snapshot, s: State, steps: seq<Step>, s': State)
    requires Inv(z, s) && Run(s, steps, s')
    ensures Inv(z, s')
    decreases |steps|
  {
    hide Inv, Do;
    if steps != [] {
      StepKeepsInv(z, s, steps[0]);
      RunKeepsInv(z, Do(s, steps[0]), steps[1..], s');
    }
  }
}
