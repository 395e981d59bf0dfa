/** Safety and precision of a concurrent cycle, over every interleaving. */
module CollectorSafety {
  import opened Common
  import opened Graph
  import opened ConcurrentCollector
  import opened CollectorOrder
  import opened CollectorSnapshot
  import opened CollectorInvariant

  // ---------------------------------------------------------------------------- the start state

  ghost function Shot(s: State): Snapshot {
    Snapshot(s, Led(s), Accessible(s), Live(s), WriteHeld(s.muts))
  }

  lemma InHandles(s: State)
    ensures forall id :: id in s.roots ==> s.roots[id] in Handles(s)
    ensures forall t, a :: t in s.muts && HasHandle(s.muts[t], a) ==> a in Handles(s)
    ensures forall t, a :: t in s.muts && a in s.muts[t].wlocks ==> a in WriteHeld(s.muts)
  {
    forall t, a | t in s.muts && HasHandle(s.muts[t], a) ensures a in Handles(s) {
      assert a in MutHandles(s.muts[t]);
    }
  }

  /** The closure of the given addresses under references. */
  lemma ReachIsAlive(s: State, from: set<Vaddr>)
    requires NULL_VADDR !in s.objs && from <= s.objs.Keys
    ensures var c := Reach(RefGraph(s.objs), from);
            && from <= c <= s.objs.Keys
            && forall a, b :: a in c && b in s.objs[a].refs && b in s.objs ==> b in c
  {
    ReachIsClosed(RefGraph(s.objs), from);
  }

  lemma LiveAtStart(s: State)
    requires Ready(s)
    ensures HeapAlive(Live(s), s.objs) && Elems(s.inProgress) <= Live(s)
    ensures HeapAlive(Accessible(s), s.objs) && Handles(s) <= Accessible(s) <= Live(s)
  {
    hide Reach;
    var g, from := RefGraph(s.objs), Handles(s) + Elems(s.inProgress);
    ReachIsAlive(s, Handles(s));
    ReachIsAlive(s, from);
    assert Closed(g, Handles(s), Live(s));
    ReachIsLeast(g, Handles(s), Live(s));
  }

  lemma OrderlyAtStart(s: State)
    requires Ready(s)
    ensures Orderly(Accessible(s), s)
  {
    hide Accessible, Live, Handles;
    LiveAtStart(s);
    InHandles(s);
    forall t | t in s.muts ensures MutIn(Accessible(s), s.objs, s.writer, t, s.muts[t]) {
      assert forall a :: a in s.muts[t].locals ==> HasHandle(s.muts[t], a);
    }
  }

  /** So is the larger set of all that is live. */
  lemma ReadyIsOrderly(s: State)
    requires Ready(s)
    ensures Orderly(Live(s), s) && forall a :: a in s.inProgress ==> a in Live(s)
  {
    hide Accessible, Live, HeapAlive, Ready, Owned, KnowsItsLocks, MutLocks;
    LiveAtStart(s);
    OrderlyAtStart(s);
  }

  lemma LedIsCovered(s: State, c: set<Vaddr>)
    requires NULL_VADDR !in s.objs && Covers(WriteHeld(s.muts), ViewOf(s), c)
    ensures Led(s) <= c
  {
    hide Reach, Traced, InPush;
    var g := LeadGraph(s);
    forall a, b | a in c && a in g && b in g[a] ensures b in c {
      if !(Traced(s.objs, WriteHeld(s.muts), s.muts, a) && b in s.objs[a].refs) {
        var t :| t in s.muts && Forces(s.objs, s.muts[t], a) && Visitable(s.objs, s.muts[t].phase.a, b);
        assert Forced(s.objs, s.muts[t], c);
      } else {
        assert RefsIn(s.objs, a, c);
      }
    }
    ReachIsLeast(g, Elems(s.inProgress), c);
  }

  lemma SnapshottedAtStart(s: State)
    requires Start(s)
    ensures Snapshotted(Led(s), WriteHeld(s.muts), ViewOf(s))
  {
    hide Covers, Led;
    forall c: set<Vaddr> | Covers(WriteHeld(s.muts), ViewOf(s), c) ensures WhiteWithin(Led(s), ViewOf(s), c) {
      LedIsCovered(s, c);
    }
  }

  lemma NothingGrey(s: State)
    requires Ready(s)
    ensures forall a :: a in s.objs ==> s.objs[a].status != InProgress
    ensures s.born == {}
  {
  }

  lemma ColoursAtStart(s: State)
    requires Start(s) && Clean(s)
    ensures Colours(Shot(s), s.born, s.objs, s.muts)
  {
    hide Live, Led, InVisit, Ready, Accessible;
    LiveAtStart(s);
    NothingGrey(s);
  }

  lemma WritesAtStart(s: State)
    requires Start(s)
    ensures WritesIn(WriteHeld(s.muts), s.objs, s.muts)
  {
    hide Live, Ready, Accessible, WriteHeld;
    LiveAtStart(s);
    NothingGrey(s);
    InHandles(s);
    forall t, a | t in s.muts && a in s.muts[t].wlocks ensures Writable(WriteHeld(s.muts), s.objs, a) {
      assert HasHandle(s.muts[t], a);
    }
  }

  lemma StartEstablishesInv(s: State)
    requires Start(s) && Clean(s)
    ensures Inv(Shot(s), s)
  {
    hide Live, Led, Accessible, Handles, Clean, Orderly, Snapshotted, Colours, WritesIn;
    OrderlyAtStart(s);
    LiveAtStart(s);
    SnapshottedAtStart(s);
    ColoursAtStart(s);
    WritesAtStart(s);
    assert InUse(Shot(s), s) == Accessible(s) && Known(Shot(s), s) == Live(s);
  }

  // ---------------------------------------------------------------------------- the main results

  lemma AccessibleIsUsed(u: set<Vaddr>, s: State)
    requires Orderly(u, s)
    ensures Handles(s) <= u && Accessible(s) <= u
  {
    forall a | a in Handles(s) ensures a in u {
      if a !in s.roots.Values {
        var t :| t in s.muts && a in MutHandles(s.muts[t]);
        OwnLocks(u, s, t);
        assert HasHandle(s.muts[t], a);
      }
    }
    assert Closed(RefGraph(s.objs), Handles(s), u);
    ReachIsLeast(RefGraph(s.objs), Handles(s), u);
  }

  lemma OrderIsSafe(u: set<Vaddr>, s: State)
    requires Orderly(u, s)
    ensures NoDangling(s)
  {
    hide Accessible, Handles;
    AccessibleIsUsed(u, s);
  }

  lemma InvIsSafe(z: Snapshot, s: State)
    requires Inv(z, s)
    ensures NoDangling(s) && Accessible(s) <= InUse(z, s)
  {
    hide Inv, Orderly, NoDangling, Accessible;
    InvIsOrderly(z, s);
    OrderIsSafe(InUse(z, s), s);
    AccessibleIsUsed(InUse(z, s), s);
  }

  /** What is still white once marking has seen both stacks empty was being visited from the start. */
  lemma LateIsOld(z: Snapshot, s: State, a: Vaddr)
    requires Inv(z, s) && Drained(s.gc) && a in InUse(z, s) && !Settled(s.objs, a)
    ensures InVisit(s.muts, a) && a !in z.led && a in z.used && Is(z.s0.objs, a, Unvisited)
  {
    hide HeapKnown, StacksIn, WritesIn, Snapshotted, SweepIn;
    UsedExist(InUse(z, s), s);
    assert !Is(s.objs, a, InProgress);
  }

  lemma LateAtStart(s0: State, s: State, a: Vaddr)
    requires Clean(s0) && Inv(Shot(s0), s) && Drained(s.gc) && a in InUse(Shot(s0), s) && !Settled(s.objs, a)
    ensures InVisit(s.muts, a) && InVisit(s0.muts, a) && a !in Led(s0)
  {
    hide Inv, Accessible, Led, InVisit;
    LateIsOld(Shot(s0), s, a);
  }

  lemma InvDooms(z: Snapshot, s: State)
    requires Inv(z, s) && s.gc.Free?
    ensures forall a :: a in s.gc.doomed ==> a in s.objs && a !in InUse(z, s)
  {
    hide Orderly, HeapKnown, Snapshotted;
  }

  lemma NobodyHas(u: set<Vaddr>, s: State, a: Vaddr)
    requires Orderly(u, s) && a !in u && s.gc.Free?
    ensures Unlocked(s, a)
  {
    hide HeapAlive, RootsIn;
    forall t | t in s.muts ensures !HasLock(s.muts[t], a) {
      OwnLocks(u, s, t);
    }
  }

  /** No mutator stands in the way of the sweep, and no mutator uses what it is about to free. */
  lemma SweepIsFree(z: Snapshot, s: State)
    requires Inv(z, s) && s.gc.Free?
    ensures forall a :: a in s.gc.doomed ==> a !in Accessible(s)
    ensures GcEnabled(s)
  {
    hide Inv, Orderly, Accessible, Unlocked;
    InvIsOrderly(z, s);
    InvDooms(z, s);
    AccessibleIsUsed(InUse(z, s), s);
    if s.gc.doomed != [] {
      NobodyHas(InUse(z, s), s, s.gc.doomed[|s.gc.doomed|-1]);
    }
  }

  lemma InvIsPrecise(z: Snapshot, s: State)
    requires Inv(z, s)
    ensures forall a :: a in s.inProgress || a in s.visit ==> a in z.live || a in s.born
    ensures forall a :: a in s.freed ==> MayGo(z, a)
    ensures s.gc.Done? ==> forall a :: IsGarbage(z, a) ==> a in s.freed
    ensures forall a :: IsGarbage(z, a) && a !in s.freed ==> a in s.objs && s.objs[a] == z.s0.objs[a]
  {
    hide Orderly, HeapKnown, LateIn, Colours, GreyIn, WritesIn, Snapshotted, AllSettled;
  }

  lemma RunHasInv(s0: State, steps: seq<Step>, s: State)
    requires Start(s0) && Clean(s0) && Run(s0, steps, s)
    ensures Inv(Shot(s0), s)
  {
    hide Inv, Start, Clean;
    StartEstablishesInv(s0);
    RunKeepsInv(Shot(s0), s0, steps, s);
  }

  /**
   From a clean start, whatever the interleaving: nothing a mutator knows or can reach is ever freed; once marking has
   seen both stacks empty, what a mutator can reach is newly added or black, or a mutator is about to paint it black
   that was doing so when the roots had been pushed; and the sweep waits for no mutator.
   */
  lemma CollectionIsSafe(s0: State, steps: seq<Step>, s: State)
    requires Start(s0) && Clean(s0) && Run(s0, steps, s)
    ensures NoDangling(s)
    ensures Drained(s.gc) ==> forall a :: a in Accessible(s) ==>
              Settled(s.objs, a) || (InVisit(s.muts, a) && InVisit(s0.muts, a) && a !in Led(s0))
    ensures s.gc.Free? ==> forall a :: a in s.gc.doomed ==> a !in Accessible(s)
    ensures s.gc.Free? ==> Enabled(s, GcMove)
  {
    hide Inv, Start, Clean, NoDangling, Accessible, Led, InVisit, GcEnabled, Settled;
    RunHasInv(s0, steps, s);
    InvIsSafe(Shot(s0), s);
    forall a | Drained(s.gc) && a in Accessible(s) && !Settled(s.objs, a)
      ensures InVisit(s.muts, a) && InVisit(s0.muts, a) && a !in Led(s0)
    {
      LateAtStart(s0, s, a);
    }
    if s.gc.Free? {
      SweepIsFree(Shot(s0), s);
    }
  }

  /** With nothing but handles stacked at the start, what is live is what is accessible. */
  lemma LiveIsAccessible(s: State)
    requires Elems(s.inProgress) <= Handles(s)
    ensures Live(s) == Accessible(s)
  {
    assert Handles(s) + Elems(s.inProgress) == Handles(s);
  }

  /**
   From a clean start, whatever the interleaving: only objects that were live at the start, or allocated since, are
   ever put on a stack; the garbage of the start is left as it was until it is freed; the finished cycle has freed
   white objects that nobody could use, and all of those that no stacked address led to.
   */
  lemma CollectionIsPrecise(s0: State, steps: seq<Step>, s: State)
    requires Start(s0) && Clean(s0) && Run(s0, steps, s)
    ensures forall a :: a in s.inProgress || a in s.visit ==> a in Live(s0) || a in s.born
    ensures forall a :: a in s.freed ==> Is(s0.objs, a, Unvisited) && a !in Accessible(s0)
    ensures s.gc.Done? ==> forall a :: Is(s0.objs, a, Unvisited) && a !in Live(s0) ==> a in s.freed
    ensures forall a :: Is(s0.objs, a, Unvisited) && a !in Live(s0) && a !in s.freed ==>
              a in s.objs && s.objs[a] == s0.objs[a]
    ensures s.gc.Done? && Elems(s0.inProgress) <= Handles(s0) ==>
              forall a :: a in s.freed <==> Is(s0.objs, a, Unvisited) && a !in Accessible(s0)
  {
    hide Inv, Start, Clean, Accessible, Live, Handles, Elems, Led;
    var z := Shot(s0);
    RunHasInv(s0, steps, s);
    InvIsPrecise(z, s);
    assert forall a :: IsGarbage(z, a) <==> Is(s0.objs, a, Unvisited) && a !in Live(s0);
    if Elems(s0.inProgress) <= Handles(s0) {
      LiveIsAccessible(s0);
    }
  }
}
