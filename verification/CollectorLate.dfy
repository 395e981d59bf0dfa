/** Visits that come after marking: the barrier also visits newly added objects, which marking does not wait for. */
module CollectorLate {
  import opened Common
  import opened Graph
  import opened ConcurrentCollector
  import opened CollectorOrder
  import opened CollectorInvariant
  import opened CollectorSafety
  import opened CollectorAlone
  import opened CollectorWind

  // ---------------------------------------------------------------------------- who visits late

  lemma VisitsUsed(z: Snapshot, s: State, t: nat)
    requires Inv(z, s) && t in s.muts && !s.muts[t].phase.Idle?
    ensures s.muts[t].phase.a in InUse(z, s) && NotBlack(s.objs, s.muts[t])
  {
    hide Inv, NotBlack;
    VisitedObject(z, s, t);
    InvIsOrderly(z, s);
    OwnLocks(InUse(z, s), s, t);
  }

  /** After the loop has seen both stacks empty, the visits left are of newly added objects, or were not waited for. */
  lemma LateVisitsAreOfNewObjects(s0: State, steps: seq<Step>, s: State, t: nat)
    requires Start(s0) && Clean(s0) && Run(s0, steps, s) && Drained(s.gc)
    requires t in s.muts && (s.muts[t].phase.Visiting? || s.muts[t].phase.Pushed?)
    ensures var a := s.muts[t].phase.a; Is(s.objs, a, NewlyAdded) || (InVisit(s0.muts, a) && a !in Led(s0))
  {
    hide Start, Clean, Run, Inv, Led, InVisit;
    var a := s.muts[t].phase.a;
    RunHasInv(s0, steps, s);
    VisitsUsed(Shot(s0), s, t);
    if !Settled(s.objs, a) {
      LateAtStart(s0, s, a);
    }
  }

  // ---------------------------------------------------------------------------- when the stack is left empty

  ghost predicate EmptyOnceDrained(s: State) {
    Drained(s.gc) ==> s.inProgress == []
  }

  lemma GcPushesNothing(s: State)
    requires GcEnabled(s) && !s.gc.CheckVisit? && s.inProgress == []
    ensures GcDo(s).inProgress == []
  {
    hide GcEnabled, Unlocked, NonNull;
    var s' := GcDo(s);
  }

  lemma LockingIsNotDrained(s: State)
    requires GcEnabled(s) && !KeepsLocks(s.gc)
    ensures !Drained(GcDo(s).gc)
  {
    hide GcEnabled, Unlocked, NonNull;
  }

  lemma PaintingIsNotDrained(s: State)
    requires GcEnabled(s) && (s.gc.MarkProgress? || s.gc.CheckVisit? || s.gc.FinishVisit?)
    ensures !Drained(GcDo(s).gc)
  {
    hide GcEnabled, Unlocked, NonNull, Painted;
  }

  lemma PopIsNotDrained(s: State)
    requires GcEnabled(s) && (s.gc.Outer? || s.gc.PopProgress? || s.gc.PopVisit?)
    requires !Drained(s.gc) && Drained(GcDo(s).gc)
    ensures s.gc.PopProgress? && s.inProgress == []
  {
    hide GcEnabled, Unlocked, NonNull;
  }

  lemma GcKeepsEmpty(s: State)
    requires EmptyOnceDrained(s) && GcEnabled(s)
    ensures EmptyOnceDrained(GcDo(s))
  {
    hide GcEnabled, GcDo;
    if Drained(GcDo(s).gc) {
      if !Drained(s.gc) {
        if s.gc.Outer? || s.gc.PopProgress? || s.gc.PopVisit? {
          PopIsNotDrained(s);
        } else if !KeepsLocks(s.gc) {
          LockingIsNotDrained(s);
        } else {
          PaintingIsNotDrained(s);
        }
      }
      GcPushesNothing(s);
    }
  }

  lemma MutKeepsEmpty(s: State, step: Step)
    requires EmptyOnceDrained(s) && !step.GcMove? && !step.GcScan? && MutEnabled(s, step)
    requires step.PushRefs? ==> !Drained(s.gc)
    ensures EmptyOnceDrained(MutDo(s, step))
  {
    hide NonNull;
  }

  lemma StepKeepsEmpty(s: State, step: Step)
    requires EmptyOnceDrained(s) && Enabled(s, step) && (step.PushRefs? ==> !Drained(s.gc))
    ensures EmptyOnceDrained(Do(s, step))
  {
    hide GcDo, GcEnabled, MutDo, MutEnabled;
    match step
    case GcMove => GcKeepsEmpty(s);
    case GcScan(_) =>
    case _ => MutKeepsEmpty(s, step);
  }

  /** No mutator pushes the references of a newly added object. */
  ghost predicate PushesNothingNew(s: State, steps: seq<Step>, s': State)
    requires Run(s, steps, s')
    decreases |steps|
  {
    steps == [] ||
    (&& (steps[0].PushRefs? ==> !Is(s.objs, s.muts[steps[0].t].phase.a, NewlyAdded))
     && PushesNothingNew(Do(s, steps[0]), steps[1..], s'))
  }

  lemma {:induction false} StaysEmpty(s0: State, past: seq<Step>, s: State, steps: seq<Step>, s': State)
    requires Start(s0) && Clean(s0) && forall a :: InVisit(s0.muts, a) ==> a in Led(s0)
    requires Run(s0, past, s) && EmptyOnceDrained(s) && Run(s, steps, s') && PushesNothingNew(s, steps, s')
    ensures EmptyOnceDrained(s')
    decreases |steps|
  {
    hide Start, Clean, InVisit, Led, EmptyOnceDrained, Do;
    if steps != [] {
      var step := steps[0];
      if step.PushRefs? && Drained(s.gc) {
        LateVisitsAreOfNewObjects(s0, past, s, step.t);
      }
      StepKeepsEmpty(s, step);
      RunLast(s0, past, s, step);
      StaysEmpty(s0, past + [step], Do(s, step), steps[1..], s');
    }
  }

  /**
   A cycle in which the barrier visits nothing that is newly added leaves the in-progress stack empty, unless a mutator is
   visiting an object at the start that marking would not come to.
   */
  lemma LeftEmptyUnlessNewIsVisited(s0: State, steps: seq<Step>, s: State)
    requires Start(s0) && Clean(s0) && Run(s0, steps, s) && s.gc.Done?
    requires forall a :: InVisit(s0.muts, a) ==> a in Led(s0)
    requires PushesNothingNew(s0, steps, s)
    ensures s.inProgress == []
  {
    hide Clean, Led, InVisit, PushesNothingNew;
    StaysEmpty(s0, [], s0, steps, s);
  }

  lemma {:induction false} NoMutatorNoPush(s: State, steps: seq<Step>, s': State)
    requires s.muts == map[] && Run(s, steps, s')
    ensures PushesNothingNew(s, steps, s')
    decreases |steps|
  {
    hide GcDo, GcEnabled, MutDo;
    if steps != [] {
      assert steps[0].GcMove? || steps[0].GcScan?;
      if steps[0].GcMove? {
        GcKeepsMuts(s);
      }
      NoMutatorNoPush(Do(s, steps[0]), steps[1..], s');
    }
  }

  // ---------------------------------------------------------------------------- a late visit

  lemma {:induction false} TablesBelow(vs: set<Vaddr>) returns (n: nat)
    ensures forall v :: v in vs ==> v.table < n
    decreases vs
  {
    n := 0;
    if vs != {} {
      var v := SomeOf(vs);
      n := TablesBelow(vs - {v});
      n := if n <= v.table then v.table + 1 else n;
      assert forall w :: w in vs ==> w == v || w in vs - {v};
    }
  }

  lemma FreshVaddr(vs: set<Vaddr>) returns (b: Vaddr)
    ensures b !in vs
  {
    var n := TablesBelow(vs);
    b := Vaddr(n, 0);
  }

  /** The collector is about to clear the flag, and nobody has a lock. */
  ghost predicate AtTheEnd(c: State, t: nat, b: Vaddr) {
    && c.gc.ClearFlag? && c.flag && c.writer == map[] && AllIdle(c.muts)
    && t in c.muts && b !in c.objs && b != NULL_VADDR
  }

  /** c, in which t has allocated b: its locks and phase, the object, and the rest of the stack. */
  function WithNew(c: State, t: nat, b: Vaddr, wlocks: set<Vaddr>, phase: Phase, x: Obj, more: seq<Vaddr>): State
    requires t in c.muts
  {
    c.(
      muts := c.muts[t := Mutator(c.muts[t].locals + {b}, {}, wlocks, phase)],
      objs := c.objs[b := x],
      writer := if b in wlocks || !phase.Idle? then map[b := Mut(t)] else map[],
      inProgress := c.inProgress + more,
      born := c.born + {b})
  }

  /** A late visit: t allocates b, makes it refer to itself, unlocks it, and takes the lock again. */
  function LateState(c: State, t: nat, b: Vaddr, k: nat): State
    requires t in c.muts
  {
    var bare, filled, black := Obj(NewlyAdded, [NULL_VADDR], []), Obj(NewlyAdded, [b], []), Obj(Visited, [b], []);
    match k
    case 0 => WithNew(c, t, b, {b}, Idle, bare, [])
    case 1 => WithNew(c, t, b, {b}, Idle, filled, [])
    case 2 => WithNew(c, t, b, {}, Idle, filled, [])
    case 3 => WithNew(c, t, b, {}, Locked(b), filled, [])
    case 4 => WithNew(c, t, b, {}, Seen(b), filled, [])
    case 5 => WithNew(c, t, b, {}, Visiting(b), filled, [])
    case 6 => WithNew(c, t, b, {}, Pushed(b), filled, [b])
    case 7 => WithNew(c, t, b, {b}, Idle, black, [b])
    case _ => WithNew(c, t, b, {}, Idle, black, [b])
  }

  function LateStep(t: nat, b: Vaddr, k: nat): Step {
    match k
    case 0 => Store(t, b, 0, b)
    case 1 => UnlockWrite(t, b)
    case 2 => LockWrite(t, b)
    case 3 => ReadStatus(t)
    case 4 => ReadFlag(t)
    case 5 => PushRefs(t)
    case 6 => SetVisited(t)
    case _ => UnlockWrite(t, b)
  }

  /** The k-th step leads to the next state. */
  ghost predicate Leads(c: State, t: nat, b: Vaddr, k: nat)
    requires t in c.muts
  {
    var s, step := LateState(c, t, b, k), LateStep(t, b, k);
    Enabled(s, step) && Do(s, step) == LateState(c, t, b, k + 1)
  }

  lemma SetTwice(c: State, t: nat, b: Vaddr, wlocks: set<Vaddr>, phase: Phase, x: Obj, more: seq<Vaddr>, s': State)
    requires t in c.muts && t in s'.muts && s'.muts == c.muts[t := s'.muts[t]]
    requires b in s'.objs && s'.objs == c.objs[b := s'.objs[b]]
    ensures var s := WithNew(c, t, b, wlocks, phase, x, more);
            s'.muts == s.muts[t := s'.muts[t]] && s'.objs == s.objs[b := s'.objs[b]]
  {
  }

  lemma LateMalloc(c: State, t: nat, b: Vaddr)
    requires AtTheEnd(c, t, b)
    ensures Enabled(c, Malloc(t, b, 1, [])) && Do(c, Malloc(t, b, 1, [])) == LateState(c, t, b, 0)
  {
    assert Nulls(1) == [NULL_VADDR];
    assert NoLocks(c.muts[t]);
    assert {} + {b} == {b} && c.inProgress + [] == c.inProgress;
  }

  lemma LateStore(c: State, t: nat, b: Vaddr)
    requires AtTheEnd(c, t, b)
    ensures Leads(c, t, b, 0)
  {
    SetTwice(c, t, b, {b}, Idle, Obj(NewlyAdded, [NULL_VADDR], []), [], LateState(c, t, b, 1));
    assert [NULL_VADDR][0 := b] == [b];
  }

  lemma GivesBack(c: State, t: nat, b: Vaddr, x: Obj, more: seq<Vaddr>)
    requires AtTheEnd(c, t, b)
    ensures var s := WithNew(c, t, b, {b}, Idle, x, more);
            Enabled(s, UnlockWrite(t, b)) && Do(s, UnlockWrite(t, b)) == WithNew(c, t, b, {}, Idle, x, more)
  {
    SetTwice(c, t, b, {b}, Idle, x, more, WithNew(c, t, b, {}, Idle, x, more));
    assert {b} - {b} == {} && map[b := Mut(t)] - {b} == map[];
  }

  lemma LateUnlock(c: State, t: nat, b: Vaddr, k: nat)
    requires AtTheEnd(c, t, b) && (k == 1 || k == 7)
    ensures Leads(c, t, b, k)
  {
    hide Enabled, Do, WithNew;
    if k == 1 {
      GivesBack(c, t, b, Obj(NewlyAdded, [b], []), []);
    } else {
      GivesBack(c, t, b, Obj(Visited, [b], []), [b]);
    }
  }

  lemma LateLock(c: State, t: nat, b: Vaddr)
    requires AtTheEnd(c, t, b)
    ensures Leads(c, t, b, 2)
  {
    SetTwice(c, t, b, {}, Idle, Obj(NewlyAdded, [b], []), [], LateState(c, t, b, 3));
    assert forall k :: k in c.muts ==> NoLocks(c.muts[k]);
  }

  lemma LateLooks(c: State, t: nat, b: Vaddr, k: nat)
    requires AtTheEnd(c, t, b) && (k == 3 || k == 4)
    ensures Leads(c, t, b, k)
  {
    hide NonNull;
    SetTwice(c, t, b, {}, if k == 3 then Locked(b) else Seen(b), Obj(NewlyAdded, [b], []), [], LateState(c, t, b, k + 1));
  }

  lemma LatePush(c: State, t: nat, b: Vaddr)
    requires AtTheEnd(c, t, b)
    ensures Leads(c, t, b, 5)
  {
    SetTwice(c, t, b, {}, Visiting(b), Obj(NewlyAdded, [b], []), [], LateState(c, t, b, 6));
    assert NonNull([b]) == [b] + NonNull([]);
    assert c.inProgress + [] + [b] == c.inProgress + [b];
  }

  lemma LateVisited(c: State, t: nat, b: Vaddr)
    requires AtTheEnd(c, t, b)
    ensures Leads(c, t, b, 6)
  {
    hide NonNull;
    SetTwice(c, t, b, {}, Pushed(b), Obj(NewlyAdded, [b], []), [b], LateState(c, t, b, 7));
    assert {} + {b} == {b};
  }

  lemma LateMoves(c: State, t: nat, b: Vaddr, k: nat)
    requires AtTheEnd(c, t, b) && k < 8
    ensures Leads(c, t, b, k)
  {
    hide AtTheEnd, LateState, Enabled, Do, Leads;
    match k
    case 0 => LateStore(c, t, b);
    case 1 => LateUnlock(c, t, b, 1);
    case 2 => LateLock(c, t, b);
    case 3 => LateLooks(c, t, b, 3);
    case 4 => LateLooks(c, t, b, 4);
    case 5 => LatePush(c, t, b);
    case 6 => LateVisited(c, t, b);
    case _ => LateUnlock(c, t, b, 7);
  }

  /** The mutator visits an object of its own: in the end it has no lock, and the object's address is on the stack. */
  lemma VisitsLate(c: State, t: nat, b: Vaddr) returns (p: seq<Step>)
    requires AtTheEnd(c, t, b)
    ensures Run(c, p, LateState(c, t, b, 8))
  {
    hide Run, AllIdle, LateState, Enabled, Do;
    NoSteps(c);
    LateMalloc(c, t, b);
    RunLast(c, [], c, Malloc(t, b, 1, []));
    p := [] + [Malloc(t, b, 1, [])];
    for k := 0 to 8
      invariant Run(c, p, LateState(c, t, b, k))
    {
      LateMoves(c, t, b, k);
      RunLast(c, p, LateState(c, t, b, k), LateStep(t, b, k));
      p := p + [LateStep(t, b, k)];
    }
  }

  lemma LateIsOver(c: State, t: nat, b: Vaddr)
    requires AtTheEnd(c, t, b)
    ensures var s := LateState(c, t, b, 8); s.gc.ClearFlag? && AllIdle(s.muts) && s.inProgress != []
  {
  }

  /** From any clean start with mutators, they wind down and the collector marks by itself, to the end of the loop. */
  lemma ComesToTheEnd(s0: State) returns (p: seq<Step>, c: State)
    requires Start(s0) && Clean(s0)
    ensures Run(s0, p, c) && c.gc.ClearFlag? && AllIdle(c.muts) && c.muts.Keys == s0.muts.Keys
  {
    hide Clean, Run, Inv, Orderly, Accessible, AloneIn, WindRun;
    var u := Accessible(s0);
    OrderlyAtStart(s0);
    LocksInHeap(u, s0);
    var q, m := WindAll(u, s0.objs.Keys, s0, s0.muts.Keys);
    WindRuns(s0.objs.Keys, s0, q, m);
    RunHasInv(s0, q, m);
    InvIsAlone(Shot(s0), m);
    var r;
    r, c := MarkingEnds(u, Known(Shot(s0), m), m);
    RunThen(s0, q, m, r, c);
    p := q + r;
  }

  lemma EndIsQuiet(s0: State, p: seq<Step>, c: State)
    requires Start(s0) && Clean(s0) && Run(s0, p, c) && c.gc.ClearFlag? && AllIdle(c.muts)
    ensures c.writer == map[] && c.flag && Enabled(c, GcMove) && Sweepable(Do(c, GcMove)) && Do(c, GcMove).gc.Scan?
  {
    hide Start, Clean, Inv, Orderly, AllIdle, Sweepable;
    RunHasInv(s0, p, c);
    InvIsOrderly(Shot(s0), c);
    NobodyWrites(InUse(Shot(s0), c), c);
    ClearsFlag(InUse(Shot(s0), c), c);
    FlagIsMarking(Shot(s0), c);
  }

  lemma FlagIsMarking(z: Snapshot, s: State)
    requires Inv(z, s)
    ensures s.flag == Marking(s.gc)
  {
  }

  /**
   A finished cycle need not leave the in-progress stack empty, from any clean start with a mutator, and with every lock
   given back: the visit of a newly added object may come after the stack was found empty.
   */
  lemma StackMayBeLeftOver(s0: State, t: nat) returns (steps: seq<Step>, s: State)
    requires Start(s0) && Clean(s0) && t in s0.muts
    ensures Run(s0, steps, s) && s.gc.Done? && s.inProgress != [] && AllIdle(s.muts)
  {
    hide Start, Clean, Run, AllIdle, Sweepable, GcEnabled, LateState;
    var p, c := ComesToTheEnd(s0);
    EndIsQuiet(s0, p, c);
    var b := FreshVaddr(c.objs.Keys + {NULL_VADDR});
    var q := VisitsLate(c, t, b);
    var d := LateState(c, t, b, 8);
    LateIsOver(c, t, b);
    RunThen(s0, p, c, q, d);
    EndIsQuiet(s0, p + q, d);
    var r;
    r, s := SweepEnds(Do(d, GcMove));
    RunFirst(d, GcMove, r, s);
    RunThen(s0, p + q, d, [GcMove] + r, s);
    steps := p + q + ([GcMove] + r);
  }

  ghost predicate AlwaysLeftEmpty(s0: State) {
    forall steps, s :: Run(s0, steps, s) && s.gc.Done? ==> s.inProgress == []
  }

  /** Every finished cycle leaves the in-progress stack empty if and only if there is no mutator. */
  lemma LeftEmptyExactlyWithoutMutators(s0: State)
    requires Start(s0) && Clean(s0)
    ensures AlwaysLeftEmpty(s0) <==> s0.muts == map[]
  {
    hide Clean, Run, Led;
    if s0.muts == map[] {
      forall steps, s | Run(s0, steps, s) && s.gc.Done? ensures s.inProgress == [] {
        NoMutatorNoPush(s0, steps, s);
        LeftEmptyUnlessNewIsVisited(s0, steps, s);
      }
    } else {
      assert s0.muts.Keys != {};
      var t := SomeOf(s0.muts.Keys);
      var steps, s := StackMayBeLeftOver(s0, t);
      assert Run(s0, steps, s);
    }
  }
}
