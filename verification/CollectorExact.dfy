/** How exact the hypothesis of the safety theorem is: from every unclean start, some run loses an object. */
module CollectorExact {
  import opened Common
  import opened Graph
  import opened ConcurrentCollector
  import opened CollectorOrder
  import opened CollectorSnapshot
  import opened CollectorInvariant
  import opened CollectorSafety
  import opened CollectorAlone
  import opened CollectorWind

  ghost predicate AlwaysSafe(s0: State) {
    forall steps, s :: Run(s0, steps, s) ==> NoDangling(s)
  }

  // ---------------------------------------------------------------------------- what a run keeps within reach

  ghost predicate KnownToSome(muts: map<nat, Mutator>, b: Vaddr) {
    exists t :: t in muts && b in muts[t].locals
  }

  /** What objects referred to at the start they still refer to, or a mutator knows it. */
  ghost predicate RefsKept(s0: State, objs: Heap, muts: map<nat, Mutator>) {
    forall x, b :: x in objs && x in s0.objs && b in s0.objs[x].refs ==>
      b == NULL_VADDR || b in objs[x].refs || KnownToSome(muts, b)
  }

  ghost predicate LocalsKept(s0: State, muts: map<nat, Mutator>) {
    muts.Keys == s0.muts.Keys && forall t :: t in muts ==> s0.muts[t].locals <= muts[t].locals
  }

  ghost predicate Remembers(s0: State, s: State) {
    && s.roots == s0.roots
    && LocalsKept(s0, s.muts)
    && s.objs.Keys <= s0.objs.Keys
    && RefsKept(s0, s.objs, s.muts)
  }

  lemma HandlesAreKept(s0: State, s: State)
    requires Remembers(s0, s) && forall t :: t in s0.muts ==> KnowsItsLocks(s0.muts[t])
    ensures Handles(s0) <= Handles(s)
  {
    InHandles(s);
    forall a | a in Handles(s0) ensures a in Handles(s) {
      if a in s0.roots.Values {
        var id :| id in s0.roots && s0.roots[id] == a;
        assert s.roots[id] in s.roots.Values;
      } else {
        var t :| t in s0.muts && a in MutHandles(s0.muts[t]);
        assert a in s0.muts[t].locals && HasHandle(s.muts[t], a);
      }
    }
  }

  lemma KnownIsHandle(s: State, b: Vaddr)
    requires KnownToSome(s.muts, b)
    ensures b in Handles(s)
  {
    InHandles(s);
    var t :| t in s.muts && b in s.muts[t].locals;
    assert HasHandle(s.muts[t], b);
  }

  /** Where nothing dangles, everything that was accessible at the start still exists. */
  lemma NoDanglingKeepsAll(s0: State, s: State)
    requires Remembers(s0, s) && forall t :: t in s0.muts ==> KnowsItsLocks(s0.muts[t])
    requires NULL_VADDR !in s0.objs && NoDangling(s)
    ensures Accessible(s0) <= s.objs.Keys
  {
    hide Reach, Handles, KnowsItsLocks;
    HandlesAreKept(s0, s);
    var g0, c := RefGraph(s0.objs), Accessible(s);
    ReachIsAlive(s, Handles(s));
    forall x, b | x in c && x in g0 && b in g0[x] && b in g0 ensures b in c {
      if KnownToSome(s.muts, b) {
        KnownIsHandle(s, b);
      }
    }
    ReachIsLeast(g0, Handles(s0), c);
  }

  // ---------------------------------------------------------------------------- an object that marking passes by

  /** From the start state s0, marking does not come out of led, so that it does not come to a. */
  datatype Trap = Trap(s0: State, led: set<Vaddr>, a: Vaddr)

  ghost predicate WhiteLed(led: set<Vaddr>, objs: Heap, muts: map<nat, Mutator>) {
    forall x {:trigger RefsIn(objs, x, led)} ::
      x in led && (Is(objs, x, Unvisited) || Is(objs, x, InProgress)) && x !in WriteHeld(muts) && !InPush(muts, x) ==>
        RefsIn(objs, x, led)
  }

  /** A mutator that the collector may have to wait for visits an object in led. */
  ghost predicate ForcedLed(led: set<Vaddr>, objs: Heap, m: Mutator) {
    LockIn(m, led) && WillVisit(objs, m) ==> m.phase.a in led && RefsIn(objs, m.phase.a, led)
  }

  ghost predicate AllForcedLed(led: set<Vaddr>, objs: Heap, muts: map<nat, Mutator>) {
    forall t :: t in muts ==> ForcedLed(led, objs, muts[t])
  }

  ghost predicate LedIn(led: set<Vaddr>, s: State) {
    && led <= s.objs.Keys
    && StacksWithin(led, s.inProgress, s.visit, s.gc)
    && WhiteLed(led, s.objs, s.muts)
    && AllForcedLed(led, s.objs, s.muts)
  }

  /** a is white, and nobody is about to visit it. */
  ghost predicate PassedBy(a: Vaddr, objs: Heap, muts: map<nat, Mutator>) {
    Is(objs, a, Unvisited) && !InVisit(muts, a)
  }

  ghost predicate Trapped(z: Trap, s: State) {
    && z.a !in z.led
    && Remembers(z.s0, s)
    && PassedBy(z.a, s.objs, s.muts)
    && (s.flag ==> LedIn(z.led, s))
  }

  // ---------------------------------------------------------------------------- winding down

  /** Of the mutators, t becomes m: it visits nothing new, and what it unlocks has been erased. */
  ghost predicate Calms(led: set<Vaddr>, objs: Heap, m: Mutator, m': Mutator) {
    && (LockIn(m', led) && WillVisit(objs, m') ==> LockIn(m, led) && WillVisit(objs, m) && m'.phase.a == m.phase.a)
    && (forall x :: x in m.wlocks && x !in m'.wlocks ==> RefsIn(objs, x, led))
    && (m.phase.Pushed? ==> m'.phase == m.phase)
  }

  lemma CalmLed(led: set<Vaddr>, objs: Heap, muts: map<nat, Mutator>, t: nat, m: Mutator)
    requires WhiteLed(led, objs, muts) && AllForcedLed(led, objs, muts) && t in muts && Calms(led, objs, muts[t], m)
    ensures WhiteLed(led, objs, muts[t := m]) && AllForcedLed(led, objs, muts[t := m])
  {
    hide RefsIn, LockIn, WillVisit;
    var muts' := muts[t := m];
    forall x | x in led && x !in WriteHeld(muts') && !InPush(muts', x) && x in WriteHeld(muts)
      ensures RefsIn(objs, x, led)
    {
      var k :| k in muts && x in muts[k].wlocks;
      assert x !in muts'[k].wlocks;
    }
    forall x | InPush(muts, x) ensures InPush(muts', x) {
      var k :| k in muts && muts[k].phase == Pushed(x);
      assert muts'[k].phase == Pushed(x);
    }
  }

  lemma MoreKnown(s0: State, s: State, s': State, t: nat)
    requires Remembers(s0, s) && OnlyActs(s, s', t)
    ensures s'.roots == s0.roots && LocalsKept(s0, s'.muts) && s'.objs.Keys <= s0.objs.Keys
    ensures forall b :: KnownToSome(s.muts, b) ==> KnownToSome(s'.muts, b)
  {
    forall b | KnownToSome(s.muts, b) ensures KnownToSome(s'.muts, b) {
      var k :| k in s.muts && b in s.muts[k].locals;
      assert b in s'.muts[k].locals;
    }
  }

  lemma MutRemembers(z: Trap, c: set<Vaddr>, s: State, step: Step)
    requires Trapped(z, s) && Enabled(s, step) && Winds(c, s, step) && !step.Store? && !step.SetVisited?
    ensures Do(s, step).objs == s.objs && Remembers(z.s0, Do(s, step))
  {
    hide KnownToSome, LocalsKept, LockIn, LedIn, PassedBy, NonNull, OnlyActs;
    WindActs(c, s, step);
    MoreKnown(z.s0, s, Do(s, step), step.t);
  }

  /** Those steps that take no part in the barrier. */
  lemma PlainStep(z: Trap, c: set<Vaddr>, s: State, step: Step)
    requires Trapped(z, s) && Enabled(s, step) && Winds(c, s, step)
    requires step.UnlockRead? || step.Load? || step.UnlockWrite?
    ensures Trapped(z, Do(s, step))
  {
    hide Remembers, PassedBy, StacksWithin, WhiteLed, AllForcedLed;
    MutRemembers(z, c, s, step);
    var t, m, m' := step.t, s.muts[step.t], Do(s, step).muts[step.t];
    assert s.muts[t := m] == s.muts;
    PassedOn(z.a, s.objs, s.muts, t, m');
    if s.flag {
      if LockIn(m', z.led) {
        var y :| y in z.led && HasLock(m', y);
        assert HasLock(m, y);
      }
      CalmLed(z.led, s.objs, s.muts, t, m');
    }
  }

  lemma PassedOn(a: Vaddr, objs: Heap, muts: map<nat, Mutator>, t: nat, m: Mutator)
    requires PassedBy(a, objs, muts) && t in muts && (Visits(m, a) ==> Visits(muts[t], a))
    ensures PassedBy(a, objs, muts[t := m])
  {
    var muts' := muts[t := m];
    forall k | k in muts' ensures !Visits(muts'[k], a) {
      assert !Visits(muts[k], a);
    }
  }

  lemma SameLockIn(m: Mutator, m': Mutator, c: set<Vaddr>)
    requires forall y :: HasLock(m', y) ==> HasLock(m, y)
    ensures LockIn(m', c) ==> LockIn(m, c)
  {
  }

  lemma LooksAtStatus(z: Trap, c: set<Vaddr>, s: State, step: Step)
    requires Trapped(z, s) && Enabled(s, step) && Winds(c, s, step) && step.ReadStatus?
    ensures Trapped(z, Do(s, step))
  {
    hide Remembers, PassedBy, StacksWithin, WhiteLed, AllForcedLed, LockIn;
    MutRemembers(z, c, s, step);
    var t, m, m' := step.t, s.muts[step.t], Do(s, step).muts[step.t];
    PassedOn(z.a, s.objs, s.muts, t, m');
    SameLockIn(m, m', z.led);
    if s.flag {
      CalmLed(z.led, s.objs, s.muts, t, m');
    }
  }

  lemma ForcedObject(z: Trap, s: State, t: nat)
    requires Trapped(z, s) && s.flag && t in s.muts && LockIn(s.muts[t], z.led) && WillVisit(s.objs, s.muts[t])
    ensures s.muts[t].phase.a in z.led && s.muts[t].phase.a != z.a && RefsIn(s.objs, s.muts[t].phase.a, z.led)
  {
    assert ForcedLed(z.led, s.objs, s.muts[t]);
  }

  lemma LooksAtFlag(z: Trap, c: set<Vaddr>, s: State, step: Step)
    requires Trapped(z, s) && Enabled(s, step) && Winds(c, s, step) && step.ReadFlag? && (s.flag ==> c == z.led)
    ensures Trapped(z, Do(s, step))
  {
    hide Remembers, PassedBy, StacksWithin, WhiteLed, AllForcedLed, LockIn;
    MutRemembers(z, c, s, step);
    var t, m, m' := step.t, s.muts[step.t], Do(s, step).muts[step.t];
    SameLockIn(m, m', z.led);
    if s.flag {
      ForcedObject(z, s, t);
      CalmLed(z.led, s.objs, s.muts, t, m');
    }
    PassedOn(z.a, s.objs, s.muts, t, m');
  }

  lemma Pushes(z: Trap, c: set<Vaddr>, s: State, step: Step)
    requires Trapped(z, s) && Enabled(s, step) && Winds(c, s, step) && step.PushRefs? && (s.flag ==> c == z.led)
    ensures Trapped(z, Do(s, step))
  {
    hide Remembers, PassedBy, WhiteLed, AllForcedLed, LockIn;
    MutRemembers(z, c, s, step);
    var t, m, m' := step.t, s.muts[step.t], Do(s, step).muts[step.t];
    SameLockIn(m, m', z.led);
    PassedOn(z.a, s.objs, s.muts, t, m');
    if s.flag {
      ForcedObject(z, s, t);
      CalmLed(z.led, s.objs, s.muts, t, m');
    }
  }

  /** t blackens the object whose references it has pushed. */
  lemma BlackLed(led: set<Vaddr>, objs: Heap, muts: map<nat, Mutator>, t: nat, m: Mutator)
    requires WhiteLed(led, objs, muts) && AllForcedLed(led, objs, muts) && led <= objs.Keys
    requires t in muts && muts[t].phase.Pushed? && muts[t].phase.a in objs && m.phase.Idle? && muts[t].wlocks <= m.wlocks
    ensures var objs' := Painted(objs, muts[t].phase.a, Visited);
            WhiteLed(led, objs', muts[t := m]) && AllForcedLed(led, objs', muts[t := m])
  {
    hide LockIn;
    var x, muts', objs' := muts[t].phase.a, muts[t := m], Painted(objs, muts[t].phase.a, Visited);
    forall y | && y in led && (Is(objs', y, Unvisited) || Is(objs', y, InProgress))
               && y !in WriteHeld(muts') && !InPush(muts', y)
      ensures RefsIn(objs', y, led)
    {
      forall k | k in muts ensures y !in muts[k].wlocks && muts[k].phase != Pushed(y) {
        assert y != x && y !in muts'[k].wlocks && muts'[k].phase != Pushed(y);
      }
      RefsInMore(objs', objs, y, led, led);
    }
    forall k | k in muts' ensures ForcedLed(led, objs', muts'[k]) {
      if k != t && LockIn(muts[k], led) && WillVisit(objs', muts[k]) {
        assert ForcedLed(led, objs, muts[k]);
        RefsInMore(objs', objs, muts[k].phase.a, led, led);
      }
    }
  }

  lemma Blackens(z: Trap, c: set<Vaddr>, s: State, step: Step)
    requires Trapped(z, s) && Enabled(s, step) && Winds(c, s, step) && step.SetVisited?
    ensures Trapped(z, Do(s, step))
  {
    hide KnownToSome, LocalsKept, LockIn, StacksWithin, WhiteLed, AllForcedLed, OnlyActs, InVisit;
    var t, m, m' := step.t, s.muts[step.t], Do(s, step).muts[step.t];
    WindActs(c, s, step);
    MoreKnown(z.s0, s, Do(s, step), t);
    assert m.phase.a != z.a by {
      PassedIsNotVisited(z.a, s.objs, s.muts, t);
    }
    PassedOn(z.a, s.objs, s.muts, t, m');
    if s.flag {
      BlackLed(z.led, s.objs, s.muts, t, m');
    }
  }

  lemma PassedIsNotVisited(a: Vaddr, objs: Heap, muts: map<nat, Mutator>, t: nat)
    requires PassedBy(a, objs, muts) && t in muts
    ensures !Visits(muts[t], a)
  {
  }

  lemma ErasedLed(led: set<Vaddr>, objs: Heap, muts: map<nat, Mutator>, x: Vaddr, i: nat)
    requires WhiteLed(led, objs, muts) && AllForcedLed(led, objs, muts) && x in objs && i < |objs[x].refs|
    ensures var objs' := objs[x := objs[x].(refs := objs[x].refs[i := NULL_VADDR])];
            WhiteLed(led, objs', muts) && AllForcedLed(led, objs', muts)
  {
    hide LockIn, WriteHeld, InPush;
    var objs' := objs[x := objs[x].(refs := objs[x].refs[i := NULL_VADDR])];
    assert forall y :: RefsIn(objs, y, led) ==> RefsIn(objs', y, led);
    forall t | t in muts ensures ForcedLed(led, objs', muts[t]) {
      assert ForcedLed(led, objs, muts[t]);
    }
  }

  lemma ErasedKept(s0: State, objs: Heap, muts: map<nat, Mutator>, x: Vaddr, i: nat)
    requires RefsKept(s0, objs, muts) && x in objs && i < |objs[x].refs|
    requires objs[x].refs[i] == NULL_VADDR || KnownToSome(muts, objs[x].refs[i])
    ensures RefsKept(s0, objs[x := objs[x].(refs := objs[x].refs[i := NULL_VADDR])], muts)
  {
    hide KnownToSome;
    var refs, refs' := objs[x].refs, objs[x].refs[i := NULL_VADDR];
    forall b | b in refs && b != refs[i] ensures b in refs' {
      var j :| 0 <= j < |refs| && refs[j] == b;
      assert refs'[j] == b;
    }
  }

  lemma ErasesRef(z: Trap, c: set<Vaddr>, s: State, step: Step)
    requires Trapped(z, s) && Enabled(s, step) && Winds(c, s, step) && step.Store?
    ensures Trapped(z, Do(s, step))
  {
    hide RefsKept, LocalsKept, LockIn, StacksWithin, WhiteLed, AllForcedLed, InVisit;
    ErasedKept(z.s0, s.objs, s.muts, step.a, step.i);
    if s.flag {
      ErasedLed(z.led, s.objs, s.muts, step.a, step.i);
    }
  }

  lemma WindTraps(z: Trap, c: set<Vaddr>, s: State, step: Step)
    requires Trapped(z, s) && Enabled(s, step) && Winds(c, s, step) && (s.flag ==> c == z.led)
    ensures Trapped(z, Do(s, step)) && Do(s, step).flag == s.flag
  {
    hide Trapped, Do, MutEnabled, LockIn;
    WindActs(c, s, step);
    match step
    case ReadStatus(_) => LooksAtStatus(z, c, s, step);
    case ReadFlag(_) => LooksAtFlag(z, c, s, step);
    case PushRefs(_) => Pushes(z, c, s, step);
    case SetVisited(_) => Blackens(z, c, s, step);
    case Store(_, _, _, _) => ErasesRef(z, c, s, step);
    case _ => PlainStep(z, c, s, step);
  }

  lemma {:induction false} WindRunTraps(z: Trap, c: set<Vaddr>, s: State, steps: seq<Step>, s': State)
    requires Trapped(z, s) && WindRun(c, s, steps, s') && (s.flag ==> c == z.led)
    ensures Trapped(z, s')
    decreases |steps|
  {
    hide Trapped, Do, Enabled, Winds;
    if steps != [] {
      WindTraps(z, c, s, steps[0]);
      WindRunTraps(z, c, Do(s, steps[0]), steps[1..], s');
    }
  }

  // ---------------------------------------------------------------------------- the run that loses the object

  lemma LedIsLive(s: State)
    requires Start(s)
    ensures Led(s) <= Live(s) && Elems(s.inProgress) <= Led(s)
    ensures Closed(LeadGraph(s), Elems(s.inProgress), Led(s))
  {
    hide Reach, HasLock, InPush, Handles;
    LiveAtStart(s);
    var g, c := LeadGraph(s), Live(s);
    forall a, b | a in c && a in g && b in g[a] && b in g ensures b in c {
      if t :| t in s.muts && Forces(s.objs, s.muts[t], a) && Visitable(s.objs, s.muts[t].phase.a, b) {
        ForcesHandle(s, t, a);
      }
    }
    ReachIsLeast(g, Elems(s.inProgress), c);
    ReachIsClosed(g, Elems(s.inProgress));
  }

  lemma ForcesHandle(s: State, t: nat, a: Vaddr)
    requires t in s.muts && Forces(s.objs, s.muts[t], a)
    ensures s.muts[t].phase.a in Handles(s)
  {
    InHandles(s);
    assert HasHandle(s.muts[t], s.muts[t].phase.a);
  }

  lemma LedAtStart(s: State)
    requires Start(s)
    ensures LedIn(Led(s), s)
  {
    hide Live, Led, Handles, Closed, InPush, LeadGraph;
    LedIsLive(s);
    LiveAtStart(s);
    NothingGrey(s);
    OuterAtStart(s);
    var led := Led(s);
    forall x | && x in led && (Is(s.objs, x, Unvisited) || Is(s.objs, x, InProgress))
               && x !in WriteHeld(s.muts) && !InPush(s.muts, x)
      ensures RefsIn(s.objs, x, led)
    {
      LeadsToRefs(s, x);
    }
    forall t | t in s.muts ensures ForcedLed(led, s.objs, s.muts[t]) {
      if y :| y in led && HasLock(s.muts[t], y) && WillVisit(s.objs, s.muts[t]) {
        LeadsToForced(s, t, y);
      }
    }
  }

  lemma OuterAtStart(s: State)
    requires Start(s)
    ensures s.gc == Outer(true) && s.visit == []
  {
  }

  lemma LeadsToRefs(s: State, x: Vaddr)
    requires Start(s) && x in Led(s) && Traced(s.objs, WriteHeld(s.muts), s.muts, x)
    ensures RefsIn(s.objs, x, Led(s))
  {
    hide Live, Led, Handles, Ready, Accessible, Reach;
    LedIsLive(s);
    LiveAtStart(s);
    var g := LeadGraph(s);
    forall b | b in s.objs[x].refs && b != NULL_VADDR ensures b in Led(s) {
      assert b in g[x] && b in g;
    }
  }

  lemma LeadsToForced(s: State, t: nat, y: Vaddr)
    requires Start(s) && t in s.muts && y in Led(s) && Forces(s.objs, s.muts[t], y)
    ensures s.muts[t].phase.a in Led(s) && RefsIn(s.objs, s.muts[t].phase.a, Led(s))
  {
    hide Live, Led, Handles, Traced, Ready, Accessible, Reach;
    LedIsLive(s);
    LiveAtStart(s);
    ForcesHandle(s, t, y);
    var g, x := LeadGraph(s), s.muts[t].phase.a;
    forall b | b in s.objs && Visitable(s.objs, x, b) ensures b in Led(s) {
      assert LeadsTo(s.objs, WriteHeld(s.muts), s.muts, y, b);
      assert b in g[y] && b in g;
    }
  }

  lemma UncleanIsTrapped(s: State) returns (z: Trap)
    requires Start(s) && !Clean(s)
    ensures z.s0 == s && z.led == Led(s) && z.a in Accessible(s) && Trapped(z, s)
  {
    hide Live, Led, Handles, Accessible, LedIn, InVisit;
    var a :| a in Accessible(s) && Is(s.objs, a, Unvisited) && !(a in Led(s) || InVisit(s.muts, a));
    z := Trap(s, Led(s), a);
    LedAtStart(s);
  }

  /** Once every mutator with a lock in led has wound down, the collector can mark by itself. */
  lemma TrappedIsAlone(u: set<Vaddr>, z: Trap, s: State)
    requires Orderly(u, s) && Trapped(z, s) && s.flag && Marking(s.gc)
    requires forall t :: t in s.muts ==> !LockIn(s.muts[t], z.led)
    ensures AloneIn(z.led, s)
  {
    hide HeapAlive, RootsIn, MutsIn, StacksWithin, AllForcedLed, PassedBy, Remembers;
    forall t, x | t in s.muts && x in z.led ensures !HasLock(s.muts[t], x) {
      assert !LockIn(s.muts[t], z.led);
    }
    forall x | x in z.led ensures x !in WriteHeld(s.muts) && !InPush(s.muts, x) {
      assert forall t :: t in s.muts ==> !HasLock(s.muts[t], x);
    }
  }

  lemma WoundIsFree(z: Trap, s0: State, s: State, ts: set<nat>)
    requires WoundDown(s0, s, ts) && ts == (set t | t in s0.muts && LockIn(s0.muts[t], z.led))
    ensures forall t :: t in s.muts ==> !LockIn(s.muts[t], z.led)
  {
  }

  /** The mutators with a lock in led wind down, then the collector marks by itself, up to the end of the loop. */
  lemma MarksWithout(u: set<Vaddr>, z: Trap, s: State) returns (steps: seq<Step>, s': State)
    requires Orderly(u, s) && Trapped(z, s) && s.flag && Marking(s.gc)
    ensures Run(s, steps, s') && s'.gc.ClearFlag? && Orderly(u, s') && Trapped(z, s')
  {
    hide Orderly, Trapped, LockIn, WindRun, AloneIn, Run;
    var ts := set t | t in s.muts && LockIn(s.muts[t], z.led);
    var p, m := WindAll(u, z.led, s, ts);
    WindRuns(z.led, s, p, m);
    WindRunTraps(z, z.led, s, p, m);
    WoundIsFree(z, s, m, ts);
    TrappedIsAlone(u, z, m);
    var q;
    q, s' := MarkingEnds(u, z.led, m);
    MarkingTraps(z, m, s');
    RunThen(s, p, m, q, s');
    steps := p + q;
  }

  lemma MarkingTraps(z: Trap, s: State, s': State)
    requires Trapped(z, s) && SameOutside(z.led, s, s') && AloneIn(z.led, s')
    ensures Trapped(z, s')
  {
    hide LockIn, KnownToSome, InVisit;
    if s.flag {
      AloneForces(z.led, s'.objs, s'.writer, s'.gc, s'.muts);
    }
  }

  lemma AloneForces(led: set<Vaddr>, objs: Heap, writer: map<Vaddr, Owner>, gc: Pc, muts: map<nat, Mutator>)
    requires FreeIn(led, gc, writer, muts)
    ensures AllForcedLed(led, objs, muts)
  {
  }

  /** The flag is cleared, and the other mutators wind down. */
  lemma ClearsAndWinds(u: set<Vaddr>, z: Trap, s: State) returns (steps: seq<Step>, s': State)
    requires Orderly(u, s) && Trapped(z, s) && s.gc.ClearFlag?
    ensures Run(s, steps, s') && Trapped(z, s') && Sweepable(s') && s'.gc == Scan(s'.objs.Keys, {}, [])
  {
    hide Orderly, Trapped, LockIn, WindRun, Run, Sweepable;
    var m := Do(s, GcMove);
    GcOrder(u, s);
    ClearedTraps(z, s);
    LocksInHeap(u, m);
    var p;
    p, s' := WindAll(u, m.objs.Keys, m, m.muts.Keys);
    WindRuns(m.objs.Keys, m, p, s');
    WindRunTraps(z, m.objs.Keys, m, p, s');
    NobodyWrites(u, s');
    ScanIsSweepable(s');
    RunFirst(s, GcMove, p, s');
    steps := [GcMove] + p;
  }

  lemma ScanIsSweepable(s: State)
    requires s.writer == map[] && AllIdle(s.muts) && s.gc == Scan(s.objs.Keys, {}, [])
    ensures Sweepable(s)
  {
  }

  lemma ClearedTraps(z: Trap, s: State)
    requires Trapped(z, s) && s.gc.ClearFlag?
    ensures Trapped(z, Do(s, GcMove)) && !Do(s, GcMove).flag
  {
    hide PassedBy, RefsKept, LedIn;
  }

  lemma SweepsTheTrapped(z: Trap, s: State) returns (steps: seq<Step>, s': State)
    requires Trapped(z, s) && Sweepable(s) && s.gc == Scan(s.objs.Keys, {}, [])
    ensures Run(s, steps, s') && Remembers(z.s0, s') && z.a !in s'.objs
  {
    hide RefsKept, LocalsKept, LedIn, InVisit, Run, Sweepable;
    assert ToSweep(s, z.a);
    steps, s' := SweepEnds(s);
    SweptKept(z.s0, s, s');
  }

  lemma SweptKept(s0: State, s: State, s': State)
    requires Remembers(s0, s) && OnlySweeps(s, s')
    ensures Remembers(s0, s')
  {
    hide KnownToSome, LocalsKept;
  }

  lemma StartKnowsLocks(s: State)
    requires Start(s)
    ensures NULL_VADDR !in s.objs && forall t :: t in s.muts ==> KnowsItsLocks(s.muts[t])
    ensures s.flag && Marking(s.gc)
  {
  }

  /** From every unclean start, some run loses an object in use. */
  lemma UncleanStartLosesAnObject(s0: State) returns (steps: seq<Step>, s: State)
    requires Start(s0) && !Clean(s0)
    ensures Run(s0, steps, s) && !NoDangling(s)
  {
    hide Ready, Clean, Orderly, Accessible, Trapped, Sweepable, NoDangling, Run, Remembers, KnowsItsLocks;
    var z := UncleanIsTrapped(s0);
    var u := Accessible(s0);
    OrderlyAtStart(s0);
    StartKnowsLocks(s0);
    var p, m := MarksWithout(u, z, s0);
    var q, n := ClearsAndWinds(u, z, m);
    var r;
    r, s := SweepsTheTrapped(z, n);
    RunThen(s0, p, m, q, n);
    RunThen(s0, p + q, n, r, s);
    steps := p + q + r;
    if NoDangling(s) {
      NoDanglingKeepsAll(s0, s);
    }
  }

  /** A cycle is safe in every interleaving if and only if it starts clean. */
  lemma SafeExactlyWhenClean(s0: State)
    requires Start(s0)
    ensures Clean(s0) <==> AlwaysSafe(s0)
  {
    hide Start, Clean, Run, NoDangling;
    if Clean(s0) {
      forall steps, s | Run(s0, steps, s) ensures NoDangling(s) {
        CollectionIsSafe(s0, steps, s);
      }
    } else {
      var steps, s := UncleanStartLosesAnObject(s0);
      assert Run(s0, steps, s);
    }
  }
}
