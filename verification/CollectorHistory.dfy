/** What a run leaves in the roots, the objects and the hands of the mutators, read off the steps it was made of. */
module CollectorHistory {
  import opened Common
  import opened Graph
  import opened ConcurrentCollector
  import opened CollectorOrder
  import opened CollectorSnapshot
  import opened CollectorInvariant
  import opened CollectorSafety
  import opened CollectorAlone

  /** The last of the steps that p picks out. */
  function Last(steps: seq<Step>, p: Step -> bool): Option<Step> {
    if steps == [] then None
    else if Last(steps[1..], p).Some? then Last(steps[1..], p)
    else if p(steps[0]) then Some(steps[0])
    else None
  }

  lemma RunStep(s: State, steps: seq<Step>, s': State)
    requires Run(s, steps, s') && steps != []
    ensures Enabled(s, steps[0]) && Run(Do(s, steps[0]), steps[1..], s')
  {
  }

  lemma RunEnds(s: State, s': State)
    requires Run(s, [], s')
    ensures s' == s
  {
  }

  lemma LastStep(steps: seq<Step>, p: Step -> bool)
    requires steps != []
    ensures Last(steps, p) == if Last(steps[1..], p).Some? then Last(steps[1..], p)
                              else if p(steps[0]) then Some(steps[0]) else None
  {
  }

  lemma LastOfNone(p: Step -> bool)
    ensures Last([], p) == None
  {
  }

  // ---------------------------------------------------------------------------- roots

  function RootAt(s: State, id: nat): Option<Vaddr> {
    if id in s.roots then Some(s.roots[id]) else None
  }

  function OnRoot(id: nat): Step -> bool {
    (x: Step) => (x.AddRoot? || x.DropRoot?) && x.id == id
  }

  function RootBy(last: Option<Step>, was: Option<Vaddr>): Option<Vaddr> {
    match last
    case None => was
    case Some(AddRoot(_, a, _)) => Some(a)
    case Some(_) => None
  }

  lemma RootStep(s: State, step: Step, id: nat)
    requires Enabled(s, step)
    ensures RootAt(Do(s, step), id) == RootBy(if OnRoot(id)(step) then Some(step) else None, RootAt(s, id))
  {
    hide GcEnabled, GcDo, Unlocked, NonNull, Painted;
    if step.GcMove? {
      GcKeepsMutators(s);
    }
  }

  /** Each root is what the last step that added or dropped it has made of it. */
  lemma {:induction false} RootsFollowHistory(s: State, steps: seq<Step>, s': State, id: nat)
    requires Run(s, steps, s')
    ensures RootAt(s', id) == RootBy(Last(steps, OnRoot(id)), RootAt(s, id))
    decreases |steps|
  {
    hide Run, Do, Enabled, RootAt, OnRoot, Last;
    if steps == [] {
      RunEnds(s, s');
      LastOfNone(OnRoot(id));
    } else {
      RunStep(s, steps, s');
      LastStep(steps, OnRoot(id));
      RootStep(s, steps[0], id);
      RootsFollowHistory(Do(s, steps[0]), steps[1..], s', id);
    }
  }

  // ---------------------------------------------------------------------------- what is rooted stays

  lemma GcFrees(s: State)
    requires GcEnabled(s)
    ensures s.freed <= GcDo(s).freed && GcDo(s).objs.Keys <= s.objs.Keys
    ensures forall a :: a in s.objs && a !in GcDo(s).objs ==> a in GcDo(s).freed
    ensures forall a :: a in GcDo(s).freed && a !in s.freed ==> a !in GcDo(s).objs
  {
    hide GcEnabled, Unlocked, NonNull, GcDo;
    if s.gc.MarkProgress? || s.gc.FinishVisit? {
      GcPaintsOne(s);
    } else if s.gc.Free? {
      GcFreesOne(s);
    } else {
      GcKeepsObjects(s);
      GcKeepsFreed(s);
    }
  }

  lemma GcPaintsOne(s: State)
    requires GcEnabled(s) && (s.gc.MarkProgress? || s.gc.FinishVisit?)
    ensures GcDo(s).freed == s.freed && GcDo(s).objs.Keys == s.objs.Keys
    ensures forall a :: a in s.objs && a != s.gc.a ==> GcDo(s).objs[a] == s.objs[a]
    ensures s.gc.a in s.objs && GcDo(s).objs[s.gc.a] == s.objs[s.gc.a].(status := GcDo(s).objs[s.gc.a].status)
    ensures Darkens(s.objs[s.gc.a].status, GcDo(s).objs[s.gc.a].status)
  {
    hide Unlocked, NonNull;
  }

  lemma GcFreesOne(s: State)
    requires GcEnabled(s) && s.gc.Free?
    ensures s.gc.doomed == [] ==> GcDo(s).freed == s.freed && GcDo(s).objs == s.objs
    ensures s.gc.doomed != [] ==> var a := s.gc.doomed[|s.gc.doomed|-1];
                                  GcDo(s).freed == s.freed + {a} && GcDo(s).objs == s.objs - {a}
  {
    hide Unlocked, NonNull, Painted;
  }

  lemma GcKeepsFreed(s: State)
    requires GcEnabled(s) && !s.gc.Free?
    ensures GcDo(s).freed == s.freed
  {
    hide GcEnabled, Unlocked, NonNull, Painted;
    match s.gc
    case MarkProgress(_) =>
    case CheckVisit(_) =>
    case PopProgress(_) =>
    case PopVisit(_) =>
    case _ =>
  }

  lemma StepFrees(s: State, step: Step)
    requires Enabled(s, step)
    ensures s.freed <= Do(s, step).freed
    ensures forall a :: a in s.objs && a !in Do(s, step).objs ==> a in Do(s, step).freed
    ensures forall a :: a in Do(s, step).freed && a !in s.freed ==> a !in Do(s, step).objs
  {
    hide GcEnabled, GcDo, Unlocked, NonNull;
    if step.GcMove? {
      GcFrees(s);
    }
  }

  lemma RootExists(s: State, id: nat)
    requires NoDangling(s) && id in s.roots
    ensures s.roots[id] in s.objs
  {
    hide Accessible;
    InHandles(s);
  }

  /**
   A root added by the state m of a clean cycle, and not dropped since, still has its object, which has not been freed.
   */
  lemma {:induction false} RootedIsKept(s0: State, past: seq<Step>, m: State, steps: seq<Step>, s: State, id: nat)
    requires Start(s0) && Clean(s0) && Run(s0, past, m) && Run(m, steps, s)
    requires id in m.roots && forall i :: 0 <= i < |steps| ==> steps[i].DropRoot? ==> steps[i].id != id
    ensures id in s.roots && s.roots[id] == m.roots[id] && s.roots[id] in s.objs
    ensures s.roots[id] in s.freed ==> s.roots[id] in m.freed
    decreases |steps|
  {
    hide Run, Do, Enabled, Start, Clean, NoDangling, RootAt;
    CollectionIsSafe(s0, past, m);
    RootExists(m, id);
    if steps == [] {
      RunEnds(m, s);
    } else {
      RunStep(m, steps, s);
      var step := steps[0];
      var n := Do(m, step);
      StaysRoot(m, step, id);
      RunLast(s0, past, m, step);
      CollectionIsSafe(s0, past + [step], n);
      RootExists(n, id);
      if n.roots[id] in n.freed && n.roots[id] !in m.freed {
        StepFrees(m, step);
      }
      RootedIsKept(s0, past + [step], n, steps[1..], s, id);
    }
  }

  lemma StaysRoot(s: State, step: Step, id: nat)
    requires Enabled(s, step) && id in s.roots && (step.DropRoot? ==> step.id != id)
    ensures id in Do(s, step).roots && Do(s, step).roots[id] == s.roots[id]
  {
    hide GcEnabled, GcDo, Unlocked, NonNull, Painted;
    if step.GcMove? {
      GcKeepsMutators(s);
    }
  }

  /** An object that is rooted when the roots have been pushed, and not derooted, is not freed in a clean cycle. */
  lemma RootedIsNeverFreed(s0: State, steps: seq<Step>, s: State, id: nat)
    requires Start(s0) && Clean(s0) && Run(s0, steps, s)
    requires id in s0.roots && forall i :: 0 <= i < |steps| ==> steps[i].DropRoot? ==> steps[i].id != id
    ensures id in s.roots && s.roots[id] == s0.roots[id] && s.roots[id] in s.objs && s.roots[id] !in s.freed
  {
    hide Clean, Live, Owned, KnowsItsLocks, MutLocks, NotBlack, Handles;
    assert Run(s0, [], s0);
    RootedIsKept(s0, [], s0, steps, s, id);
  }

  // ---------------------------------------------------------------------------- references and data

  /** White turns grey or black, and grey and newly added objects turn black. */
  predicate Darkens(st: Status, st': Status) {
    st' == st || st' == Visited || (st == Unvisited && st' == InProgress)
  }

  function OnRef(a: Vaddr, i: nat): Step -> bool {
    (x: Step) => (x.Store? && x.a == a && x.i == i) || (x.Malloc? && x.a == a)
  }

  function RefAt(s: State, a: Vaddr, i: nat): Option<Vaddr> {
    if a in s.objs && i < |s.objs[a].refs| then Some(s.objs[a].refs[i]) else None
  }

  function RefBy(last: Option<Step>, i: nat, was: Option<Vaddr>): Option<Vaddr> {
    match last
    case None => was
    case Some(Store(_, _, _, b)) => Some(b)
    case Some(Malloc(_, _, n, _)) => if i < n then Some(NULL_VADDR) else None
    case Some(_) => None
  }

  lemma GcLeavesObject(s: State, a: Vaddr)
    requires GcEnabled(s) && a in GcDo(s).objs
    ensures a in s.objs && GcDo(s).objs[a] == s.objs[a].(status := GcDo(s).objs[a].status)
    ensures Darkens(s.objs[a].status, GcDo(s).objs[a].status)
  {
    hide GcEnabled, GcDo, Unlocked, NonNull, Painted;
    if s.gc.MarkProgress? || s.gc.FinishVisit? {
      GcPaintsOne(s);
    } else if s.gc.Free? {
      GcFreesOne(s);
    } else {
      GcKeepsObjects(s);
    }
  }

  lemma MutRefStep(s: State, step: Step, a: Vaddr, i: nat)
    requires !step.GcMove? && !step.GcScan? && MutEnabled(s, step)
    ensures a in MutDo(s, step).objs ==> a in s.objs || OnRef(a, i)(step)
    ensures RefAt(MutDo(s, step), a, i) == RefBy(if OnRef(a, i)(step) then Some(step) else None, i, RefAt(s, a, i))
  {
    hide Unlocked, NonNull;
  }

  lemma RefStep(s: State, step: Step, a: Vaddr, i: nat)
    requires Enabled(s, step) && a in Do(s, step).objs
    ensures a in s.objs || OnRef(a, i)(step)
    ensures RefAt(Do(s, step), a, i) == RefBy(if OnRef(a, i)(step) then Some(step) else None, i, RefAt(s, a, i))
  {
    hide GcEnabled, GcDo, MutEnabled, MutDo;
    if step.GcMove? {
      GcLeavesObject(s, a);
    } else if !step.GcScan? {
      MutRefStep(s, step, a, i);
    }
  }

  /** What is not there at the start has been allocated. */
  lemma {:induction false} NewIsBorn(s: State, steps: seq<Step>, s': State, a: Vaddr, i: nat)
    requires Run(s, steps, s') && a !in s.objs && a in s'.objs
    ensures Last(steps, OnRef(a, i)).Some?
    decreases |steps|
  {
    hide Run, Do, Enabled, OnRef, Last;
    if steps == [] {
      RunEnds(s, s');
    } else {
      RunStep(s, steps, s');
      LastStep(steps, OnRef(a, i));
      if a in Do(s, steps[0]).objs {
        RefStep(s, steps[0], a, i);
      } else {
        NewIsBorn(Do(s, steps[0]), steps[1..], s', a, i);
      }
    }
  }

  /** Each reference of each object is what was last stored there: the collector moves none. */
  lemma {:induction false} RefsFollowHistory(s: State, steps: seq<Step>, s': State, a: Vaddr, i: nat)
    requires Run(s, steps, s') && a in s'.objs
    ensures RefAt(s', a, i) == RefBy(Last(steps, OnRef(a, i)), i, RefAt(s, a, i))
    decreases |steps|
  {
    hide Run, Do, Enabled, RefAt, OnRef, Last, RefBy;
    if steps == [] {
      RunEnds(s, s');
      LastOfNone(OnRef(a, i));
      RefUntouched(None, i, RefAt(s, a, i), RefAt(s, a, i));
    } else {
      RunStep(s, steps, s');
      LastStep(steps, OnRef(a, i));
      RefsFollowHistory(Do(s, steps[0]), steps[1..], s', a, i);
      RefUntouched(Last(steps[1..], OnRef(a, i)), i, RefAt(Do(s, steps[0]), a, i), RefAt(s, a, i));
      if a in Do(s, steps[0]).objs {
        RefStep(s, steps[0], a, i);
      } else {
        NewIsBorn(Do(s, steps[0]), steps[1..], s', a, i);
      }
    }
  }

  lemma RefUntouched(last: Option<Step>, i: nat, was: Option<Vaddr>, was': Option<Vaddr>)
    ensures last.Some? ==> RefBy(last, i, was) == RefBy(last, i, was')
    ensures RefBy(None, i, was) == was && RefBy(None, i, was') == was'
  {
  }

  // ---------------------------------------------------------------------------- data and colours

  function OnBirth(a: Vaddr): Step -> bool {
    (x: Step) => x.Malloc? && x.a == a
  }

  /** The same tables: as many references, and the same data. */
  predicate TablesBy(last: Option<Step>, was: Heap, a: Vaddr, o: Obj) {
    match last
    case None => a in was && |o.refs| == |was[a].refs| && o.data == was[a].data && Darkens(was[a].status, o.status)
    case Some(Malloc(_, _, n, data)) => |o.refs| == n && o.data == data && Darkens(NewlyAdded, o.status)
    case Some(_) => false
  }

  lemma TablesStep(s: State, step: Step, a: Vaddr)
    requires Enabled(s, step) && a in Do(s, step).objs
    ensures TablesBy(if OnBirth(a)(step) then Some(step) else None, s.objs, a, Do(s, step).objs[a])
  {
    hide GcEnabled, GcDo, Unlocked, NonNull;
    if step.GcMove? {
      GcLeavesObject(s, a);
    }
  }

  lemma {:induction false} NewIsMade(s: State, steps: seq<Step>, s': State, a: Vaddr)
    requires Run(s, steps, s') && a !in s.objs && a in s'.objs
    ensures Last(steps, OnBirth(a)).Some?
    decreases |steps|
  {
    hide Run, Do, Enabled, OnBirth, Last, TablesBy;
    if steps == [] {
      RunEnds(s, s');
    } else {
      RunStep(s, steps, s');
      LastStep(steps, OnBirth(a));
      if a in Do(s, steps[0]).objs {
        TablesStep(s, steps[0], a);
        TablesNeedBirth(s.objs, a, Do(s, steps[0]).objs[a]);
      } else {
        NewIsMade(Do(s, steps[0]), steps[1..], s', a);
      }
    }
  }

  lemma TablesNeedBirth(was: Heap, a: Vaddr, o: Obj)
    ensures a !in was ==> !TablesBy(None, was, a, o)
  {
  }

  lemma TablesTwice(first: Option<Step>, last: Option<Step>, was: Heap, was': Heap, a: Vaddr, o: Obj)
    requires TablesBy(last, was', a, o) && (a in was' && last == None ==> TablesBy(first, was, a, was'[a]))
    ensures TablesBy(if last.Some? then last else first, was, a, o)
  {
  }

  lemma TablesStay(s: State, a: Vaddr)
    requires a in s.objs
    ensures TablesBy(None, s.objs, a, s.objs[a])
  {
  }

  /** The data and the number of references of an object are as they were allocated; its colour has only turned darker. */
  lemma {:induction false} TablesFollowHistory(s: State, steps: seq<Step>, s': State, a: Vaddr)
    requires Run(s, steps, s') && a in s'.objs
    ensures TablesBy(Last(steps, OnBirth(a)), s.objs, a, s'.objs[a])
    decreases |steps|
  {
    hide Run, Do, Enabled, OnBirth, Last, TablesBy;
    if steps == [] {
      RunEnds(s, s');
      LastOfNone(OnBirth(a));
      TablesStay(s, a);
    } else {
      RunStep(s, steps, s');
      LastStep(steps, OnBirth(a));
      var n := Do(s, steps[0]);
      TablesFollowHistory(n, steps[1..], s', a);
      if a in n.objs {
        TablesStep(s, steps[0], a);
      }
      TablesTwice(if OnBirth(a)(steps[0]) then Some(steps[0]) else None, Last(steps[1..], OnBirth(a)), s.objs, n.objs, a,
                  s'.objs[a]);
    }
  }

  // ---------------------------------------------------------------------------- which objects there are

  lemma BirthStep(s: State, step: Step, a: Vaddr)
    requires Enabled(s, step)
    ensures a in Do(s, step).born <==> a in s.born || OnBirth(a)(step)
    ensures OnBirth(a)(step) ==> a in Do(s, step).objs
  {
    hide GcEnabled, GcDo, Unlocked, NonNull, Painted;
    if step.GcMove? {
      GcBearsNothing(s);
    }
  }

  /** Objects come by allocation and go by being freed; both are recorded. */
  lemma {:induction false} ObjectsFollowHistory(s: State, steps: seq<Step>, s': State, a: Vaddr)
    requires Run(s, steps, s')
    ensures a in s'.born <==> a in s.born || Last(steps, OnBirth(a)).Some?
    ensures a in s'.objs ==> a in s.objs || Last(steps, OnBirth(a)).Some?
    ensures a in s.freed ==> a in s'.freed
    ensures (a in s.objs || Last(steps, OnBirth(a)).Some?) && a !in s'.objs ==> a in s'.freed
    decreases |steps|
  {
    hide Run, Do, Enabled, OnBirth, Last;
    if steps == [] {
      RunEnds(s, s');
      LastOfNone(OnBirth(a));
    } else {
      RunStep(s, steps, s');
      LastStep(steps, OnBirth(a));
      BirthStep(s, steps[0], a);
      StepFrees(s, steps[0]);
      ObjectsFollowHistory(Do(s, steps[0]), steps[1..], s', a);
      if a in s'.objs {
        NewIsMadeOrOld(s, steps, s', a);
      }
    }
  }

  lemma NewIsMadeOrOld(s: State, steps: seq<Step>, s': State, a: Vaddr)
    requires Run(s, steps, s') && a in s'.objs
    ensures a in s.objs || Last(steps, OnBirth(a)).Some?
  {
    hide Run, OnBirth, Last;
    if a !in s.objs {
      NewIsMade(s, steps, s', a);
    }
  }

  // ---------------------------------------------------------------------------- locks

  predicate HasRead(s: State, t: nat, a: Vaddr) {
    t in s.muts && a in s.muts[t].rlocks
  }

  predicate HasWrite(s: State, t: nat, a: Vaddr) {
    t in s.muts && (a in s.muts[t].wlocks || (!s.muts[t].phase.Idle? && s.muts[t].phase.a == a))
  }

  function OnRead(t: nat, a: Vaddr): Step -> bool {
    (x: Step) => (x.LockRead? || x.UnlockRead?) && x.t == t && x.a == a
  }

  function OnWrite(t: nat, a: Vaddr): Step -> bool {
    (x: Step) => (x.LockWrite? || x.Malloc? || x.UnlockWrite?) && x.t == t && x.a == a
  }

  lemma ReadStep(s: State, step: Step, t: nat, a: Vaddr)
    requires Enabled(s, step)
    ensures HasRead(Do(s, step), t, a) == if OnRead(t, a)(step) then step.LockRead? else HasRead(s, t, a)
  {
    hide GcEnabled, GcDo, Unlocked, NonNull, Painted;
    if step.GcMove? {
      GcKeepsMutators(s);
    }
  }

  lemma OthersUntouched(s: State, step: Step, t: nat)
    requires Enabled(s, step) && (step.GcMove? || step.GcScan? || step.t != t)
    ensures t in Do(s, step).muts <==> t in s.muts
    ensures t in s.muts ==> Do(s, step).muts[t] == s.muts[t]
  {
    hide GcEnabled, GcDo, Unlocked, NonNull, Painted;
    if step.GcMove? {
      GcKeepsMutators(s);
    }
  }

  lemma OwnWriteStep(s: State, step: Step, a: Vaddr)
    requires !step.GcMove? && !step.GcScan? && MutEnabled(s, step)
    ensures HasWrite(MutDo(s, step), step.t, a)
            == if OnWrite(step.t, a)(step) then !step.UnlockWrite? else HasWrite(s, step.t, a)
  {
    hide Unlocked, NonNull, Painted;
  }

  lemma WriteStep(s: State, step: Step, t: nat, a: Vaddr)
    requires Enabled(s, step)
    ensures HasWrite(Do(s, step), t, a) == if OnWrite(t, a)(step) then !step.UnlockWrite? else HasWrite(s, t, a)
  {
    hide GcEnabled, GcDo, MutEnabled, MutDo;
    if step.GcMove? || step.GcScan? || step.t != t {
      OthersUntouched(s, step, t);
    } else {
      OwnWriteStep(s, step, a);
    }
  }

  /** A mutator has the locks it has taken, or got with a new object, and not given back since. */
  lemma {:induction false} LocksFollowHistory(s: State, steps: seq<Step>, s': State, t: nat, a: Vaddr)
    requires Run(s, steps, s')
    ensures HasRead(s', t, a) == match Last(steps, OnRead(t, a))
                                 case None => HasRead(s, t, a)
                                 case Some(x) => x.LockRead?
    ensures HasWrite(s', t, a) == match Last(steps, OnWrite(t, a))
                                  case None => HasWrite(s, t, a)
                                  case Some(x) => x.LockWrite? || x.Malloc?
    decreases |steps|
  {
    hide Run, Do, Enabled, HasRead, HasWrite, OnRead, OnWrite, Last;
    if steps == [] {
      RunEnds(s, s');
      LastOfNone(OnRead(t, a));
      LastOfNone(OnWrite(t, a));
    } else {
      RunStep(s, steps, s');
      LastStep(steps, OnRead(t, a));
      LastStep(steps, OnWrite(t, a));
      ReadStep(s, steps[0], t, a);
      WriteStep(s, steps[0], t, a);
      OnWriteKinds(t, a, steps[0]);
      LocksFollowHistory(Do(s, steps[0]), steps[1..], s', t, a);
    }
  }

  lemma OnWriteKinds(t: nat, a: Vaddr, step: Step)
    ensures OnWrite(t, a)(step) ==> step.LockWrite? || step.Malloc? || step.UnlockWrite?
  {
  }

  // ---------------------------------------------------------------------------- what mutators know

  /** t reads the address b: in a root, in an object, or as that of a new one. */
  predicate Teaches(s: State, step: Step, t: nat, b: Vaddr) {
    || (step.ReadRoot? && step.t == t && RootAt(s, step.id) == Some(b))
    || (step.Load? && step.t == t && b != NULL_VADDR && RefAt(s, step.a, step.i) == Some(b))
    || (step.Malloc? && step.t == t && step.a == b)
  }

  /** t has been taught b by a step of the run, or knew it, and has not forgotten it since. */
  predicate Knows(s: State, steps: seq<Step>, t: nat, b: Vaddr, known: bool)
    decreases |steps|
  {
    if steps == [] || !Enabled(s, steps[0]) then known
    else Knows(Do(s, steps[0]), steps[1..], t, b, Teaches(s, steps[0], t, b) || (known && steps[0] != Forget(t, b)))
  }

  predicate KnownTo(s: State, t: nat, b: Vaddr) {
    t in s.muts && b in s.muts[t].locals
  }

  lemma OwnKnownStep(s: State, step: Step, b: Vaddr)
    requires !step.GcMove? && !step.GcScan? && MutEnabled(s, step)
    ensures KnownTo(MutDo(s, step), step.t, b)
            <==> Teaches(s, step, step.t, b) || (KnownTo(s, step.t, b) && step != Forget(step.t, b))
  {
    hide Unlocked, NonNull, Painted;
  }

  lemma KnownStep(s: State, step: Step, t: nat, b: Vaddr)
    requires Enabled(s, step)
    ensures KnownTo(Do(s, step), t, b) <==> Teaches(s, step, t, b) || (KnownTo(s, t, b) && step != Forget(t, b))
  {
    hide GcEnabled, GcDo, MutEnabled, MutDo;
    if step.GcMove? || step.GcScan? || step.t != t {
      OthersUntouched(s, step, t);
    } else {
      OwnKnownStep(s, step, b);
    }
  }

  lemma KnowsNext(s: State, steps: seq<Step>, t: nat, b: Vaddr, known: bool)
    ensures steps == [] ==> Knows(s, steps, t, b, known) == known
    ensures steps != [] && Enabled(s, steps[0]) ==>
              Knows(s, steps, t, b, known)
              == Knows(Do(s, steps[0]), steps[1..], t, b,
                       Teaches(s, steps[0], t, b) || (known && steps[0] != Forget(t, b)))
  {
    hide Do, Enabled, Teaches;
  }

  /** A mutator knows exactly what it has been taught and has not forgotten. */
  lemma {:induction false} KnowledgeFollowsHistory(s: State, steps: seq<Step>, s': State, t: nat, b: Vaddr)
    requires Run(s, steps, s')
    ensures KnownTo(s', t, b) <==> Knows(s, steps, t, b, KnownTo(s, t, b))
    decreases |steps|
  {
    hide Run, Do, Enabled, KnownTo, Teaches, Knows;
    KnowsNext(s, steps, t, b, KnownTo(s, t, b));
    if steps == [] {
      RunEnds(s, s');
    } else {
      RunStep(s, steps, s');
      KnownStep(s, steps[0], t, b);
      KnowledgeFollowsHistory(Do(s, steps[0]), steps[1..], s', t, b);
    }
  }

  // ---------------------------------------------------------------------------- who may lock

  /** The collector, or any mutator, has the write lock of a. */
  ghost predicate Written(s: State, a: Vaddr) {
    GcHolds(s.gc, a) || exists u :: HasWrite(s, u, a)
  }

  lemma WriterHolds(u: set<Vaddr>, s: State, a: Vaddr)
    requires Orderly(u, s)
    ensures a in s.writer <==> Written(s, a)
    ensures a in s.writer ==> forall t :: !HasRead(s, t, a)
    ensures forall t, k :: HasWrite(s, t, a) && HasWrite(s, k, a) ==> t == k && !GcHolds(s.gc, a)
  {
    hide HeapAlive, RootsIn;
    forall t | HasLockOf(s, t, a) ensures MutIn(u, s.objs, s.writer, t, s.muts[t]) {
      OwnLocks(u, s, t);
    }
    if a in s.writer && s.writer[a].Mut? {
      assert HasLock(s.muts[s.writer[a].t], a);
      OwnLocks(u, s, s.writer[a].t);
      assert HasWrite(s, s.writer[a].t, a);
    }
  }

  lemma UnlockedIs(s: State, a: Vaddr)
    ensures Unlocked(s, a) <==> a !in s.writer && forall t :: !HasRead(s, t, a)
  {
    if a !in s.writer && forall t :: !HasRead(s, t, a) {
      forall t | t in s.muts ensures a !in s.muts[t].rlocks {
        assert !HasRead(s, t, a);
      }
    }
  }

  predicate HasLockOf(s: State, t: nat, a: Vaddr) {
    t in s.muts && HasLock(s.muts[t], a)
  }

  /**
   In every state of a run from a start, the write lock of an object excludes all others, and an idle mutator gets a lock
   of an object that it knows exactly when nobody has one that excludes it.
   */
  lemma LocksExclude(s0: State, steps: seq<Step>, s: State, t: nat, a: Vaddr)
    requires Start(s0) && Clean(s0) && Run(s0, steps, s)
    ensures forall x, y :: HasWrite(s, x, a) && HasWrite(s, y, a) ==> x == y && !GcHolds(s.gc, a)
    ensures Written(s, a) ==> forall x :: !HasRead(s, x, a)
    ensures KnownTo(s, t, a) && s.muts[t].phase.Idle? ==>
              && (Enabled(s, LockRead(t, a)) <==> !Written(s, a))
              && (Enabled(s, LockWrite(t, a)) <==> !Written(s, a) && forall x :: !HasRead(s, x, a))
  {
    hide Start, Clean, Run, Orderly, Inv, Written, GcHolds, Unlocked, HasRead, HasWrite;
    RunHasInv(s0, steps, s);
    InvIsOrderly(Shot(s0), s);
    WriterHolds(InUse(Shot(s0), s), s, a);
    UnlockedIs(s, a);
    if KnownTo(s, t, a) {
      OwnLocks(InUse(Shot(s0), s), s, t);
    }
  }

  // ---------------------------------------------------------------------------- what mutators may do

  /** In every state of a run from a start, an idle mutator may do what its locks and what it knows allow. */
  lemma IdleMayAct(s0: State, steps: seq<Step>, s: State, t: nat, a: Vaddr, i: nat, b: Vaddr)
    requires Start(s0) && Clean(s0) && Run(s0, steps, s) && t in s.muts && s.muts[t].phase.Idle?
    ensures Enabled(s, ReadRoot(t, i)) <==> RootAt(s, i).Some?
    ensures Enabled(s, DropRoot(t, i)) <==> RootAt(s, i).Some?
    ensures Enabled(s, AddRoot(t, a, i)) <==> RootAt(s, i) == None && KnownTo(s, t, a)
    ensures Enabled(s, Load(t, a, i)) <==> (HasRead(s, t, a) || HasWrite(s, t, a)) && RefAt(s, a, i).Some?
    ensures Enabled(s, Store(t, a, i, b)) <==>
              HasWrite(s, t, a) && RefAt(s, a, i).Some? && (b == NULL_VADDR || KnownTo(s, t, b))
    ensures Enabled(s, UnlockRead(t, a)) <==> HasRead(s, t, a)
    ensures Enabled(s, UnlockWrite(t, a)) <==> HasWrite(s, t, a)
    ensures Enabled(s, Forget(t, a)) <==> !HasRead(s, t, a) && !HasWrite(s, t, a)
  {
    hide Start, Clean, Run, Orderly, Inv, Unlocked, GcEnabled, GcHolds, MutIn;
    RunHasInv(s0, steps, s);
    InvIsOrderly(Shot(s0), s);
    OwnLocks(InUse(Shot(s0), s), s, t);
  }

  /** The step that a mutator inside the barrier takes next. */
  function NextInBarrier(p: Phase, t: nat): Step
    requires !p.Idle?
  {
    match p
    case Locked(_) => ReadStatus(t)
    case Seen(_) => ReadFlag(t)
    case Visiting(_) => PushRefs(t)
    case Pushed(_) => SetVisited(t)
  }

  /** Inside the barrier, with its lock taken, a mutator never waits. */
  lemma BarrierNeverWaits(s0: State, steps: seq<Step>, s: State, t: nat)
    requires Start(s0) && Clean(s0) && Run(s0, steps, s) && t in s.muts && !s.muts[t].phase.Idle?
    ensures Enabled(s, NextInBarrier(s.muts[t].phase, t)) && HasWrite(s, t, s.muts[t].phase.a)
  {
    hide Start, Clean, Run, Orderly, Inv;
    RunHasInv(s0, steps, s);
    InvIsOrderly(Shot(s0), s);
    OwnLocks(InUse(Shot(s0), s), s, t);
    assert HasLock(s.muts[t], s.muts[t].phase.a);
  }
}
