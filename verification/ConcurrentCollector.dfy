/**
 One cycle of cs_collect_garbage, from the moment the roots are pushed, running beside any number of
 mutators. Every step below is one critical section of the source (a lock acquired, a status read, the
 references pushed under the stack mutex, ...), and a run is any sequence of enabled steps.
 */
module ConcurrentCollector {
  import opened Common
  import opened Graph

  datatype Owner = Gc | Mut(t: nat)

  /** Where a thread is inside cs_get_write; Idle outside of it. */
  datatype Phase =
    | Idle
    | Locked(a: Vaddr)    // has the write lock, is about to read the status
    | Seen(a: Vaddr)      // saw a status other than VISITED, is about to read the flag
    | Visiting(a: Vaddr)  // saw the flag set, is about to push the references
    | Pushed(a: Vaddr)    // pushed the references, is about to set VISITED

  /** A thread with the addresses it knows and the object locks it holds. */
  datatype Mutator = Mutator(locals: set<Vaddr>, rlocks: set<Vaddr>, wlocks: set<Vaddr>, phase: Phase)

  /** The program counter of the collecting thread. */
  datatype Pc =
    | Outer(productive: bool)
    | PopProgress(productive: bool)
    | LockProgress(a: Vaddr) | MarkProgress(a: Vaddr) | UnlockProgress(a: Vaddr)
    | PopVisit(productive: bool)
    | LockVisit(a: Vaddr) | CheckVisit(a: Vaddr) | FinishVisit(a: Vaddr) | UnlockVisit(a: Vaddr)
    | ClearFlag
    | Scan(todo: set<Vaddr>, seen: set<Vaddr>, doomed: seq<Vaddr>)
    | Free(doomed: seq<Vaddr>)
    | Done

  /** born and freed record what was allocated and freed since the start of the cycle. */
  datatype State = State(
    objs: Heap,
    writer: map<Vaddr, Owner>,
    inProgress: seq<Vaddr>,
    visit: seq<Vaddr>,
    roots: map<nat, Vaddr>,
    flag: bool,
    gc: Pc,
    muts: map<nat, Mutator>,
    born: set<Vaddr>,
    freed: set<Vaddr>)

  datatype Step =
    | GcMove
    | GcScan(a: Vaddr)
    | ReadRoot(t: nat, id: nat)
    | AddRoot(t: nat, a: Vaddr, id: nat)
    | DropRoot(t: nat, id: nat)
    | Forget(t: nat, a: Vaddr)
    | LockRead(t: nat, a: Vaddr)
    | UnlockRead(t: nat, a: Vaddr)
    | Load(t: nat, a: Vaddr, i: nat)
    | LockWrite(t: nat, a: Vaddr)
    | ReadStatus(t: nat)
    | ReadFlag(t: nat)
    | PushRefs(t: nat)
    | SetVisited(t: nat)
    | Store(t: nat, a: Vaddr, i: nat, b: Vaddr)
    | UnlockWrite(t: nat, a: Vaddr)
    | Malloc(t: nat, a: Vaddr, n: nat, data: seq<Cell>)

  // ---------------------------------------------------------------------------- the step relation

  predicate Is(objs: Heap, a: Vaddr, st: Status) {
    a in objs && objs[a].status == st
  }

  function Painted(objs: Heap, a: Vaddr, st: Status): Heap
    requires a in objs
  {
    objs[a := objs[a].(status := st)]
  }

  /** m reads a, writes a, or is inside cs_get_write with the write lock of a. */
  predicate HasLock(m: Mutator, a: Vaddr) {
    a in m.rlocks || a in m.wlocks || (!m.phase.Idle? && a == m.phase.a)
  }

  /** Nobody reads or writes a, so its write lock can be taken. */
  predicate Unlocked(s: State, a: Vaddr) {
    a !in s.writer && forall t :: t in s.muts ==> a !in s.muts[t].rlocks
  }

  predicate GcEnabled(s: State) {
    match s.gc
    case LockProgress(a) => a in s.objs && Unlocked(s, a)
    case LockVisit(a) => a in s.objs && Unlocked(s, a)
    case MarkProgress(a) => a in s.objs
    case CheckVisit(a) => a in s.objs
    case FinishVisit(a) => a in s.objs
    case Scan(todo, seen, _) => todo <= seen
    case Free(doomed) => doomed != [] ==> Unlocked(s, doomed[|doomed|-1])
    case Done => false
    case _ => true
  }

  function GcDo(s: State): State
    requires GcEnabled(s)
  {
    match s.gc
    case Outer(productive) =>
      s.(gc := if productive then PopProgress(false) else ClearFlag)
    case PopProgress(productive) =>
      if s.inProgress == [] then s.(gc := PopVisit(productive))
      else s.(gc := LockProgress(s.inProgress[|s.inProgress|-1]), inProgress := s.inProgress[..|s.inProgress|-1])
    case LockProgress(a) => s.(gc := MarkProgress(a), writer := s.writer[a := Gc])
    case MarkProgress(a) =>
      if s.objs[a].status == Unvisited
      then s.(gc := UnlockProgress(a), objs := Painted(s.objs, a, InProgress), visit := s.visit + [a])
      else s.(gc := UnlockProgress(a))
    case UnlockProgress(a) => s.(gc := PopProgress(true), writer := s.writer - {a})
    case PopVisit(productive) =>
      if s.visit == [] then s.(gc := Outer(productive))
      else s.(gc := LockVisit(s.visit[|s.visit|-1]), visit := s.visit[..|s.visit|-1])
    case LockVisit(a) => s.(gc := CheckVisit(a), writer := s.writer[a := Gc])
    case CheckVisit(a) =>
      if s.objs[a].status == InProgress
      then s.(gc := FinishVisit(a), inProgress := s.inProgress + NonNull(s.objs[a].refs))
      else s.(gc := UnlockVisit(a))
    case FinishVisit(a) => s.(gc := UnlockVisit(a), objs := Painted(s.objs, a, Visited))
    case UnlockVisit(a) => s.(gc := PopVisit(true), writer := s.writer - {a})
    case ClearFlag => s.(gc := Scan(s.objs.Keys, {}, []), flag := false)
    case Scan(_, _, doomed) => s.(gc := Free(doomed))
    case Free(doomed) =>
      if doomed == [] then s.(gc := Done)
      else
        var a := doomed[|doomed|-1];
        s.(gc := Free(doomed[..|doomed|-1]), objs := s.objs - {a}, freed := s.freed + {a})
    case Done => s
  }

  function SetMut(s: State, t: nat, m: Mutator): State {
    s.(muts := s.muts[t := m])
  }

  predicate MutEnabled(s: State, step: Step)
    requires !step.GcMove? && !step.GcScan?
  {
    step.t in s.muts &&
    var m := s.muts[step.t];
    (m.phase.Idle? || step.ReadStatus? || step.ReadFlag? || step.PushRefs? || step.SetVisited?) &&
    match step
    case ReadRoot(_, id) => id in s.roots
    case AddRoot(_, a, id) => a in m.locals && id !in s.roots
    case DropRoot(_, id) => id in s.roots
    case Forget(_, a) => !HasLock(m, a)  // cs_unlock takes the address of the object it unlocks
    case LockRead(_, a) => a in m.locals && a in s.objs && a !in s.writer
    case UnlockRead(_, a) => a in m.rlocks
    case Load(_, a, i) => (a in m.rlocks || a in m.wlocks) && a in s.objs && i < |s.objs[a].refs|
    case LockWrite(_, a) => a in m.locals && a in s.objs && Unlocked(s, a)
    case ReadStatus(_) => m.phase.Locked? && m.phase.a in s.objs
    case ReadFlag(_) => m.phase.Seen?
    case PushRefs(_) => m.phase.Visiting? && m.phase.a in s.objs
    case SetVisited(_) => m.phase.Pushed? && m.phase.a in s.objs
    case Store(_, a, i, b) =>
      a in m.wlocks && a in s.objs && i < |s.objs[a].refs| && (b == NULL_VADDR || b in m.locals)
    case UnlockWrite(_, a) => a in m.wlocks
    case Malloc(_, a, _, _) => a !in s.objs && a != NULL_VADDR
  }

  function MutDo(s: State, step: Step): State
    requires !step.GcMove? && !step.GcScan? && MutEnabled(s, step)
  {
    var t := step.t;
    var m := s.muts[t];
    match step
    case ReadRoot(_, id) => SetMut(s, t, m.(locals := m.locals + {s.roots[id]}))
    case AddRoot(_, a, id) => s.(roots := s.roots[id := a])
    case DropRoot(_, id) => s.(roots := s.roots - {id})
    case Forget(_, a) => SetMut(s, t, m.(locals := m.locals - {a}))
    case LockRead(_, a) => SetMut(s, t, m.(rlocks := m.rlocks + {a}))
    case UnlockRead(_, a) => SetMut(s, t, m.(rlocks := m.rlocks - {a}))
    case Load(_, a, i) =>
      var b := s.objs[a].refs[i];
      if b == NULL_VADDR then s else SetMut(s, t, m.(locals := m.locals + {b}))
    case LockWrite(_, a) => s.(muts := s.muts[t := m.(phase := Locked(a))], writer := s.writer[a := Mut(t)])
    case ReadStatus(_) =>
      // The second disjunct of the source's guard compares the address, not the status, with
      // GC_NEWLY_ADDED, so only VISITED objects take this branch.
      var a := m.phase.a;
      if s.objs[a].status == Visited then SetMut(s, t, m.(phase := Idle, wlocks := m.wlocks + {a}))
      else SetMut(s, t, m.(phase := Seen(a)))
    case ReadFlag(_) =>
      var a := m.phase.a;
      if s.flag then SetMut(s, t, m.(phase := Visiting(a)))
      else SetMut(s, t, m.(phase := Idle, wlocks := m.wlocks + {a}))
    case PushRefs(_) =>
      var a := m.phase.a;
      s.(muts := s.muts[t := m.(phase := Pushed(a))], inProgress := s.inProgress + NonNull(s.objs[a].refs))
    case SetVisited(_) =>
      var a := m.phase.a;
      s.(muts := s.muts[t := m.(phase := Idle, wlocks := m.wlocks + {a})], objs := Painted(s.objs, a, Visited))
    case Store(_, a, i, b) =>
      s.(objs := s.objs[a := s.objs[a].(refs := s.objs[a].refs[i := b])])
    case UnlockWrite(_, a) =>
      s.(muts := s.muts[t := m.(wlocks := m.wlocks - {a})], writer := s.writer - {a})
    case Malloc(_, a, n, data) =>
      s.(
        muts := s.muts[t := m.(locals := m.locals + {a}, wlocks := m.wlocks + {a})],
        objs := s.objs[a := Obj(NewlyAdded, Nulls(n), data)],
        writer := s.writer[a := Mut(t)],
        born := s.born + {a})
  }

  predicate Enabled(s: State, step: Step) {
    match step
    case GcMove => GcEnabled(s)
    case GcScan(a) => s.gc.Scan? && a in s.objs && a !in s.gc.seen && a !in s.writer
    case _ => MutEnabled(s, step)
  }

  function Do(s: State, step: Step): State
    requires Enabled(s, step)
  {
    match step
    case GcMove => GcDo(s)
    case GcScan(a) =>
      s.(gc := s.gc.(seen := s.gc.seen + {a},
                     doomed := if s.objs[a].status == Unvisited then s.gc.doomed + [a] else s.gc.doomed))
    case _ => MutDo(s, step)
  }

  /** s' is reached from s by the given steps, each of them enabled in its turn. */
  ghost predicate Run(s: State, steps: seq<Step>, s': State)
    decreases |steps|
  {
    if steps == [] then s' == s
    else Enabled(s, steps[0]) && Run(Do(s, steps[0]), steps[1..], s')
  }

  // ---------------------------------------------------------------------------- reachability

  /** The addresses that a mutator starts from: the live roots, and what the mutators know or hold. */
  ghost function Handles(s: State): set<Vaddr> {
    s.roots.Values + (set t, a | t in s.muts && a in MutHandles(s.muts[t]) :: a)
  }

  predicate HasHandle(m: Mutator, a: Vaddr) {
    a in m.locals || HasLock(m, a)
  }

  ghost function MutHandles(m: Mutator): (r: set<Vaddr>)
    ensures forall a :: a in r <==> HasHandle(m, a)
  {
    m.locals + m.rlocks + m.wlocks + if m.phase.Idle? then {} else {m.phase.a}
  }

  /** The objects that a mutator may come to use. */
  ghost function Accessible(s: State): set<Vaddr> {
    Reach(RefGraph(s.objs), Handles(s))
  }

  /** Everything accessible, or reached from an entry of the in-progress stack. */
  ghost function Live(s: State): set<Vaddr> {
    Reach(RefGraph(s.objs), Handles(s) + Elems(s.inProgress))
  }

  /** No root, no address a mutator knows, and no reference of an accessible object leads to a freed object. */
  ghost predicate NoDangling(s: State) {
    && Handles(s) <= s.objs.Keys
    && (forall a, b :: a in Accessible(s) && a in s.objs && b in s.objs[a].refs ==> b == NULL_VADDR || b in s.objs)
  }

  // ---------------------------------------------------------------------------- what the stacked addresses lead to

  /** m is inside cs_get_write and will visit the object it has locked, if it finds the flag set. */
  predicate WillVisit(objs: Heap, m: Mutator) {
    || m.phase.Seen? || m.phase.Visiting?
    || (m.phase.Locked? && m.phase.a in objs && objs[m.phase.a].status != Visited)
  }

  /** m is about to paint a black, whatever happens. */
  predicate Visits(m: Mutator, a: Vaddr) {
    (m.phase.Visiting? || m.phase.Pushed?) && m.phase.a == a
  }

  ghost predicate InVisit(muts: map<nat, Mutator>, a: Vaddr) {
    exists t :: t in muts && Visits(muts[t], a)
  }

  /** The references of a have been pushed, and a is not black yet. */
  ghost predicate InPush(muts: map<nat, Mutator>, a: Vaddr) {
    exists t :: t in muts && muts[t].phase == Pushed(a)
  }

  /** The objects that mutators may write to without passing the barrier again. */
  ghost function WriteHeld(muts: map<nat, Mutator>): set<Vaddr> {
    set t, a | t in muts && a in muts[t].wlocks :: a
  }

  /** a is white, and nobody can change its references before the collector, or a barrier, has seen them. */
  ghost predicate Traced(objs: Heap, held: set<Vaddr>, muts: map<nat, Mutator>, a: Vaddr) {
    Is(objs, a, Unvisited) && a !in held && !InPush(muts, a)
  }

  /** The collector cannot lock a before m has visited its object. */
  predicate Forces(objs: Heap, m: Mutator, a: Vaddr) {
    HasLock(m, a) && WillVisit(objs, m)
  }

  /**
   To get past a, the collector must come to b: as a reference of the white object a that nobody holds, or because a
   mutator with a lock on a is inside cs_get_write, for the object b or an object that refers to b.
   */
  ghost predicate LeadsTo(objs: Heap, held: set<Vaddr>, muts: map<nat, Mutator>, a: Vaddr, b: Vaddr) {
    || (Traced(objs, held, muts, a) && b in objs[a].refs)
    || (exists t :: t in muts && Forces(objs, muts[t], a) && Visitable(objs, muts[t].phase.a, b))
  }

  predicate Visitable(objs: Heap, x: Vaddr, b: Vaddr) {
    b == x || (x in objs && b in objs[x].refs)
  }

  ghost function LeadGraph(s: State): Graph {
    map a | a in s.objs :: set b | b in s.objs && LeadsTo(s.objs, WriteHeld(s.muts), s.muts, a, b)
  }

  /** What marking cannot miss. */
  ghost function Led(s: State): set<Vaddr> {
    Reach(LeadGraph(s), Elems(s.inProgress))
  }

  // ---------------------------------------------------------------------------- the start

  /** A mutator has the write locks it thinks it has. */
  ghost predicate MutLocks(writer: map<Vaddr, Owner>, t: nat, m: Mutator) {
    && (forall a :: a in m.wlocks ==> a in writer && writer[a] == Mut(t))
    && (!m.phase.Idle? ==> m.phase.a !in m.wlocks && m.phase.a in writer && writer[m.phase.a] == Mut(t))
    && (forall a :: a in m.rlocks ==> a !in writer)
  }

  /** A mutator past its look at the status saw something else than VISITED, and still has the lock. */
  predicate NotBlack(objs: Heap, m: Mutator) {
    m.phase.Seen? || m.phase.Visiting? || m.phase.Pushed? ==> !Is(objs, m.phase.a, Visited)
  }

  ghost predicate KnowsItsLocks(m: Mutator) {
    forall a :: HasLock(m, a) ==> a in m.locals
  }

  /** Every write lock has its holder. */
  ghost predicate Owned(writer: map<Vaddr, Owner>, muts: map<nat, Mutator>) {
    forall a :: a in writer && writer[a].Mut? ==> writer[a].t in muts && HasLock(muts[writer[a].t], a)
  }

  /** No cycle is under way. Mutators may be anywhere, inside the barrier or with locks, and entries may be left over. */
  ghost predicate Ready(s: State) {
    && s.gc == Outer(true) && s.visit == [] && s.born == {} && s.freed == {}
    && NULL_VADDR !in s.objs
    && (forall a :: a in s.objs ==> s.objs[a].status != InProgress)
    && (forall a :: a in Handles(s) + Elems(s.inProgress) ==> a in s.objs)
    && (forall a, b :: a in Live(s) && a in s.objs && b in s.objs[a].refs ==> b == NULL_VADDR || b in s.objs)
    && Owned(s.writer, s.muts) && (forall a :: a in s.writer ==> s.writer[a] != Gc)
    && (forall t :: t in s.muts ==>
          MutLocks(s.writer, t, s.muts[t]) && KnowsItsLocks(s.muts[t]) && NotBlack(s.objs, s.muts[t]))
  }

  /** The state in which the roots have just been pushed, and their lock has been released. */
  ghost predicate Start(s: State) {
    Ready(s) && s.flag && forall id :: id in s.roots ==> s.roots[id] in s.inProgress
  }

  /** Every white object in use will be come to by marking, or is being visited by a mutator. */
  ghost predicate Clean(s: State) {
    forall a :: a in Accessible(s) && Is(s.objs, a, Unvisited) ==> a in Led(s) || InVisit(s.muts, a)
  }
}
