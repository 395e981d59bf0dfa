/** A mutator that winds down: it finishes its barrier, erases what it may write to, and gives back its locks. */
module CollectorWind {
  import opened Common
  import opened Graph
  import opened ConcurrentCollector
  import opened CollectorOrder
  import opened CollectorSnapshot
  import opened CollectorAlone

  /** It is inside the barrier only with a lock in c, erases only references that it knows, and unlocks what is erased. */
  ghost predicate Winds(c: set<Vaddr>, s: State, step: Step)
    requires Enabled(s, step)
  {
    match step
    case ReadStatus(t) => LockIn(s.muts[t], c)
    case ReadFlag(t) => LockIn(s.muts[t], c)
    case PushRefs(t) => LockIn(s.muts[t], c)
    case SetVisited(_) => true
    case UnlockRead(_, _) => true
    case Load(_, _, _) => true
    case Store(t, a, i, b) =>
      b == NULL_VADDR && (s.objs[a].refs[i] == NULL_VADDR || s.objs[a].refs[i] in s.muts[t].locals)
    case UnlockWrite(_, a) => RefsIn(s.objs, a, {})
    case _ => false
  }

  ghost predicate WindRun(c: set<Vaddr>, s: State, steps: seq<Step>, s': State)
    decreases |steps|
  {
    if steps == [] then s' == s
    else Enabled(s, steps[0]) && Winds(c, s, steps[0]) && WindRun(c, Do(s, steps[0]), steps[1..], s')
  }

  lemma {:induction false} WindRuns(c: set<Vaddr>, s: State, steps: seq<Step>, s': State)
    requires WindRun(c, s, steps, s')
    ensures Run(s, steps, s')
    decreases |steps|
  {
    hide Enabled, Do, Winds;
    if steps != [] {
      WindRuns(c, Do(s, steps[0]), steps[1..], s');
    }
  }

  lemma {:induction false} WindThen(c: set<Vaddr>, s: State, p: seq<Step>, m: State, q: seq<Step>, s': State)
    requires WindRun(c, s, p, m) && WindRun(c, m, q, s')
    ensures WindRun(c, s, p + q, s')
    decreases |p|
  {
    hide Enabled, Do, Winds;
    if p == [] {
      assert p + q == q;
    } else {
      WindThen(c, Do(s, p[0]), p[1..], m, q, s');
      assert (p + q)[1..] == p[1..] + q;
    }
  }

  lemma WindFirst(c: set<Vaddr>, s: State, step: Step, rest: seq<Step>, s': State)
    requires Enabled(s, step) && Winds(c, s, step) && WindRun(c, Do(s, step), rest, s')
    ensures WindRun(c, s, [step] + rest, s')
  {
    hide Enabled, Do, Winds;
    assert ([step] + rest)[1..] == rest;
  }

  lemma NotWound(c: set<Vaddr>, s: State)
    ensures WindRun(c, s, [], s)
  {
  }

  // ---------------------------------------------------------------------------- what it leaves alone

  /** Of the mutators only t acts; it forgets nothing, and nothing comes or goes. */
  ghost predicate OnlyActs(s: State, s': State, t: nat) {
    && t in s.muts && t in s'.muts && s'.muts == s.muts[t := s'.muts[t]] && s.muts[t].locals <= s'.muts[t].locals
    && s'.gc == s.gc && s'.flag == s.flag && s'.roots == s.roots && s'.objs.Keys == s.objs.Keys
  }

  lemma ActsThen(s: State, m: State, s': State, t: nat)
    requires OnlyActs(s, m, t) && OnlyActs(m, s', t)
    ensures OnlyActs(s, s', t)
  {
  }

  lemma NothingActs(s: State, t: nat)
    requires t in s.muts
    ensures OnlyActs(s, s, t)
  {
    assert s.muts[t := s.muts[t]] == s.muts;
  }

  lemma WindActs(c: set<Vaddr>, s: State, step: Step)
    requires Enabled(s, step) && Winds(c, s, step)
    ensures !step.GcMove? && !step.GcScan? && OnlyActs(s, Do(s, step), step.t)
  {
    hide LockIn, NonNull;
    var t := step.t;
    assert s.muts[t := s.muts[t]] == s.muts;
  }

  lemma WindOrder(u: set<Vaddr>, c: set<Vaddr>, s: State, step: Step)
    requires Orderly(u, s) && Enabled(s, step) && Winds(c, s, step)
    ensures Orderly(u, Do(s, step))
  {
    hide Orderly, MutEnabled, MutDo, LockIn;
    MutOrder(u, s, step);
  }

  // ---------------------------------------------------------------------------- one thing after the other

  function Left(p: Phase): nat {
    match p
    case Locked(_) => 4
    case Seen(_) => 3
    case Visiting(_) => 2
    case Pushed(_) => 1
    case Idle => 0
  }

  function Barrier(t: nat, p: Phase): Step
    requires !p.Idle?
  {
    match p
    case Locked(_) => ReadStatus(t)
    case Seen(_) => ReadFlag(t)
    case Visiting(_) => PushRefs(t)
    case Pushed(_) => SetVisited(t)
  }

  lemma BarrierMoves(c: set<Vaddr>, s: State, t: nat)
    requires t in s.muts && !s.muts[t].phase.Idle? && s.muts[t].phase.a in s.objs && LockIn(s.muts[t], c)
    ensures var step := Barrier(t, s.muts[t].phase);
            && Enabled(s, step) && Winds(c, s, step)
            && var m' := Do(s, step).muts[t];
            && Left(m'.phase) < Left(s.muts[t].phase) && forall y :: HasLock(s.muts[t], y) ==> HasLock(m', y)
  {
    hide LockIn, NonNull;
  }

  lemma LocksExist(u: set<Vaddr>, s: State, t: nat)
    requires Orderly(u, s) && t in s.muts
    ensures forall a :: HasLock(s.muts[t], a) ==> a in s.objs
  {
    OwnLocks(u, s, t);
  }

  lemma {:induction false} FinishBarrier(u: set<Vaddr>, c: set<Vaddr>, s: State, t: nat)
    returns (steps: seq<Step>, s': State)
    requires Orderly(u, s) && t in s.muts && (!s.muts[t].phase.Idle? ==> LockIn(s.muts[t], c))
    ensures WindRun(c, s, steps, s') && Orderly(u, s') && OnlyActs(s, s', t) && s'.muts[t].phase.Idle?
    decreases Left(s.muts[t].phase)
  {
    hide Orderly, Do, Enabled, Winds, OnlyActs, WindRun, HasLock, Left;
    if s.muts[t].phase.Idle? {
      NotWound(c, s);
      NothingActs(s, t);
      return [], s;
    }
    var step := Barrier(t, s.muts[t].phase);
    LocksExist(u, s, t);
    assert HasLock(s.muts[t], s.muts[t].phase.a) by { PhaseIsLocked(s.muts[t]); }
    BarrierMoves(c, s, t);
    WindActs(c, s, step);
    WindOrder(u, c, s, step);
    ActsIn(s, Do(s, step), t);
    var rest;
    rest, s' := FinishBarrier(u, c, Do(s, step), t);
    steps := [step] + rest;
    WindFirst(c, s, step, rest, s');
    ActsThen(s, Do(s, step), s', t);
  }

  lemma PhaseIsLocked(m: Mutator)
    requires !m.phase.Idle?
    ensures HasLock(m, m.phase.a)
  {
  }

  lemma ActsIn(s: State, s': State, t: nat)
    requires OnlyActs(s, s', t)
    ensures t in s'.muts
  {
  }

  /** It may write to x, and has erased all but the last references of it. */
  ghost predicate Erasing(s: State, t: nat, x: Vaddr, left: nat) {
    && t in s.muts && s.muts[t].phase.Idle? && x in s.muts[t].wlocks && x in s.objs
    && left <= |s.objs[x].refs| && forall i :: 0 <= i < |s.objs[x].refs| - left ==> s.objs[x].refs[i] == NULL_VADDR
  }

  lemma Erases(c: set<Vaddr>, s: State, t: nat, x: Vaddr, left: nat) returns (load: Step, store: Step)
    requires Erasing(s, t, x, left) && left > 0
    ensures Enabled(s, load) && Winds(c, s, load)
    ensures var m := Do(s, load);
            && Enabled(m, store) && Winds(c, m, store)
            && Erasing(Do(m, store), t, x, left - 1)
            && SameLocks(s.muts[t], Do(m, store).muts[t])
    ensures load.Load? && store.Store? && load.t == t && store.t == t
  {
    hide LockIn, NonNull;
    var i := |s.objs[x].refs| - left;
    load, store := Load(t, x, i), Store(t, x, i, NULL_VADDR);
  }

  predicate SameLocks(m: Mutator, m': Mutator) {
    m'.wlocks == m.wlocks && m'.rlocks == m.rlocks && m'.phase == m.phase
  }

  lemma {:induction false} EraseRefs(u: set<Vaddr>, c: set<Vaddr>, s: State, t: nat, x: Vaddr, left: nat)
    returns (steps: seq<Step>, s': State)
    requires Orderly(u, s) && Erasing(s, t, x, left)
    ensures WindRun(c, s, steps, s') && Orderly(u, s') && OnlyActs(s, s', t)
    ensures Erasing(s', t, x, 0) && SameLocks(s.muts[t], s'.muts[t])
    decreases left
  {
    hide Orderly, Do, Enabled, Winds, OnlyActs, WindRun;
    if left == 0 {
      NotWound(c, s);
      NothingActs(s, t);
      return [], s;
    }
    var load, store := Erases(c, s, t, x, left);
    var m := Do(s, load);
    WindActs(c, s, load);
    WindOrder(u, c, s, load);
    WindActs(c, m, store);
    WindOrder(u, c, m, store);
    var rest;
    rest, s' := EraseRefs(u, c, Do(m, store), t, x, left - 1);
    WindFirst(c, m, store, rest, s');
    WindFirst(c, s, load, [store] + rest, s');
    steps := [load] + ([store] + rest);
    ActsThen(s, m, Do(m, store), t);
    ActsThen(s, Do(m, store), s', t);
  }

  lemma Unlocks(c: set<Vaddr>, s: State, t: nat, x: Vaddr)
    requires Erasing(s, t, x, 0)
    ensures Enabled(s, UnlockWrite(t, x)) && Winds(c, s, UnlockWrite(t, x))
    ensures Do(s, UnlockWrite(t, x)).muts == s.muts[t := s.muts[t].(wlocks := s.muts[t].wlocks - {x})]
  {
    hide LockIn, NonNull;
  }

  lemma StartsErasing(u: set<Vaddr>, s: State, t: nat, x: Vaddr)
    requires Orderly(u, s) && t in s.muts && s.muts[t].phase.Idle? && x in s.muts[t].wlocks
    ensures x in s.objs && Erasing(s, t, x, |s.objs[x].refs|)
  {
    OwnLocks(u, s, t);
    assert HasLock(s.muts[t], x);
  }

  lemma {:induction false} ReleaseWrites(u: set<Vaddr>, c: set<Vaddr>, s: State, t: nat)
    returns (steps: seq<Step>, s': State)
    requires Orderly(u, s) && t in s.muts && s.muts[t].phase.Idle?
    ensures WindRun(c, s, steps, s') && Orderly(u, s') && OnlyActs(s, s', t)
    ensures s'.muts[t].phase.Idle? && s'.muts[t].wlocks == {}
    decreases s.muts[t].wlocks
  {
    hide Orderly, Do, Enabled, Winds, OnlyActs, WindRun, Erasing;
    if s.muts[t].wlocks == {} {
      NotWound(c, s);
      NothingActs(s, t);
      return [], s;
    }
    var x := SomeOf(s.muts[t].wlocks);
    StartsErasing(u, s, t, x);
    var erase, m := EraseRefs(u, c, s, t, x, |s.objs[x].refs|);
    var unlock := UnlockWrite(t, x);
    ActsIn(s, m, t);
    Unlocks(c, m, t, x);
    WindActs(c, m, unlock);
    WindOrder(u, c, m, unlock);
    var rest;
    rest, s' := ReleaseWrites(u, c, Do(m, unlock), t);
    WindFirst(c, m, unlock, rest, s');
    WindThen(c, s, erase, m, [unlock] + rest, s');
    steps := erase + ([unlock] + rest);
    ActsThen(s, m, Do(m, unlock), t);
    ActsThen(s, Do(m, unlock), s', t);
  }

  lemma UnlocksRead(c: set<Vaddr>, s: State, t: nat, x: Vaddr)
    requires t in s.muts && s.muts[t].phase.Idle? && x in s.muts[t].rlocks
    ensures Enabled(s, UnlockRead(t, x)) && Winds(c, s, UnlockRead(t, x))
    ensures Do(s, UnlockRead(t, x)).muts == s.muts[t := s.muts[t].(rlocks := s.muts[t].rlocks - {x})]
  {
    hide LockIn, NonNull;
  }

  lemma {:induction false} ReleaseReads(u: set<Vaddr>, c: set<Vaddr>, s: State, t: nat)
    returns (steps: seq<Step>, s': State)
    requires Orderly(u, s) && t in s.muts && s.muts[t].phase.Idle? && s.muts[t].wlocks == {}
    ensures WindRun(c, s, steps, s') && Orderly(u, s') && OnlyActs(s, s', t) && NoLocks(s'.muts[t])
    decreases s.muts[t].rlocks
  {
    hide Orderly, Do, Enabled, Winds, OnlyActs, WindRun;
    if s.muts[t].rlocks == {} {
      NotWound(c, s);
      NothingActs(s, t);
      return [], s;
    }
    var x := SomeOf(s.muts[t].rlocks);
    var unlock := UnlockRead(t, x);
    UnlocksRead(c, s, t, x);
    WindActs(c, s, unlock);
    WindOrder(u, c, s, unlock);
    var rest;
    rest, s' := ReleaseReads(u, c, Do(s, unlock), t);
    WindFirst(c, s, unlock, rest, s');
    steps := [unlock] + rest;
    ActsThen(s, Do(s, unlock), s', t);
  }

  /** A mutator can wind down, whatever it holds. */
  lemma WindDown(u: set<Vaddr>, c: set<Vaddr>, s: State, t: nat) returns (steps: seq<Step>, s': State)
    requires Orderly(u, s) && t in s.muts && (!s.muts[t].phase.Idle? ==> LockIn(s.muts[t], c))
    ensures WindRun(c, s, steps, s') && Orderly(u, s') && OnlyActs(s, s', t) && NoLocks(s'.muts[t])
  {
    hide Orderly, WindRun, OnlyActs;
    var p, m := FinishBarrier(u, c, s, t);
    ActsIn(s, m, t);
    var q, n := ReleaseWrites(u, c, m, t);
    ActsIn(m, n, t);
    var r;
    r, s' := ReleaseReads(u, c, n, t);
    WindThen(c, m, q, n, r, s');
    WindThen(c, s, p, m, q + r, s');
    steps := p + (q + r);
    ActsThen(s, m, n, t);
    ActsThen(s, n, s', t);
  }

  // ---------------------------------------------------------------------------- many of them

  /** The mutators in ts have no locks any more, the others are as they were. */
  ghost predicate WoundDown(s: State, s': State, ts: set<nat>) {
    && s'.muts.Keys == s.muts.Keys && ts <= s.muts.Keys
    && (forall t :: t in ts ==> NoLocks(s'.muts[t]))
    && (forall t :: t in s.muts && t !in ts ==> s'.muts[t] == s.muts[t])
    && s'.gc == s.gc && s'.flag == s.flag && s'.roots == s.roots && s'.objs.Keys == s.objs.Keys
  }

  lemma WoundMore(s: State, m: State, s': State, t: nat, ts: set<nat>)
    requires OnlyActs(s, m, t) && NoLocks(m.muts[t]) && WoundDown(m, s', ts - {t}) && t in ts
    ensures WoundDown(s, s', ts)
  {
    forall k | k in s.muts && k !in ts ensures s'.muts[k] == s.muts[k] {
      assert k !in ts - {t};
    }
    forall k | k in ts ensures k in s.muts && NoLocks(s'.muts[k]) {
      if k == t {
        assert k !in ts - {t} && k in m.muts;
      } else {
        assert k in ts - {t} && k in m.muts;
      }
    }
  }

  lemma LocksInHeap(u: set<Vaddr>, s: State)
    requires Orderly(u, s)
    ensures forall t :: t in s.muts && !s.muts[t].phase.Idle? ==> LockIn(s.muts[t], s.objs.Keys)
  {
    forall t | t in s.muts && !s.muts[t].phase.Idle? ensures LockIn(s.muts[t], s.objs.Keys) {
      OwnLocks(u, s, t);
      PhaseIsLocked(s.muts[t]);
    }
  }

  lemma {:induction false} WindAll(u: set<Vaddr>, c: set<Vaddr>, s: State, ts: set<nat>)
    returns (steps: seq<Step>, s': State)
    requires Orderly(u, s) && ts <= s.muts.Keys
    requires forall t :: t in ts && !s.muts[t].phase.Idle? ==> LockIn(s.muts[t], c)
    ensures WindRun(c, s, steps, s') && Orderly(u, s') && WoundDown(s, s', ts)
    decreases ts
  {
    hide Orderly, WindRun, LockIn;
    if ts == {} {
      NotWound(c, s);
      return [], s;
    }
    var t := SomeOf(ts);
    var p, m := WindDown(u, c, s, t);
    var q;
    q, s' := WindAll(u, c, m, ts - {t});
    WindThen(c, s, p, m, q, s');
    steps := p + q;
    WoundMore(s, m, s', t, ts);
  }
}
