/** The snapshot invariant: what marking has yet to come to is still led to, from the stack and the grey objects. */
module CollectorSnapshot {
  import opened Common
  import opened Graph
  import opened ConcurrentCollector
  import opened CollectorOrder

  predicate Queued(inProgress: seq<Vaddr>, gc: Pc, a: Vaddr) {
    a in inProgress || ((gc.LockProgress? || gc.MarkProgress?) && gc.a == a)
  }

  /** The part of a state that the snapshot invariant is about. */
  datatype View = View(objs: Heap, inProgress: seq<Vaddr>, gc: Pc, muts: map<nat, Mutator>)

  function ViewOf(s: State): View {
    View(s.objs, s.inProgress, s.gc, s.muts)
  }

  ghost predicate RefsIn(objs: Heap, x: Vaddr, c: set<Vaddr>) {
    x in objs ==> forall b :: b in objs[x].refs ==> b == NULL_VADDR || b in c
  }

  /** The references of x have been pushed by someone who is about to paint it black. */
  ghost predicate Spent(v: View, x: Vaddr) {
    v.gc == FinishVisit(x) || InPush(v.muts, x)
  }

  ghost predicate LockIn(m: Mutator, c: set<Vaddr>) {
    exists y :: y in c && HasLock(m, y)
  }

  ghost predicate Forced(objs: Heap, m: Mutator, c: set<Vaddr>) {
    exists y :: y in c && Forces(objs, m, y)
  }

  ghost predicate CoversQueue(v: View, c: set<Vaddr>) {
    forall b :: Queued(v.inProgress, v.gc, b) ==> b in c
  }

  ghost predicate CoversGrey(v: View, c: set<Vaddr>) {
    forall x {:trigger RefsIn(v.objs, x, c)} :: Is(v.objs, x, InProgress) && !Spent(v, x) ==> RefsIn(v.objs, x, c)
  }

  ghost predicate CoversWhite(held: set<Vaddr>, v: View, c: set<Vaddr>) {
    forall x {:trigger RefsIn(v.objs, x, c)} :: x in c && Traced(v.objs, held, v.muts, x) ==> RefsIn(v.objs, x, c)
  }

  ghost predicate CoversForced(v: View, c: set<Vaddr>) {
    forall t :: t in v.muts && Forced(v.objs, v.muts[t], c) ==>
      v.muts[t].phase.a in c && RefsIn(v.objs, v.muts[t].phase.a, c)
  }

  /** A mutator with a lock in c that has pushed the references of an object is about to paint it black. */
  ghost predicate CoversPushed(v: View, c: set<Vaddr>) {
    forall t :: t in v.muts && v.muts[t].phase.Pushed? && LockIn(v.muts[t], c) ==> v.muts[t].phase.a in c
  }

  /** c holds all that the stacked addresses and the grey objects lead to. */
  ghost predicate Covers(held: set<Vaddr>, v: View, c: set<Vaddr>) {
    CoversQueue(v, c) && CoversGrey(v, c) && CoversWhite(held, v, c) && CoversForced(v, c) && CoversPushed(v, c)
  }

  ghost predicate WhiteWithin(led: set<Vaddr>, v: View, c: set<Vaddr>) {
    forall a :: a in led && Is(v.objs, a, Unvisited) ==> a in c
  }

  /** Every white object that was led to at the start is still led to. */
  ghost predicate Snapshotted(led: set<Vaddr>, held: set<Vaddr>, v: View) {
    forall c: set<Vaddr> {:trigger Covers(held, v, c)} :: Covers(held, v, c) ==> WhiteWithin(led, v, c)
  }

  // ---------------------------------------------------------------------------- the collector

  /** The collector moves on without dropping a queued address. */
  lemma Requeued(led: set<Vaddr>, held: set<Vaddr>, v: View, v': View)
    requires Snapshotted(led, held, v) && v'.objs == v.objs && v'.muts == v.muts
    requires forall b :: Queued(v.inProgress, v.gc, b) ==> Queued(v'.inProgress, v'.gc, b)
    requires v'.gc.FinishVisit? ==> v'.gc == v.gc
    ensures Snapshotted(led, held, v')
  {
    forall c: set<Vaddr> | Covers(held, v', c) ensures WhiteWithin(led, v', c) {
      assert Covers(held, v, c);
    }
  }

  /** It pushes the references of a grey object. */
  lemma GreyPushed(led: set<Vaddr>, held: set<Vaddr>, v: View, v': View, a: Vaddr)
    requires Snapshotted(led, held, v) && v'.objs == v.objs && v'.muts == v.muts && a in v.objs
    requires v.gc == CheckVisit(a) && v'.gc == FinishVisit(a)
    requires v'.inProgress == v.inProgress + NonNull(v.objs[a].refs)
    ensures Snapshotted(led, held, v')
  {
    forall c: set<Vaddr> | Covers(held, v', c) ensures WhiteWithin(led, v', c) {
      assert RefsIn(v.objs, a, c);
      assert Covers(held, v, c);
    }
  }

  lemma RefsInMore(objs: Heap, objs': Heap, x: Vaddr, c: set<Vaddr>, d: set<Vaddr>)
    requires RefsIn(objs', x, c) && c <= d && (x in objs ==> x in objs' && objs'[x].refs == objs[x].refs)
    ensures RefsIn(objs, x, d)
  {
  }

  /** a is locked by the collector: no mutator is forced by it, and none is inside the barrier for it. */
  ghost predicate GcHas(muts: map<nat, Mutator>, a: Vaddr) {
    forall t :: t in muts ==> !HasLock(muts[t], a)
  }

  lemma GcHasIt(u: set<Vaddr>, s: State, a: Vaddr)
    requires Orderly(u, s) && GcHolds(s.gc, a)
    ensures GcHas(s.muts, a)
  {
    forall t | t in s.muts ensures !HasLock(s.muts[t], a) {
      OwnLocks(u, s, t);
    }
  }

  /** Mutators see no difference when the collector paints a. */
  lemma ForcedOn(objs: Heap, m: Mutator, a: Vaddr, st: Status, c: set<Vaddr>)
    requires a in objs && !HasLock(m, a)
    ensures Forced(objs, m, c + {a}) ==> Forced(Painted(objs, a, st), m, c)
    ensures Forced(objs, m, c) ==> Forced(Painted(objs, a, st), m, c)
    ensures WillVisit(objs, m) ==> m.phase.a != a
  {
    if y :| y in c + {a} && Forces(objs, m, y) {
      assert y in c && Forces(Painted(objs, a, st), m, y);
    }
  }

  lemma NoLockMore(muts: map<nat, Mutator>, a: Vaddr, c: set<Vaddr>)
    requires GcHas(muts, a)
    ensures forall t :: t in muts && LockIn(muts[t], c + {a}) ==> LockIn(muts[t], c)
  {
  }

  lemma ForcedAfterPaint(v: View, a: Vaddr, st: Status, gc': Pc, c: set<Vaddr>)
    requires a in v.objs && GcHas(v.muts, a) && CoversForced(v.(objs := Painted(v.objs, a, st), gc := gc'), c)
    ensures CoversForced(v, c + {a}) && CoversForced(v, c)
  {
    var objs' := Painted(v.objs, a, st);
    forall d, t | (d == c || d == c + {a}) && t in v.muts && Forced(v.objs, v.muts[t], d)
      ensures v.muts[t].phase.a in d && RefsIn(v.objs, v.muts[t].phase.a, d)
    {
      ForcedOn(v.objs, v.muts[t], a, st, c);
      RefsInMore(v.objs, objs', v.muts[t].phase.a, c, d);
    }
  }

  /** A white object on top of the stack turns grey. */
  lemma TurnsGrey(led: set<Vaddr>, held: set<Vaddr>, v: View, a: Vaddr)
    requires Snapshotted(led, held, v) && v.gc == MarkProgress(a) && Is(v.objs, a, Unvisited) && GcHas(v.muts, a)
    ensures Snapshotted(led, held, v.(objs := Painted(v.objs, a, InProgress), gc := UnlockProgress(a)))
  {
    var v' := v.(objs := Painted(v.objs, a, InProgress), gc := UnlockProgress(a));
    forall c: set<Vaddr> | Covers(held, v', c) ensures WhiteWithin(led, v', c) {
      GreyCovers(held, v, v', a, c);
      assert WhiteWithin(led, v, c + {a});
    }
  }

  lemma GreyCovers(held: set<Vaddr>, v: View, v': View, a: Vaddr, c: set<Vaddr>)
    requires v.gc == MarkProgress(a) && Is(v.objs, a, Unvisited) && GcHas(v.muts, a)
    requires v' == v.(objs := Painted(v.objs, a, InProgress), gc := UnlockProgress(a)) && Covers(held, v', c)
    ensures Covers(held, v, c + {a})
  {
    hide CoversForced, RefsIn, LockIn;
    NoLockMore(v.muts, a, c);
    ForcedAfterPaint(v, a, InProgress, v'.gc, c);
    NotInPush(v.muts, a);
    assert RefsIn(v'.objs, a, c);
    forall x | RefsIn(v'.objs, x, c) ensures RefsIn(v.objs, x, c + {a}) {
      RefsInMore(v.objs, v'.objs, x, c, c + {a});
    }
  }

  lemma NotInPush(muts: map<nat, Mutator>, a: Vaddr)
    requires GcHas(muts, a)
    ensures !InPush(muts, a) && !InVisit(muts, a)
  {
  }

  /** An object that is not white is dropped. */
  lemma Dropped(led: set<Vaddr>, held: set<Vaddr>, v: View, a: Vaddr)
    requires Snapshotted(led, held, v) && v.gc == MarkProgress(a) && a in v.objs && v.objs[a].status != Unvisited
    requires GcHas(v.muts, a)
    ensures Snapshotted(led, held, v.(gc := UnlockProgress(a)))
  {
    var v' := v.(gc := UnlockProgress(a));
    forall c: set<Vaddr> | Covers(held, v', c) ensures WhiteWithin(led, v', c) {
      DropCovers(held, v, v', a, c);
      assert WhiteWithin(led, v, c + {a});
    }
  }

  lemma DropCovers(held: set<Vaddr>, v: View, v': View, a: Vaddr, c: set<Vaddr>)
    requires v.gc == MarkProgress(a) && a in v.objs && v.objs[a].status != Unvisited && GcHas(v.muts, a)
    requires v' == v.(gc := UnlockProgress(a)) && Covers(held, v', c)
    ensures Covers(held, v, c + {a})
  {
    hide CoversForced, RefsIn, LockIn;
    NoLockMore(v.muts, a, c);
    assert Painted(v.objs, a, v.objs[a].status) == v.objs;
    ForcedAfterPaint(v, a, v.objs[a].status, v'.gc, c);
    forall x | RefsIn(v'.objs, x, c) ensures RefsIn(v.objs, x, c + {a}) {
      RefsInMore(v.objs, v'.objs, x, c, c + {a});
    }
  }

  /** A grey object whose references have been pushed turns black. */
  lemma TurnsBlack(led: set<Vaddr>, held: set<Vaddr>, v: View, a: Vaddr)
    requires Snapshotted(led, held, v) && v.gc == FinishVisit(a) && Is(v.objs, a, InProgress) && GcHas(v.muts, a)
    ensures Snapshotted(led, held, v.(objs := Painted(v.objs, a, Visited), gc := UnlockVisit(a)))
  {
    var v' := v.(objs := Painted(v.objs, a, Visited), gc := UnlockVisit(a));
    forall c: set<Vaddr> | Covers(held, v', c) ensures WhiteWithin(led, v', c) {
      BlackCovers(held, v, v', a, c);
      assert WhiteWithin(led, v, c);
    }
  }

  lemma BlackCovers(held: set<Vaddr>, v: View, v': View, a: Vaddr, c: set<Vaddr>)
    requires v.gc == FinishVisit(a) && Is(v.objs, a, InProgress) && GcHas(v.muts, a)
    requires v' == v.(objs := Painted(v.objs, a, Visited), gc := UnlockVisit(a)) && Covers(held, v', c)
    ensures Covers(held, v, c)
  {
    hide CoversForced, RefsIn, LockIn;
    ForcedAfterPaint(v, a, Visited, v'.gc, c);
    forall x | RefsIn(v'.objs, x, c) ensures RefsIn(v.objs, x, c) {
      RefsInMore(v.objs, v'.objs, x, c, c);
    }
  }

  // ---------------------------------------------------------------------------- the mutators

  /** m forces no less than before as m', and is visiting what it was visiting. */
  ghost predicate StillForces(objs: Heap, m: Mutator, m': Mutator) {
    && (WillVisit(objs, m) ==>
          WillVisit(objs, m') && m'.phase.a == m.phase.a && forall y :: HasLock(m, y) ==> HasLock(m', y))
    && !m.phase.Pushed? && !m'.phase.Pushed?
    && (forall a :: Visits(m, a) ==> Visits(m', a))
  }

  lemma VisitsOn(muts: map<nat, Mutator>, t: nat, m: Mutator, m': Mutator)
    requires t in muts && muts[t] == m && forall a :: Visits(m, a) ==> Visits(m', a)
    ensures forall a :: InVisit(muts, a) ==> InVisit(muts[t := m'], a)
  {
    forall a | InVisit(muts, a) ensures InVisit(muts[t := m'], a) {
      var k :| k in muts && Visits(muts[k], a);
      assert Visits(muts[t := m'][k], a);
    }
  }

  lemma PushesOn(muts: map<nat, Mutator>, t: nat, m: Mutator, m': Mutator)
    requires t in muts && muts[t] == m && (m'.phase.Pushed? ==> m.phase == m'.phase)
    ensures forall a :: InPush(muts[t := m'], a) ==> InPush(muts, a)
  {
    forall a | InPush(muts[t := m'], a) ensures InPush(muts, a) {
      var k :| k in muts[t := m'] && muts[t := m'][k].phase == Pushed(a);
      assert muts[k].phase == Pushed(a);
    }
  }

  /** A mutator moves, the heap and the stack stay. */
  lemma MutMoves(led: set<Vaddr>, held: set<Vaddr>, v: View, t: nat, m: Mutator)
    requires Snapshotted(led, held, v) && t in v.muts && StillForces(v.objs, v.muts[t], m)
    ensures Snapshotted(led, held, v.(muts := v.muts[t := m]))
  {
    var v' := v.(muts := v.muts[t := m]);
    forall c: set<Vaddr> | Covers(held, v', c) ensures WhiteWithin(led, v', c) {
      MoveCovers(held, v, v', t, m, c);
      assert WhiteWithin(led, v, c);
    }
  }

  lemma MoveCovers(held: set<Vaddr>, v: View, v': View, t: nat, m: Mutator, c: set<Vaddr>)
    requires t in v.muts && StillForces(v.objs, v.muts[t], m)
    requires v' == v.(muts := v.muts[t := m]) && Covers(held, v', c)
    ensures Covers(held, v, c)
  {
    hide RefsIn, InPush, LockIn;
    PushesOn(v.muts, t, v.muts[t], m);
    forall k | k in v.muts && v.muts[k].phase.Pushed? && LockIn(v.muts[k], c) ensures v.muts[k].phase.a in c {
      assert v'.muts[k] == v.muts[k];
    }
    forall k | k in v.muts && Forced(v.objs, v.muts[k], c)
      ensures v.muts[k].phase.a in c && RefsIn(v.objs, v.muts[k].phase.a, c)
    {
      var y :| y in c && Forces(v.objs, v.muts[k], y);
      assert Forces(v.objs, v'.muts[k], y);
    }
  }

  /** Nobody but t has a lock on x. */
  ghost predicate OnlyLock(muts: map<nat, Mutator>, t: nat, x: Vaddr) {
    forall k :: k in muts && k != t ==> !HasLock(muts[k], x)
  }

  lemma OnlyIts(u: set<Vaddr>, s: State, t: nat, x: Vaddr)
    requires Orderly(u, s) && t in s.muts && x in s.writer && s.writer[x] == Mut(t)
    ensures OnlyLock(s.muts, t, x)
  {
    forall k | k in s.muts && k != t ensures !HasLock(s.muts[k], x) {
      OwnLocks(u, s, k);
    }
  }

  /** A mutator inside the barrier pushes the references of its object. */
  lemma MutPushes(led: set<Vaddr>, held: set<Vaddr>, v: View, t: nat)
    requires Snapshotted(led, held, v) && t in v.muts && v.muts[t].phase.Visiting? && v.muts[t].phase.a in v.objs
    requires OnlyLock(v.muts, t, v.muts[t].phase.a)
    ensures var x := v.muts[t].phase.a;
            Snapshotted(led, held, v.(inProgress := v.inProgress + NonNull(v.objs[x].refs),
                                      muts := v.muts[t := v.muts[t].(phase := Pushed(x))]))
  {
    var x := v.muts[t].phase.a;
    var m := v.muts[t].(phase := Pushed(x));
    var v' := v.(inProgress := v.inProgress + NonNull(v.objs[x].refs), muts := v.muts[t := m]);
    forall c: set<Vaddr> | Covers(held, v', c) ensures WhiteWithin(led, v', c) {
      PushCovers(held, v, v', t, x, c);
      assert WhiteWithin(led, v, c);
    }
  }

  lemma PushCovers(held: set<Vaddr>, v: View, v': View, t: nat, x: Vaddr, c: set<Vaddr>)
    requires t in v.muts && v.muts[t].phase == Visiting(x) && x in v.objs && OnlyLock(v.muts, t, x)
    requires v' == v.(inProgress := v.inProgress + NonNull(v.objs[x].refs),
                      muts := v.muts[t := v.muts[t].(phase := Pushed(x))])
    requires Covers(held, v', c)
    ensures Covers(held, v, c)
  {
    assert RefsIn(v.objs, x, c);
    PushAdds(v.muts, t, x);
    forall k | k in v.muts && Forced(v.objs, v.muts[k], c)
      ensures v.muts[k].phase.a in c && RefsIn(v.objs, v.muts[k].phase.a, c)
    {
      var y :| y in c && Forces(v.objs, v.muts[k], y);
      assert HasLock(v'.muts[k], y);
    }
    forall k | k in v.muts && v.muts[k].phase.Pushed? && LockIn(v.muts[k], c) ensures v.muts[k].phase.a in c {
      assert v'.muts[k] == v.muts[k];
    }
    PushCoversRest(held, v, v', x, c);
  }

  lemma PushAdds(muts: map<nat, Mutator>, t: nat, x: Vaddr)
    requires t in muts && muts[t].phase == Visiting(x)
    ensures forall a :: InPush(muts[t := muts[t].(phase := Pushed(x))], a) ==> a == x || InPush(muts, a)
  {
    var muts' := muts[t := muts[t].(phase := Pushed(x))];
    forall a | InPush(muts', a) ensures a == x || InPush(muts, a) {
      var k :| k in muts' && muts'[k].phase == Pushed(a);
      assert k != t ==> muts[k].phase == Pushed(a);
    }
  }

  lemma PushCoversRest(held: set<Vaddr>, v: View, v': View, x: Vaddr, c: set<Vaddr>)
    requires v'.objs == v.objs && v'.gc == v.gc && (forall b :: b in v.inProgress ==> b in v'.inProgress)
    requires forall a :: InPush(v'.muts, a) ==> a == x || InPush(v.muts, a)
    requires RefsIn(v.objs, x, c) && CoversQueue(v', c) && CoversGrey(v', c) && CoversWhite(held, v', c)
    ensures CoversQueue(v, c) && CoversGrey(v, c) && CoversWhite(held, v, c)
  {
    hide RefsIn, InPush;
  }

  /** The mutator paints it black, and is out of the barrier. */
  lemma MutBlackens(led: set<Vaddr>, held: set<Vaddr>, v: View, t: nat, m: Mutator)
    requires Snapshotted(led, held, v) && t in v.muts && v.muts[t].phase.Pushed? && v.muts[t].phase.a in v.objs
    requires OnlyLock(v.muts, t, v.muts[t].phase.a) && m.phase.Idle?
    ensures var x := v.muts[t].phase.a;
            Snapshotted(led, held, v.(objs := Painted(v.objs, x, Visited), muts := v.muts[t := m]))
  {
    var x := v.muts[t].phase.a;
    var v' := v.(objs := Painted(v.objs, x, Visited), muts := v.muts[t := m]);
    forall c: set<Vaddr> | Covers(held, v', c) ensures WhiteWithin(led, v', c) {
      BlackenCovers(held, v, v', t, m, x, c);
      assert WhiteWithin(led, v, c + {x});
    }
  }

  lemma BlackenCovers(held: set<Vaddr>, v: View, v': View, t: nat, m: Mutator, x: Vaddr, c: set<Vaddr>)
    requires t in v.muts && v.muts[t].phase == Pushed(x) && x in v.objs && OnlyLock(v.muts, t, x) && m.phase.Idle?
    requires v' == v.(objs := Painted(v.objs, x, Visited), muts := v.muts[t := m]) && Covers(held, v', c)
    ensures Covers(held, v, c + {x})
  {
    var d := c + {x};
    PushesOn(v.muts, t, v.muts[t], m);
    assert InPush(v.muts, x);
    forall y | RefsIn(v'.objs, y, c) ensures RefsIn(v.objs, y, d) {
      RefsInMore(v.objs, v'.objs, y, c, d);
    }
    forall k | k in v.muts && Forced(v.objs, v.muts[k], d)
      ensures v.muts[k].phase.a in d && RefsIn(v.objs, v.muts[k].phase.a, d)
    {
      assert k != t && v'.muts[k] == v.muts[k];
      ForcedOn(v.objs, v.muts[k], x, Visited, c);
    }
    BlackenPushed(v.muts, t, m, x, c);
    BlackenCoversRest(held, v, v', x, c);
  }

  lemma BlackenPushed(muts: map<nat, Mutator>, t: nat, m: Mutator, x: Vaddr, c: set<Vaddr>)
    requires t in muts && muts[t].phase == Pushed(x) && OnlyLock(muts, t, x)
    requires var muts' := muts[t := m];
             forall k :: k in muts' && muts'[k].phase.Pushed? && LockIn(muts'[k], c) ==> muts'[k].phase.a in c
    ensures forall k :: k in muts && muts[k].phase.Pushed? && LockIn(muts[k], c + {x}) ==> muts[k].phase.a in c + {x}
  {
    forall k | k in muts && muts[k].phase.Pushed? && LockIn(muts[k], c + {x}) ensures muts[k].phase.a in c + {x} {
      if k != t {
        var y :| y in c + {x} && HasLock(muts[k], y);
        assert y in c && muts[t := m][k] == muts[k];
      }
    }
  }

  lemma BlackenCoversRest(held: set<Vaddr>, v: View, v': View, x: Vaddr, c: set<Vaddr>)
    requires x in v.objs && v'.objs == Painted(v.objs, x, Visited) && v'.gc == v.gc && v'.inProgress == v.inProgress
    requires InPush(v.muts, x) && forall a :: InPush(v'.muts, a) ==> InPush(v.muts, a)
    requires forall y :: RefsIn(v'.objs, y, c) ==> RefsIn(v.objs, y, c + {x})
    requires CoversQueue(v', c) && CoversGrey(v', c) && CoversWhite(held, v', c)
    ensures CoversQueue(v, c + {x}) && CoversGrey(v, c + {x}) && CoversWhite(held, v, c + {x})
  {
    hide RefsIn, InPush;
  }

  /** A mutator writes to an object that marking does not rely on. */
  lemma MutStores(led: set<Vaddr>, held: set<Vaddr>, v: View, t: nat, a: Vaddr, x: Obj)
    requires Snapshotted(led, held, v) && a in v.objs && x.status == v.objs[a].status
    requires !Is(v.objs, a, InProgress) && !Traced(v.objs, held, v.muts, a)
    requires OnlyLock(v.muts, t, a) && t in v.muts && v.muts[t].phase.Idle?
    ensures Snapshotted(led, held, v.(objs := v.objs[a := x]))
  {
    var v' := v.(objs := v.objs[a := x]);
    forall c: set<Vaddr> | Covers(held, v', c) ensures WhiteWithin(led, v', c) {
      StoreCovers(held, v, v', t, a, x, c);
      assert WhiteWithin(led, v, c);
    }
  }

  lemma StoreCovers(held: set<Vaddr>, v: View, v': View, t: nat, a: Vaddr, x: Obj, c: set<Vaddr>)
    requires a in v.objs && x.status == v.objs[a].status
    requires !Is(v.objs, a, InProgress) && !Traced(v.objs, held, v.muts, a)
    requires OnlyLock(v.muts, t, a) && t in v.muts && v.muts[t].phase.Idle?
    requires v' == v.(objs := v.objs[a := x]) && Covers(held, v', c)
    ensures Covers(held, v, c)
  {
    hide InPush;
    forall y | y != a && RefsIn(v'.objs, y, c) ensures RefsIn(v.objs, y, c) {
      RefsInMore(v.objs, v'.objs, y, c, c);
    }
    forall k | k in v.muts && Forced(v.objs, v.muts[k], c)
      ensures v.muts[k].phase.a in c && RefsIn(v.objs, v.muts[k].phase.a, c)
    {
      var y :| y in c && Forces(v.objs, v.muts[k], y);
      assert k != t && Forces(v'.objs, v.muts[k], y);
    }
  }

  /** A mutator allocates. */
  lemma MutMallocs(led: set<Vaddr>, held: set<Vaddr>, v: View, t: nat, m: Mutator, a: Vaddr, x: Obj)
    requires Snapshotted(led, held, v) && a !in v.objs && x.status == NewlyAdded
    requires t in v.muts && v.muts[t].phase.Idle? && m.phase.Idle?
    ensures Snapshotted(led, held, v.(objs := v.objs[a := x], muts := v.muts[t := m]))
  {
    var v' := v.(objs := v.objs[a := x], muts := v.muts[t := m]);
    forall c: set<Vaddr> | Covers(held, v', c) ensures WhiteWithin(led, v', c) {
      MallocCovers(held, v, v', t, m, a, x, c);
      assert WhiteWithin(led, v, c);
    }
  }

  lemma MallocCovers(held: set<Vaddr>, v: View, v': View, t: nat, m: Mutator, a: Vaddr, x: Obj, c: set<Vaddr>)
    requires a !in v.objs && x.status == NewlyAdded && t in v.muts && v.muts[t].phase.Idle? && m.phase.Idle?
    requires v' == v.(objs := v.objs[a := x], muts := v.muts[t := m]) && Covers(held, v', c)
    ensures Covers(held, v, c)
  {
    hide InPush;
    PushesOn(v.muts, t, v.muts[t], m);
    forall k | k in v.muts && v.muts[k].phase.Pushed? && LockIn(v.muts[k], c) ensures v.muts[k].phase.a in c {
      assert v'.muts[k] == v.muts[k];
    }
    forall y | RefsIn(v'.objs, y, c) ensures RefsIn(v.objs, y, c) {
      RefsInMore(v.objs, v'.objs, y, c, c);
    }
    forall k | k in v.muts && Forced(v.objs, v.muts[k], c)
      ensures v.muts[k].phase.a in c && RefsIn(v.objs, v.muts[k].phase.a, c)
    {
      var y :| y in c && Forces(v.objs, v.muts[k], y);
      assert k != t && v'.muts[k] == v.muts[k] && Forces(v'.objs, v'.muts[k], y);
    }
  }
}
