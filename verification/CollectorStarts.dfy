/** Starts in which something goes wrong, each of them the end of a prelude. */
module CollectorStarts {
  import opened Common
  import opened Graph
  import opened ConcurrentCollector
  import opened CollectorOrder
  import opened CollectorSnapshot
  import opened CollectorInvariant
  import opened CollectorSafety
  import opened CollectorAlone
  import opened CollectorWind
  import opened CollectorExact
  import opened CollectorLate
  import opened CollectorEarly

  const X: Vaddr := Vaddr(0, 0)
  const Y: Vaddr := Vaddr(0, 1)

  /** A state of a prelude with one mutator, that nobody has stacked anything in. */
  function Before(pre: Prelude, objs: Heap, writer: map<Vaddr, Owner>, roots: map<nat, Vaddr>, m: Mutator,
                  born: set<Vaddr>): Early {
    Early(pre, State(objs, writer, [], [], roots, pre.Flagged?, Outer(true), map[0 := m], born, {}))
  }

  function White(refs: seq<Vaddr>): Obj {
    Obj(Unvisited, refs, [])
  }

  function Idling(locals: set<Vaddr>): Mutator {
    Mutator(locals, {}, {}, Idle)
  }

  // ---------------------------------------------------------------------------- runs of the prelude

  lemma EarlyFirst(e: Early, x: EarlyStep, e1: Early, xs: seq<EarlyStep>, e': Early)
    requires EarlyEnabled(e, x) && EarlyDo(e, x) == e1 && EarlyRun(e1, xs, e')
    ensures EarlyRun(e, [x] + xs, e')
  {
    hide EarlyEnabled, EarlyDo;
    assert ([x] + xs)[1..] == xs;
  }

  /** From each state of the list the step of the same index leads to the next. */
  ghost predicate EarlyChain(es: seq<Early>, xs: seq<EarlyStep>) {
    && |es| == |xs| + 1
    && forall i {:trigger ChainAt(es, xs, i)} :: 0 <= i < |xs| ==> ChainAt(es, xs, i)
  }

  ghost predicate ChainAt(es: seq<Early>, xs: seq<EarlyStep>, i: int)
    requires 0 <= i < |xs| < |es|
  {
    EarlyEnabled(es[i], xs[i]) && EarlyDo(es[i], xs[i]) == es[i + 1]
  }

  lemma {:induction false} ChainRuns(es: seq<Early>, xs: seq<EarlyStep>)
    requires EarlyChain(es, xs)
    ensures EarlyRun(es[0], xs, es[|xs|])
    decreases |xs|
  {
    hide EarlyEnabled, EarlyDo;
    if xs != [] {
      assert ChainAt(es, xs, 0);
      forall i | 0 <= i < |xs[1..]| ensures ChainAt(es[1..], xs[1..], i) {
        assert ChainAt(es, xs, i + 1);
      }
      ChainRuns(es[1..], xs[1..]);
      EarlyFirst(es[0], xs[0], es[1], xs[1..], es[|xs|]);
      assert [xs[0]] + xs[1..] == xs;
    }
  }

  /** The mutator asks for the write lock of X, and is inside the barrier. */
  function Asking(pre: Prelude, objs: Heap, roots: map<nat, Vaddr>, phase: Phase): Early {
    Before(pre, objs, map[X := Mut(0)], roots, Mutator({X}, {}, {}, phase), {})
  }

  lemma AsksForLock(pre: Prelude, objs: Heap, roots: map<nat, Vaddr>)
    requires X in objs && !pre.RootsPushed?
    ensures var e, x := Before(pre, objs, map[], roots, Idling({X}), {}), Move(LockWrite(0, X));
            EarlyEnabled(e, x) && EarlyDo(e, x) == Asking(pre, objs, roots, Locked(X))
  {
    var e, e' := Before(pre, objs, map[], roots, Idling({X}), {}), Asking(pre, objs, roots, Locked(X));
    assert e.s.muts[0 := e'.s.muts[0]] == e'.s.muts;
  }

  lemma AsksForStatus(pre: Prelude, objs: Heap, roots: map<nat, Vaddr>)
    requires Is(objs, X, Unvisited) && !pre.RootsPushed?
    ensures var e, x := Asking(pre, objs, roots, Locked(X)), Move(ReadStatus(0));
            EarlyEnabled(e, x) && EarlyDo(e, x) == Asking(pre, objs, roots, Seen(X))
  {
    var e, e' := Asking(pre, objs, roots, Locked(X)), Asking(pre, objs, roots, Seen(X));
    assert e.s.muts[0 := e'.s.muts[0]] == e'.s.muts;
  }

  /** It will visit X, or has the lock, as it finds the flag. */
  lemma AsksForFlag(pre: Prelude, objs: Heap, roots: map<nat, Vaddr>)
    requires !pre.RootsPushed?
    ensures var e, x := Asking(pre, objs, roots, Seen(X)), Move(ReadFlag(0));
            var e' := if pre.Flagged? then Asking(pre, objs, roots, Visiting(X))
                      else Before(pre, objs, map[X := Mut(0)], roots, Mutator({X}, {}, {X}, Idle), {});
            EarlyEnabled(e, x) && EarlyDo(e, x) == e'
  {
    var e := Asking(pre, objs, roots, Seen(X));
    var m := Mutator({X}, {}, if pre.Flagged? then {} else {X}, if pre.Flagged? then Visiting(X) else Idle);
    assert e.s.muts[0 := m] == map[0 := m] && {} + {X} == {X};
  }

  // ---------------------------------------------------------------------------- an object filled too soon

  /** It was allocated, and filled, before the roots were pushed: it is not white, so that it is not traced. */
  function FilledTooSoon(): State {
    Before(RootsPushed, map[X := Obj(NewlyAdded, [Y], []), Y := White([])], map[], map[0 := X], Idling({X}), {}).s.(
      inProgress := [X], flag := true)
  }

  function FillingStates(): seq<Early> {
    var painted, y := Painting({Y}, {Y}), White([]);
    var bare, filled := map[Y := y, X := Obj(NewlyAdded, [NULL_VADDR], [])], map[Y := y, X := Obj(NewlyAdded, [Y], [])];
    var writing := Mutator({X, Y}, {}, {X}, Idle);
    [Before(Painting({Y}, {}), map[Y := y], map[], map[], Idling({Y}), {}),
     Before(painted, map[Y := y], map[], map[], Idling({Y}), {}),
     Before(painted, bare, map[X := Mut(0)], map[], writing, {X}),
     Before(painted, filled, map[X := Mut(0)], map[], writing, {X}),
     Before(painted, filled, map[], map[], Idling({X, Y}), {X}),
     Before(painted, filled, map[], map[0 := X], Idling({X, Y}), {X}),
     Before(painted, filled, map[], map[0 := X], Idling({X}), {X}),
     Before(RootsLocked, filled, map[], map[0 := X], Idling({X}), {X}),
     Before(Flagged, filled, map[], map[0 := X], Idling({X}), {X}),
     Early(RootsPushed, FilledTooSoon())]
  }

  function FillingSteps(): seq<EarlyStep> {
    [PaintOne(Y), Move(Malloc(0, X, 1, [])), Move(Store(0, X, 0, Y)), Move(UnlockWrite(0, X)), Move(AddRoot(0, X, 0)),
     Move(Forget(0, Y)), LockRoots, RaiseFlag, PushRoots([X])]
  }

  lemma FillsMalloc()
    ensures ChainAt(FillingStates(), FillingSteps(), 1)
  {
    assert Nulls(1) == [NULL_VADDR];
    assert {Y} + {X} == {X, Y} && {} + {X} == {X};
    assert MutDo(FillingStates()[1].s, Malloc(0, X, 1, [])) == FillingStates()[2].s;
  }

  lemma FillsStore()
    ensures ChainAt(FillingStates(), FillingSteps(), 2)
  {
    var s, s' := FillingStates()[2].s, FillingStates()[3].s;
    assert [NULL_VADDR][0 := Y] == [Y];
    assert s.objs[X := Obj(NewlyAdded, [Y], [])] == s'.objs;
  }

  lemma FillsUnlock()
    ensures ChainAt(FillingStates(), FillingSteps(), 3)
  {
    var s, s' := FillingStates()[3].s, FillingStates()[4].s;
    assert {X} - {X} == {} && s.writer - {X} == s'.writer;
    assert s.muts[0 := s'.muts[0]] == s'.muts;
  }

  lemma FillsForget()
    ensures ChainAt(FillingStates(), FillingSteps(), 5)
  {
    var s, s' := FillingStates()[5].s, FillingStates()[6].s;
    assert {X, Y} - {Y} == {X};
    assert s.muts[0 := s'.muts[0]] == s'.muts;
  }

  lemma FillsPush()
    ensures ChainAt(FillingStates(), FillingSteps(), 8)
  {
    var s := FillingStates()[8].s;
    assert s.roots[0] in s.roots.Values;
    assert Elems([X]) == {X} == s.roots.Values;
  }

  lemma FillsOther(i: nat)
    requires i == 0 || i == 4 || i == 6 || i == 7
    ensures ChainAt(FillingStates(), FillingSteps(), i)
  {
  }

  lemma FillingAt(i: nat)
    requires i < 9
    ensures ChainAt(FillingStates(), FillingSteps(), i)
  {
    hide ChainAt, FillingStates, FillingSteps;
    match i
    case 1 => FillsMalloc();
    case 2 => FillsStore();
    case 3 => FillsUnlock();
    case 5 => FillsForget();
    case 8 => FillsPush();
    case _ => FillsOther(i);
  }

  // ---------------------------------------------------------------------------- an object held too long

  /** A mutator has had the write lock of a white object since before the flag was set. */
  function HeldTooLong(): State {
    Before(RootsPushed, map[X := White([Y]), Y := White([])], map[X := Mut(0)], map[0 := X], Mutator({X}, {}, {X}, Idle),
           {}).s.(inProgress := [X], flag := true)
  }

  function HoldingStates(): seq<Early> {
    var todo, objs, roots := {X, Y}, map[X := White([Y]), Y := White([])], map[0 := X];
    var held, holds := map[X := Mut(0)], Mutator({X}, {}, {X}, Idle);
    [Before(Painting(todo, {}), objs, map[], roots, Idling({X}), {}),
     Before(Painting(todo, {X}), objs, map[], roots, Idling({X}), {}),
     Before(Painting(todo, {X, Y}), objs, map[], roots, Idling({X}), {}),
     Before(Painting(todo, {X, Y}), objs, held, roots, Mutator({X}, {}, {}, Locked(X)), {}),
     Before(Painting(todo, {X, Y}), objs, held, roots, Mutator({X}, {}, {}, Seen(X)), {}),
     Before(Painting(todo, {X, Y}), objs, held, roots, holds, {}),
     Before(RootsLocked, objs, held, roots, holds, {}),
     Before(Flagged, objs, held, roots, holds, {}),
     Early(RootsPushed, HeldTooLong())]
  }

  function HoldingSteps(): seq<EarlyStep> {
    [PaintOne(X), PaintOne(Y), Move(LockWrite(0, X)), Move(ReadStatus(0)), Move(ReadFlag(0)), LockRoots, RaiseFlag,
     PushRoots([X])]
  }

  lemma HoldsPaint(i: nat)
    requires i < 2
    ensures ChainAt(HoldingStates(), HoldingSteps(), i)
  {
    var s, a := HoldingStates()[i].s, HoldingSteps()[i].a;
    assert Painted(s.objs, a, Unvisited) == s.objs;
    assert {} + {X} == {X} && {X} + {Y} == {X, Y};
  }

  lemma HoldsMove(i: nat)
    requires 2 <= i < 5
    ensures ChainAt(HoldingStates(), HoldingSteps(), i)
  {
    hide EarlyEnabled, EarlyDo;
    var e := HoldingStates()[i];
    if i == 2 { AsksForLock(e.pre, e.s.objs, e.s.roots); }
    else if i == 3 { AsksForStatus(e.pre, e.s.objs, e.s.roots); }
    else { AsksForFlag(e.pre, e.s.objs, e.s.roots); }
  }

  lemma HoldsRest(i: nat)
    requires 5 <= i < 8
    ensures ChainAt(HoldingStates(), HoldingSteps(), i)
  {
    var s := HoldingStates()[i].s;
    assert s.roots[0] in s.roots.Values;
    assert Elems([X]) == {X} == s.roots.Values;
  }

  lemma HoldingAt(i: nat)
    requires i < 8
    ensures ChainAt(HoldingStates(), HoldingSteps(), i)
  {
    hide ChainAt, HoldingStates, HoldingSteps;
    if i < 2 { HoldsPaint(i); } else if i < 5 { HoldsMove(i); } else { HoldsRest(i); }
  }

  // ---------------------------------------------------------------------------- an address that only a mutator knows

  /** Nothing is rooted, and the mutator has an address, but no lock. */
  function KnownToOne(): State {
    Before(RootsPushed, map[X := White([])], map[], map[], Idling({X}), {}).s.(flag := true)
  }

  function KnowingStates(): seq<Early> {
    var objs := map[X := White([])];
    [Before(Painting({X}, {}), objs, map[], map[], Idling({X}), {}),
     Before(Painting({X}, {X}), objs, map[], map[], Idling({X}), {}),
     Before(RootsLocked, objs, map[], map[], Idling({X}), {}),
     Before(Flagged, objs, map[], map[], Idling({X}), {}),
     Early(RootsPushed, KnownToOne())]
  }

  function KnowingSteps(): seq<EarlyStep> {
    [PaintOne(X), LockRoots, RaiseFlag, PushRoots([])]
  }

  lemma KnowingAt(i: nat)
    requires i < 4
    ensures ChainAt(KnowingStates(), KnowingSteps(), i)
  {
    var s := KnowingStates()[i].s;
    assert {} + {X} == {X} && Painted(s.objs, X, Unvisited) == s.objs;
    assert Elems([]) == {} == s.roots.Values;
  }

  // ---------------------------------------------------------------------------- a visit that marking does not wait for

  /** Nothing is rooted, and the mutator is about to push the references of a white object. */
  function VisitUnderWay(): State {
    Before(RootsPushed, map[X := White([X])], map[X := Mut(0)], map[], Mutator({X}, {}, {}, Visiting(X)), {}).s.(
      flag := true)
  }

  function VisitingStates(): seq<Early> {
    var objs, held := map[X := White([X])], map[X := Mut(0)];
    [Before(Painting({X}, {}), objs, map[], map[], Idling({X}), {}),
     Before(Painting({X}, {X}), objs, map[], map[], Idling({X}), {}),
     Before(RootsLocked, objs, map[], map[], Idling({X}), {}),
     Before(Flagged, objs, map[], map[], Idling({X}), {}),
     Before(Flagged, objs, held, map[], Mutator({X}, {}, {}, Locked(X)), {}),
     Before(Flagged, objs, held, map[], Mutator({X}, {}, {}, Seen(X)), {}),
     Before(Flagged, objs, held, map[], Mutator({X}, {}, {}, Visiting(X)), {}),
     Early(RootsPushed, VisitUnderWay())]
  }

  function VisitingSteps(): seq<EarlyStep> {
    [PaintOne(X), LockRoots, RaiseFlag, Move(LockWrite(0, X)), Move(ReadStatus(0)), Move(ReadFlag(0)), PushRoots([])]
  }

  lemma VisitsMove(i: nat)
    requires 3 <= i < 6
    ensures ChainAt(VisitingStates(), VisitingSteps(), i)
  {
    hide EarlyEnabled, EarlyDo;
    var e := VisitingStates()[i];
    if i == 3 { AsksForLock(e.pre, e.s.objs, e.s.roots); }
    else if i == 4 { AsksForStatus(e.pre, e.s.objs, e.s.roots); }
    else { AsksForFlag(e.pre, e.s.objs, e.s.roots); }
  }

  lemma VisitsRest(i: nat)
    requires i < 3 || i == 6
    ensures ChainAt(VisitingStates(), VisitingSteps(), i)
  {
    var s := VisitingStates()[i].s;
    assert {} + {X} == {X} && Painted(s.objs, X, Unvisited) == s.objs;
    assert Elems([]) == {} == s.roots.Values;
  }

  lemma VisitingAt(i: nat)
    requires i < 7
    ensures ChainAt(VisitingStates(), VisitingSteps(), i)
  {
    hide ChainAt, VisitingStates, VisitingSteps;
    if 3 <= i < 6 { VisitsMove(i); } else { VisitsRest(i); }
  }

  // ---------------------------------------------------------------------------- each begins a cycle

  /** With one mutator that has no lock, and everything there in use, a cycle may begin. */
  lemma Begins(b: State, locals: set<Vaddr>)
    requires b == Before(Painting(b.objs.Keys, {}), b.objs, map[], b.roots, Idling(locals), {}).s
    requires HeapAlive(b.objs.Keys, b.objs) && NoGrey(b.objs) && locals <= b.objs.Keys
    requires forall id :: id in b.roots ==> b.roots[id] in b.objs
    ensures Begin(b)
  {
    hide Ready;
    OrderlyIsReady(b.objs.Keys, b);
  }

  lemma FillingBegins()
    ensures Begin(FillingStates()[0].s) && FillingStates()[0] == Beginning(FillingStates()[0].s)
  {
    hide Begin;
    Begins(FillingStates()[0].s, {Y});
  }

  lemma FillingRuns() returns (b: State, xs: seq<EarlyStep>)
    ensures Begin(b) && EarlyRun(Beginning(b), xs, Early(RootsPushed, FilledTooSoon()))
  {
    hide ChainAt, Begin, Beginning, Before;
    FillingBegins();
    var es := FillingStates();
    b, xs := es[0].s, FillingSteps();
    forall i | 0 <= i < |xs| ensures ChainAt(es, xs, i) { FillingAt(i); }
    ChainRuns(es, xs);
  }

  lemma HoldingBegins()
    ensures Begin(HoldingStates()[0].s) && HoldingStates()[0] == Beginning(HoldingStates()[0].s)
  {
    hide Begin;
    Begins(HoldingStates()[0].s, {X});
  }

  lemma HoldingRuns() returns (b: State, xs: seq<EarlyStep>)
    ensures Begin(b) && EarlyRun(Beginning(b), xs, Early(RootsPushed, HeldTooLong()))
  {
    hide ChainAt, Begin, Beginning, Before;
    HoldingBegins();
    var es := HoldingStates();
    b, xs := es[0].s, HoldingSteps();
    forall i | 0 <= i < |xs| ensures ChainAt(es, xs, i) { HoldingAt(i); }
    ChainRuns(es, xs);
  }

  lemma KnowingBegins()
    ensures Begin(KnowingStates()[0].s) && KnowingStates()[0] == Beginning(KnowingStates()[0].s)
  {
    hide Begin;
    Begins(KnowingStates()[0].s, {X});
  }

  lemma KnowingRuns() returns (b: State, xs: seq<EarlyStep>)
    ensures Begin(b) && EarlyRun(Beginning(b), xs, Early(RootsPushed, KnownToOne()))
  {
    hide ChainAt, Begin, Beginning, Before;
    KnowingBegins();
    var es := KnowingStates();
    b, xs := es[0].s, KnowingSteps();
    forall i | 0 <= i < |xs| ensures ChainAt(es, xs, i) { KnowingAt(i); }
    ChainRuns(es, xs);
  }

  lemma VisitingBegins()
    ensures Begin(VisitingStates()[0].s) && VisitingStates()[0] == Beginning(VisitingStates()[0].s)
  {
    hide Begin;
    Begins(VisitingStates()[0].s, {X});
  }

  lemma VisitingRuns() returns (b: State, xs: seq<EarlyStep>)
    ensures Begin(b) && EarlyRun(Beginning(b), xs, Early(RootsPushed, VisitUnderWay()))
  {
    hide ChainAt, Begin, Beginning, Before;
    VisitingBegins();
    var es := VisitingStates();
    b, xs := es[0].s, VisitingSteps();
    forall i | 0 <= i < |xs| ensures ChainAt(es, xs, i) { VisitingAt(i); }
    ChainRuns(es, xs);
  }

  // ---------------------------------------------------------------------------- what goes wrong

  lemma PreludeStarts(b: State, xs: seq<EarlyStep>, s: State)
    requires Begin(b) && EarlyRun(Beginning(b), xs, Early(RootsPushed, s))
    ensures Start(s)
  {
    hide Begin, Start, EarlyRun;
    PreludeEstablishesStart(b, xs, Early(RootsPushed, s));
  }

  /** In c nothing leads out of c, and nobody is inside the barrier. */
  ghost predicate LeadsNowhere(s: State, c: set<Vaddr>) {
    && Elems(s.inProgress) <= c
    && (forall a, b :: a in c && a in s.objs && Is(s.objs, a, Unvisited) && a !in WriteHeld(s.muts)
                       && b in s.objs[a].refs ==>
          b in c)
    && (forall t :: t in s.muts ==> s.muts[t].phase.Idle?)
  }

  /** Then marking does not come out of c. */
  lemma NotLed(s: State, c: set<Vaddr>)
    requires LeadsNowhere(s, c)
    ensures Led(s) <= c && forall a :: !InVisit(s.muts, a)
  {
    hide Reach;
    assert Closed(LeadGraph(s), Elems(s.inProgress), c);
    ReachIsLeast(LeadGraph(s), Elems(s.inProgress), c);
  }

  lemma LosesOne(s: State, c: set<Vaddr>, a: Vaddr)
    requires Start(s) && LeadsNowhere(s, c) && a in Accessible(s) && Is(s.objs, a, Unvisited) && a !in c
    ensures !AlwaysSafe(s)
  {
    hide Start, LeadsNowhere, Accessible, AlwaysSafe, Led, InVisit;
    NotLed(s, c);
    SafeExactlyWhenClean(s);
  }

  lemma RootIsReached(s: State)
    requires s.roots == map[0 := X] && X in s.objs
    ensures X in Reach(RefGraph(s.objs), s.roots.Values)
  {
    assert s.roots[0] in s.roots.Values;
    PathEndsInReach(RefGraph(s.objs), s.roots.Values, [X]);
  }

  /** What the root 0 refers to is accessible. */
  lemma UnderRoot(s: State)
    requires s.roots == map[0 := X] && X in s.objs && Y in s.objs && Y in s.objs[X].refs
    ensures Y in Accessible(s)
  {
    assert s.roots[0] in s.roots.Values && X in Handles(s);
    PathEndsInReach(RefGraph(s.objs), Handles(s), [X, Y]);
  }

  /** An object filled before the roots are pushed may lose what it refers to. */
  lemma FilledTooSoonIsNotSafe() returns (b: State, xs: seq<EarlyStep>)
    ensures Begin(b) && EarlyRun(Beginning(b), xs, Early(RootsPushed, FilledTooSoon())) && !AlwaysSafe(FilledTooSoon())
    ensures NoneWriting(FilledTooSoon()) && KnownIsRooted(FilledTooSoon())
  {
    hide Begin, EarlyRun, Start, AlwaysSafe, Accessible, Reach;
    b, xs := FillingRuns();
    PreludeStarts(b, xs, FilledTooSoon());
    UnderRoot(FilledTooSoon());
    RootIsReached(FilledTooSoon());
    LosesOne(FilledTooSoon(), {X}, Y);
  }

  /** So may a white object that is held for writing when they are pushed. */
  lemma HeldTooLongIsNotSafe() returns (b: State, xs: seq<EarlyStep>)
    ensures Begin(b) && EarlyRun(Beginning(b), xs, Early(RootsPushed, HeldTooLong())) && !AlwaysSafe(HeldTooLong())
    ensures AllWhite(HeldTooLong()) && KnownIsRooted(HeldTooLong())
  {
    hide Begin, EarlyRun, Start, AlwaysSafe, Accessible, Reach;
    b, xs := HoldingRuns();
    PreludeStarts(b, xs, HeldTooLong());
    UnderRoot(HeldTooLong());
    RootIsReached(HeldTooLong());
    assert X in HeldTooLong().muts[0].wlocks && X in WriteHeld(HeldTooLong().muts);
    LosesOne(HeldTooLong(), {X}, Y);
  }

  /** And an object whose address a mutator knows, but which nothing rooted leads to, may be freed. */
  lemma KnownToOneIsNotSafe() returns (b: State, xs: seq<EarlyStep>)
    ensures Begin(b) && EarlyRun(Beginning(b), xs, Early(RootsPushed, KnownToOne())) && !AlwaysSafe(KnownToOne())
    ensures AllWhite(KnownToOne()) && NoneWriting(KnownToOne())
  {
    hide Begin, EarlyRun, Start, AlwaysSafe;
    var s := KnownToOne();
    b, xs := KnowingRuns();
    PreludeStarts(b, xs, s);
    InHandles(s);
    assert HasHandle(s.muts[0], X);
    PathEndsInReach(RefGraph(s.objs), Handles(s), [X]);
    LosesOne(s, {}, X);
  }

  // ---------------------------------------------------------------------------- a visit that leaves something stacked

  lemma {:induction false} GcPushesNothingNew(s: State, steps: seq<Step>, s': State)
    requires GcOnly(steps) && Run(s, steps, s')
    ensures PushesNothingNew(s, steps, s')
    decreases |steps|
  {
    hide Do, Enabled;
    if steps != [] {
      GcPushesNothingNew(Do(s, steps[0]), steps[1..], s');
    }
  }

  lemma {:induction false} NothingNewThen(s: State, p: seq<Step>, m: State, q: seq<Step>, s': State)
    requires Run(s, p, m) && Run(m, q, s') && PushesNothingNew(s, p, m) && PushesNothingNew(m, q, s')
    ensures Run(s, p + q, s') && PushesNothingNew(s, p + q, s')
    decreases |p|
  {
    hide Do, Enabled;
    RunThen(s, p, m, q, s');
    if p == [] {
      assert p + q == q;
    } else {
      NothingNewThen(Do(s, p[0]), p[1..], m, q, s');
      assert (p + q)[1..] == p[1..] + q;
    }
  }

  lemma VisitIsClean()
    ensures Clean(VisitUnderWay())
  {
    hide Reach, Led;
    var s := VisitUnderWay();
    assert Visits(s.muts[0], X) && InVisit(s.muts, X);
  }

  /** The collector, which has nothing to mark, comes to the end of its loop. */
  lemma MarksNothing(s0: State) returns (steps: seq<Step>, s: State)
    requires s0 == VisitUnderWay() && Start(s0)
    ensures GcOnly(steps) && Run(s0, steps, s) && s.gc.ClearFlag? && s.inProgress == []
    ensures s.muts == s0.muts && s.objs == s0.objs
  {
    hide Start, Orderly, Run, Accessible;
    StartIsReady(s0);
    OrderlyAtStart(s0);
    steps, s := MarkingEnds(Accessible(s0), {}, s0);
    FirstIsIn(s.inProgress);
  }

  lemma FirstIsIn(q: seq<Vaddr>)
    ensures q != [] ==> q[0] in q
  {
  }

  lemma StartIsReady(s: State)
    requires Start(s)
    ensures Ready(s)
  {
  }

  function AfterVisit(c: State): State {
    c.(muts := map[0 := Idling({X})], objs := map[X := Obj(Visited, [X], [])], inProgress := [X],
       writer := c.writer - {X})
  }

  /** Now the mutator visits its object, and gives it back. */
  lemma VisitEnds(c: State) returns (q: seq<Step>)
    requires c.muts == VisitUnderWay().muts && c.objs == VisitUnderWay().objs && c.inProgress == [] && c.gc.ClearFlag?
    ensures Run(c, q, AfterVisit(c)) && PushesNothingNew(c, q, AfterVisit(c))
  {
    hide Run;
    var m1, m2 := Mutator({X}, {}, {}, Pushed(X)), Mutator({X}, {}, {X}, Idle);
    var s1 := c.(muts := map[0 := m1], inProgress := [X]);
    var s2 := s1.(muts := map[0 := m2], objs := map[X := Obj(Visited, [X], [])]);
    assert NonNull([X]) == [X] + NonNull([]);
    assert c.muts[0 := m1] == s1.muts;
    VisitsAndBlackens(s1, s2);
    VisitUnlocks(c, s2);
    q := [PushRefs(0), SetVisited(0), UnlockWrite(0, X)];
    RunOf3(c, q[0], s1, q[1], s2, q[2], AfterVisit(c));
  }

  lemma VisitsAndBlackens(s1: State, s2: State)
    requires s1.muts == map[0 := Mutator({X}, {}, {}, Pushed(X))] && s1.objs == map[X := White([X])]
    requires s2 == s1.(muts := map[0 := Mutator({X}, {}, {X}, Idle)], objs := map[X := Obj(Visited, [X], [])])
    ensures Enabled(s1, SetVisited(0)) && Do(s1, SetVisited(0)) == s2
  {
    assert s1.muts[0 := s2.muts[0]] == s2.muts && Painted(s1.objs, X, Visited) == s2.objs && {} + {X} == {X};
  }

  lemma VisitUnlocks(c: State, s2: State)
    requires s2 == c.(muts := map[0 := Mutator({X}, {}, {X}, Idle)], objs := map[X := Obj(Visited, [X], [])],
                      inProgress := [X])
    ensures Enabled(s2, UnlockWrite(0, X)) && Do(s2, UnlockWrite(0, X)) == AfterVisit(c)
  {
    assert {X} - {X} == {} && s2.muts[0 := Idling({X})] == map[0 := Idling({X})];
  }

  lemma RunOf3(s: State, a: Step, s1: State, b: Step, s2: State, c: Step, s3: State)
    requires Enabled(s, a) && Do(s, a) == s1 && Enabled(s1, b) && Do(s1, b) == s2 && Enabled(s2, c) && Do(s2, c) == s3
    requires a.PushRefs? && !Is(s.objs, s.muts[a.t].phase.a, NewlyAdded) && !b.PushRefs? && !c.PushRefs?
    ensures Run(s, [a, b, c], s3) && PushesNothingNew(s, [a, b, c], s3)
  {
    hide Do, Enabled;
    assert Run(s3, [], s3) && PushesNothingNew(s3, [], s3);
    assert [c][1..] == [] && Run(s2, [c], s3) && PushesNothingNew(s2, [c], s3);
    assert [b, c][1..] == [c] && Run(s1, [b, c], s3) && PushesNothingNew(s1, [b, c], s3);
    assert [a, b, c][1..] == [b, c] && Run(s, [a, b, c], s3);
  }

  /**
   That every object being visited at the start is led to is needed for the stack to be left empty: here nothing newly
   added is visited at all, and an address is left over from a clean start.
   */
  lemma VisitUnderWayIsLeftOver() returns (b: State, xs: seq<EarlyStep>, steps: seq<Step>, s: State)
    ensures Begin(b) && EarlyRun(Beginning(b), xs, Early(RootsPushed, VisitUnderWay())) && Clean(VisitUnderWay())
    ensures Run(VisitUnderWay(), steps, s) && PushesNothingNew(VisitUnderWay(), steps, s)
    ensures s.gc.Done? && s.inProgress != []
  {
    hide Begin, EarlyRun, Start, Clean, Run, Sweepable, GcEnabled, PushesNothingNew;
    b, xs := VisitingRuns();
    var s0 := VisitUnderWay();
    PreludeStarts(b, xs, s0);
    VisitIsClean();
    var p, c := MarksNothing(s0);
    var q := VisitEnds(c);
    GcPushesNothingNew(s0, p, c);
    NothingNewThen(s0, p, c, q, AfterVisit(c));
    EndIsQuiet(s0, p + q, AfterVisit(c));
    var r;
    r, s := SweepEnds(Do(AfterVisit(c), GcMove));
    RunFirst(AfterVisit(c), GcMove, r, s);
    GcPushesNothingNew(AfterVisit(c), [GcMove] + r, s);
    NothingNewThen(s0, p + q, AfterVisit(c), [GcMove] + r, s);
    steps := p + q + ([GcMove] + r);
  }
}
