/** What the calls of adb_put_p and adb_free have done when they return, beside any other threads. */
module ConcurrentCalls {
  import opened Common
  import opened BookList
  import opened ConcurrentBook

  // ---------------------------------------------------------------------------- counting steps

  datatype Kind = PutBegun | CellWritten | CellCleared | IndexReturned

  function KindOf(step: Step): Option<Kind> {
    match step
    case BeginPut(_) => Some(PutBegun)
    case WriteCell(_) => Some(CellWritten)
    case ClearCell(_, _, _) => Some(CellCleared)
    case PushIndex(_) => Some(IndexReturned)
    case _ => None
  }

  /** The steps of the given kind: a put begun, a cell written, a cell cleared, an index returned to its stack. */
  function Count(steps: seq<Step>, k: Kind): nat {
    if steps == [] then 0 else (if KindOf(steps[0]) == Some(k) then 1 else 0) + Count(steps[1..], k)
  }

  /** Those of thread t. */
  function CountOf(steps: seq<Step>, k: Kind, t: nat): nat {
    if steps == [] then 0
    else (if KindOf(steps[0]) == Some(k) && steps[0].t == t then 1 else 0) + CountOf(steps[1..], k, t)
  }

  lemma RunStep(s: State, steps: seq<Step>, s': State)
    requires Run(s, steps, s') && steps != []
    ensures InRange(s) && Enabled(s, steps[0]) && Run(Do(s, steps[0]), steps[1..], s')
  {
  }

  lemma RunEnds(s: State, s': State)
    requires Run(s, [], s')
    ensures s' == s
  {
  }

  lemma CountStep(steps: seq<Step>, k: Kind, t: nat)
    ensures steps == [] ==> Count(steps, k) == 0 == CountOf(steps, k, t)
    ensures steps != [] ==> Count(steps, k) == (if KindOf(steps[0]) == Some(k) then 1 else 0) + Count(steps[1..], k)
    ensures steps != [] ==>
              CountOf(steps, k, t)
              == (if KindOf(steps[0]) == Some(k) && steps[0].t == t then 1 else 0) + CountOf(steps[1..], k, t)
  {
  }

  // ---------------------------------------------------------------------------- what a thread still owes

  /** In a put that has not written its cell. */
  predicate OwesCell(s: State, t: nat) {
    t in s.threads && (s.threads[t].Searching? || s.threads[t].Expanding? || s.threads[t].Chosen? || s.threads[t].Popped?)
  }

  /** In a free that has not returned its index. */
  predicate OwesIndex(s: State, t: nat) {
    t in s.threads && s.threads[t].Cleared?
  }

  function One(b: bool): nat {
    if b then 1 else 0
  }

  lemma OweStep(s: State, step: Step, t: nat)
    requires InRange(s) && Enabled(s, step)
    ensures var k, own := KindOf(step), step.t == t;
            && One(OwesCell(Do(s, step), t)) + One(own && k == Some(CellWritten))
               == One(OwesCell(s, t)) + One(own && k == Some(PutBegun))
            && One(OwesIndex(Do(s, step), t)) + One(own && k == Some(IndexReturned))
               == One(OwesIndex(s, t)) + One(own && k == Some(CellCleared))
  {
    hide Push, Unlink, HeadAfterUnlink;
  }

  lemma {:induction false} OwedIsCounted(s: State, steps: seq<Step>, s': State, t: nat)
    requires Run(s, steps, s')
    ensures One(OwesCell(s', t)) + CountOf(steps, CellWritten, t) == One(OwesCell(s, t)) + CountOf(steps, PutBegun, t)
    ensures One(OwesIndex(s', t)) + CountOf(steps, IndexReturned, t)
            == One(OwesIndex(s, t)) + CountOf(steps, CellCleared, t)
    decreases |steps|
  {
    hide Run, InRange, Enabled, Do, OwesCell, OwesIndex, CountOf, KindOf;
    forall k: Kind ensures CountOf([], k, t) == 0 {
      CountStep([], k, t);
    }
    if steps == [] {
      RunEnds(s, s');
    } else {
      RunStep(s, steps, s');
      OweStep(s, steps[0], t);
      OwedIsCounted(Do(s, steps[0]), steps[1..], s', t);
      CountStep(steps, PutBegun, t);
      CountStep(steps, CellWritten, t);
      CountStep(steps, CellCleared, t);
      CountStep(steps, IndexReturned, t);
    }
  }

  /** Each put that has returned has written one cell, and each free has returned one index. */
  lemma CallsAreFulfilled(s0: State, steps: seq<Step>, s: State, t: nat)
    requires Start(s0) && Run(s0, steps, s)
    ensures t in s.threads && s.threads[t].Idle? ==>
              && CountOf(steps, PutBegun, t) == CountOf(steps, CellWritten, t)
              && CountOf(steps, CellCleared, t) == CountOf(steps, IndexReturned, t)
  {
    hide Run, Do, CountOf;
    OwedIsCounted(s0, steps, s, t);
  }

  // ---------------------------------------------------------------------------- when the list is asked to change

  /** The step takes the last index of a table, or returns the first one to a table without any. */
  predicate Fills(s: State, step: Step) {
    step.PopIndex? && step.t in s.threads && s.threads[step.t].Chosen? && s.threads[step.t].e < |s.book|
    && |s.book[s.threads[step.t].e].adt.stack| == 1
  }

  predicate Reopens(s: State, step: Step) {
    step.PushIndex? && step.t in s.threads && s.threads[step.t].Cleared? && s.threads[step.t].e < |s.book|
    && |s.book[s.threads[step.t].e].adt.stack| == 0
  }

  /** How often thread t has done so, and how often it has gone to the list because of it. */
  ghost function Filled(s: State, steps: seq<Step>, t: nat): nat
    decreases |steps|
  {
    if steps == [] || !InRange(s) || !Enabled(s, steps[0]) then 0
    else One(Fills(s, steps[0]) && steps[0].t == t) + Filled(Do(s, steps[0]), steps[1..], t)
  }

  ghost function Reopened(s: State, steps: seq<Step>, t: nat): nat
    decreases |steps|
  {
    if steps == [] || !InRange(s) || !Enabled(s, steps[0]) then 0
    else One(Reopens(s, steps[0]) && steps[0].t == t) + Reopened(Do(s, steps[0]), steps[1..], t)
  }

  function Removals(steps: seq<Step>, t: nat): nat {
    if steps == [] then 0 else One(steps[0].TryRemoval? && steps[0].t == t) + Removals(steps[1..], t)
  }

  function Additions(steps: seq<Step>, t: nat): nat {
    if steps == [] then 0 else One(steps[0].TryAddition? && steps[0].t == t) + Additions(steps[1..], t)
  }

  predicate OwesRemoval(s: State, t: nat) {
    t in s.threads && (s.threads[t].Removing? || (s.threads[t].Popped? && s.threads[t].newlyFull))
  }

  predicate OwesAddition(s: State, t: nat) {
    t in s.threads && s.threads[t].Adding?
  }

  lemma ListCountStep(s: State, steps: seq<Step>, t: nat)
    ensures steps == [] ==> Filled(s, steps, t) == 0 == Reopened(s, steps, t)
    ensures steps == [] ==> Removals(steps, t) == 0 == Additions(steps, t)
    ensures steps != [] && InRange(s) && Enabled(s, steps[0]) ==>
              var n, own := Do(s, steps[0]), steps[0].t == t;
              && Filled(s, steps, t) == One(Fills(s, steps[0]) && own) + Filled(n, steps[1..], t)
              && Reopened(s, steps, t) == One(Reopens(s, steps[0]) && own) + Reopened(n, steps[1..], t)
              && Removals(steps, t) == One(steps[0].TryRemoval? && own) + Removals(steps[1..], t)
              && Additions(steps, t) == One(steps[0].TryAddition? && own) + Additions(steps[1..], t)
  {
    hide Do, Enabled, InRange, Fills, Reopens;
  }

  lemma ListOweStep(s: State, step: Step, t: nat)
    requires InRange(s) && Enabled(s, step)
    ensures var n, own := Do(s, step), step.t == t;
            && One(OwesRemoval(n, t)) + One(step.TryRemoval? && own)
               == One(OwesRemoval(s, t)) + One(Fills(s, step) && own)
            && One(OwesAddition(n, t)) + One(step.TryAddition? && own)
               == One(OwesAddition(s, t)) + One(Reopens(s, step) && own)
  {
    hide Push, Unlink, HeadAfterUnlink;
  }

  lemma {:induction false} ListIsAskedWhenDue(s: State, steps: seq<Step>, s': State, t: nat)
    requires Run(s, steps, s')
    ensures One(OwesRemoval(s', t)) + Removals(steps, t) == One(OwesRemoval(s, t)) + Filled(s, steps, t)
    ensures One(OwesAddition(s', t)) + Additions(steps, t) == One(OwesAddition(s, t)) + Reopened(s, steps, t)
    decreases |steps|
  {
    hide Run, InRange, Enabled, Do, OwesRemoval, OwesAddition, Filled, Reopened, Removals, Additions, Fills, Reopens;
    ListCountStep(s, steps, t);
    if steps == [] {
      RunEnds(s, s');
    } else {
      RunStep(s, steps, s');
      ListOweStep(s, steps[0], t);
      ListIsAskedWhenDue(Do(s, steps[0]), steps[1..], s', t);
    }
  }

  /** A thread at rest has gone to the list exactly as often as it took the last index, or returned the first. */
  lemma ListIsAskedExactly(s0: State, steps: seq<Step>, s: State, t: nat)
    requires Start(s0) && Run(s0, steps, s) && t in s.threads && s.threads[t].Idle?
    ensures Removals(steps, t) == Filled(s0, steps, t) && Additions(steps, t) == Reopened(s0, steps, t)
  {
    hide Run, Do, Removals, Additions, Filled, Reopened;
    ListIsAskedWhenDue(s0, steps, s, t);
  }

  // ---------------------------------------------------------------------------- looking for a table

  datatype Look = Looked | FoundNone | FoundOne | Tried | Missed | Asked

  /**
   A look at the list, which finds it empty, or finds a table; an attempt at the table that was found, which may find no
   index left; and a request for a new table.
   */
  predicate IsLook(s: State, step: Step, k: Look) {
    match k
    case Looked => step.Search?
    case FoundNone => step.Search? && s.head == NIL
    case FoundOne => step.Search? && s.head != NIL
    case Tried => step.PopIndex?
    case Missed => step.PopIndex? && step.t in s.threads && s.threads[step.t].Chosen?
                   && s.threads[step.t].e < |s.book| && s.book[s.threads[step.t].e].adt.stack == []
    case Asked => step.TryExpand?
  }

  ghost function Looks(s: State, steps: seq<Step>, k: Look, t: nat): nat
    decreases |steps|
  {
    if steps == [] || !InRange(s) || !Enabled(s, steps[0]) then 0
    else One(IsLook(s, steps[0], k) && steps[0].t == t) + Looks(Do(s, steps[0]), steps[1..], k, t)
  }

  lemma LooksStep(s: State, steps: seq<Step>, k: Look, t: nat)
    ensures steps == [] ==> Looks(s, steps, k, t) == 0
    ensures steps != [] && InRange(s) && Enabled(s, steps[0]) ==>
              Looks(s, steps, k, t)
              == One(IsLook(s, steps[0], k) && steps[0].t == t) + Looks(Do(s, steps[0]), steps[1..], k, t)
  {
    hide Do, Enabled, InRange, IsLook;
  }

  predicate At(s: State, t: nat, k: Look) {
    t in s.threads && match k
                      case Looked => s.threads[t].Searching?
                      case Asked => s.threads[t].Expanding?
                      case Tried => s.threads[t].Chosen?
                      case _ => false
  }

  lemma LookStep(s: State, step: Step, t: nat)
    requires InRange(s) && Enabled(s, step)
    ensures var n, own := Do(s, step), step.t == t;
            && One(At(n, t, Looked)) + One(own && IsLook(s, step, Looked))
               == One(At(s, t, Looked)) + One(own && KindOf(step) == Some(PutBegun)) + One(own && IsLook(s, step, Asked))
                  + One(own && IsLook(s, step, Missed))
            && One(At(n, t, Asked)) + One(own && IsLook(s, step, Asked))
               == One(At(s, t, Asked)) + One(own && IsLook(s, step, FoundNone))
            && One(At(n, t, Tried)) + One(own && IsLook(s, step, Tried))
               == One(At(s, t, Tried)) + One(own && IsLook(s, step, FoundOne))
  {
    hide Push, Unlink, HeadAfterUnlink;
  }

  lemma {:induction false} LooksAreCounted(s: State, steps: seq<Step>, s': State, t: nat)
    requires Run(s, steps, s')
    ensures One(At(s', t, Looked)) + Looks(s, steps, Looked, t)
            == One(At(s, t, Looked)) + CountOf(steps, PutBegun, t) + Looks(s, steps, Asked, t)
               + Looks(s, steps, Missed, t)
    ensures One(At(s', t, Asked)) + Looks(s, steps, Asked, t) == One(At(s, t, Asked)) + Looks(s, steps, FoundNone, t)
    ensures One(At(s', t, Tried)) + Looks(s, steps, Tried, t) == One(At(s, t, Tried)) + Looks(s, steps, FoundOne, t)
    decreases |steps|
  {
    hide Run, InRange, Enabled, Do, At, Looks, IsLook, CountOf, KindOf;
    CountStep(steps, PutBegun, t);
    forall k: Look ensures steps == [] ==> Looks(s, steps, k, t) == 0 {
      LooksStep(s, steps, k, t);
    }
    if steps == [] {
      RunEnds(s, s');
    } else {
      RunStep(s, steps, s');
      LookStep(s, steps[0], t);
      LooksAreCounted(Do(s, steps[0]), steps[1..], s', t);
      LooksStep(s, steps, Looked, t);
      LooksStep(s, steps, Asked, t);
      LooksStep(s, steps, Missed, t);
      LooksStep(s, steps, FoundNone, t);
      LooksStep(s, steps, FoundOne, t);
      LooksStep(s, steps, Tried, t);
    }
  }

  /**
   A thread at rest has looked once for each put, and once more after each request for a table and each table that turned
   out to be full; it has asked for a table exactly when a look found none, and tried one exactly when a look found it.
   */
  lemma LooksAreExact(s0: State, steps: seq<Step>, s: State, t: nat)
    requires Start(s0) && Run(s0, steps, s) && t in s.threads && s.threads[t].Idle?
    ensures Looks(s0, steps, Looked, t)
            == CountOf(steps, PutBegun, t) + Looks(s0, steps, Asked, t) + Looks(s0, steps, Missed, t)
    ensures Looks(s0, steps, Asked, t) == Looks(s0, steps, FoundNone, t)
    ensures Looks(s0, steps, Tried, t) == Looks(s0, steps, FoundOne, t)
  {
    hide Run, Do, Looks, CountOf;
    LooksAreCounted(s0, steps, s, t);
  }

  // ---------------------------------------------------------------------------- taken cells

  /** The taken cells of all tables. */
  function TakenCells(book: seq<Entry<Table>>): nat {
    if book == [] then 0 else TakenCells(book[..|book|-1]) + |book[|book|-1].adt.taken|
  }

  lemma {:induction false} TakenSame(book: seq<Entry<Table>>, book': seq<Entry<Table>>)
    requires |book| == |book'| && forall e :: 0 <= e < |book| ==> book'[e].adt.taken == book[e].adt.taken
    ensures TakenCells(book') == TakenCells(book)
    decreases |book|
  {
    if book != [] {
      TakenSame(book[..|book|-1], book'[..|book|-1]);
    }
  }

  lemma {:induction false} TakenOne(book: seq<Entry<Table>>, book': seq<Entry<Table>>, e: nat)
    requires |book| == |book'| && e < |book|
    requires forall x :: 0 <= x < |book| && x != e ==> book'[x].adt.taken == book[x].adt.taken
    ensures TakenCells(book') + |book[e].adt.taken| == TakenCells(book) + |book'[e].adt.taken|
    decreases |book|
  {
    var n := |book| - 1;
    if e == n {
      TakenSame(book[..n], book'[..n]);
    } else {
      TakenOne(book[..n], book'[..n], e);
    }
  }

  lemma TakenStep(s: State, step: Step)
    requires Inv(s) && Enabled(s, step)
    ensures TakenCells(Do(s, step).book) + One(KindOf(step) == Some(CellCleared))
            == TakenCells(s.book) + One(KindOf(step) == Some(CellWritten))
  {
    hide Listed, EntryOk, NoTwoCarry, Unlink, HeadAfterUnlink, Linked, TakenCells;
    var s' := Do(s, step);
    if step.WriteCell? || step.ClearCell? {
      var e := if step.WriteCell? then s.threads[step.t].e else step.e;
      assert ThreadOk(s.cap, s.book, s.threads[step.t]);
      TakenOne(s.book, s'.book, e);
    } else if step.TryExpand? && s.head == NIL {
      TakenGrows(s, s');
    } else if step.TryRemoval? {
      RemovalKeepsTables(s, s', step);
      TakenSame(s.book, s'.book);
    } else {
      TakenSame(s.book, s'.book);
    }
  }

  lemma RemovalKeepsTables(s: State, s': State, step: Step)
    requires Inv(s) && Enabled(s, step) && step.TryRemoval? && s' == Do(s, step)
    ensures |s'.book| == |s.book| && forall e :: 0 <= e < |s.book| ==> s'.book[e].adt == s.book[e].adt
  {
    var e := s.threads[step.t].e;
    assert ThreadOk(s.cap, s.book, s.threads[step.t]);
    if s.book[e].inFreeList && s.book[e].adt.stack == [] {
      UnlinksFull(s.book, s.head, e);
    }
  }

  lemma TakenGrows(s: State, s': State)
    requires |s'.book| == |s.book| + 1 && s'.book[|s.book|].adt.taken == {}
    requires forall e :: 0 <= e < |s.book| ==> s'.book[e].adt.taken == s.book[e].adt.taken
    ensures TakenCells(s'.book) == TakenCells(s.book)
  {
    TakenSame(s.book, s'.book[..|s.book|]);
  }

  lemma {:induction false} TakenIsCounted(s: State, steps: seq<Step>, s': State)
    requires Inv(s) && Run(s, steps, s')
    ensures TakenCells(s'.book) + Count(steps, CellCleared) == TakenCells(s.book) + Count(steps, CellWritten)
    decreases |steps|
  {
    hide Run, Inv, InRange, Enabled, Do, Count, KindOf, TakenCells;
    CountStep(steps, CellCleared, 0);
    CountStep(steps, CellWritten, 0);
    if steps == [] {
      RunEnds(s, s');
    } else {
      RunStep(s, steps, s');
      TakenStep(s, steps[0]);
      StepKeepsInv(s, steps[0]);
      TakenIsCounted(Do(s, steps[0]), steps[1..], s');
    }
  }

  /** The taken cells are as many as have been written and not cleared. */
  lemma TakenIsWrittenLessCleared(s0: State, steps: seq<Step>, s: State)
    requires Start(s0) && Run(s0, steps, s)
    ensures TakenCells(s.book) == Count(steps, CellWritten) - Count(steps, CellCleared)
  {
    hide Run, Do, Count, Inv;
    StartEstablishesInv(s0);
    TakenIsCounted(s0, steps, s);
  }

  // ---------------------------------------------------------------------------- cells and tables

  lemma CellStep(s: State, step: Step, e: nat, i: nat)
    requires Inv(s) && Enabled(s, step) && e < |s.book|
    ensures |s.book| <= |Do(s, step).book| && Do(s, step).cap == s.cap
    ensures i in s.book[e].adt.taken && i !in Do(s, step).book[e].adt.taken ==>
              step.ClearCell? && step.e == e && step.i == i
    ensures i !in s.book[e].adt.taken && i in Do(s, step).book[e].adt.taken ==>
              step.WriteCell? && Carries(s.threads[step.t], e, i)
  {
    hide Listed, EntryOk, NoTwoCarry, Unlink, HeadAfterUnlink, Linked;
    if step.TryRemoval? {
      RemovalKeepsTables(s, Do(s, step), step);
    }
  }

  /** A cell stays taken until someone frees its address. */
  lemma {:induction false} TakenUntilCleared(s: State, steps: seq<Step>, s': State, e: nat, i: nat)
    requires Inv(s) && Run(s, steps, s') && e < |s.book| && i in s.book[e].adt.taken
    requires forall k :: 0 <= k < |steps| && steps[k].ClearCell? ==> steps[k].e != e || steps[k].i != i
    ensures e < |s'.book| && i in s'.book[e].adt.taken
    decreases |steps|
  {
    hide Run, Inv, InRange, Enabled, Do;
    if steps == [] {
      RunEnds(s, s');
    } else {
      RunStep(s, steps, s');
      CellStep(s, steps[0], e, i);
      StepKeepsInv(s, steps[0]);
      TakenUntilCleared(Do(s, steps[0]), steps[1..], s', e, i);
    }
  }

  /** A table is added, with all of its indices free, only when no other has space that someone is not about to list. */
  lemma TableIsAddedWhenNoneHasSpace(s0: State, steps: seq<Step>, s: State, step: Step)
    requires Start(s0) && Run(s0, steps, s) && InRange(s) && Enabled(s, step) && |Do(s, step).book| != |s.book|
    ensures step.TryExpand? && |Do(s, step).book| == |s.book| + 1
    ensures forall e :: 0 <= e < |s.book| && s.book[e].adt.stack != [] ==>
              exists t :: t in s.threads && WillAdd(s.threads[t], e)
    ensures var a := Do(s, step).book[|s.book|].adt;
            a.taken == {} && |a.stack| == s.cap && forall i :: 0 <= i < s.cap ==> a.stack[i] == i
  {
    hide Run, Linked, LinkedAt, Unlink, HeadAfterUnlink;
    ListIsRepaired(s0, steps, s);
    if step.TryRemoval? {
      StartEstablishesInv(s0);
      RunKeepsInv(s0, steps, s);
      RemovalKeepsTables(s, Do(s, step), step);
    } else {
      var order :| Linked(s.book, s.head, order);
      NoneListed(s, order);
    }
  }

  lemma NoneListed(s: State, order: seq<int>)
    requires Linked(s.book, s.head, order) && s.head == NIL
    ensures forall e :: 0 <= e < |s.book| ==> !s.book[e].inFreeList
  {
  }

  // ---------------------------------------------------------------------------- every call can return

  /** On the way from a change of a table to the change of the list that it asks for. */
  predicate Unsettled(th: Thread) {
    th.Popped? || th.Removing? || th.Cleared? || th.Adding?
  }

  ghost predicate OthersSettled(s: State, t: nat) {
    forall u :: u in s.threads && u != t ==> !Unsettled(s.threads[u])
  }

  /** How many steps thread t needs, if all goes well. */
  function Rank(s: State, t: nat): nat
    requires t in s.threads && InRange(s)
  {
    match s.threads[t]
    case Idle => 0
    case Removing(_, _) => 1
    case Adding(_) => 1
    case Popped(_, _, _) => 2
    case Cleared(_, _) => 2
    case Chosen(e) => if s.book[e].adt.stack != [] then 3 else 7
    case Searching => if s.head != NIL then 4 else 6
    case Expanding => 5
  }

  /** The next step of thread t in its call. */
  function Next(th: Thread, t: nat): Step
    requires !th.Idle?
  {
    match th
    case Removing(_, _) => TryRemoval(t)
    case Adding(_) => TryAddition(t)
    case Popped(_, _, _) => WriteCell(t)
    case Cleared(_, _) => PushIndex(t)
    case Chosen(_) => PopIndex(t)
    case Searching => Search(t)
    case Expanding => TryExpand(t)
  }

  /** With all others settled, the table at the head of the list has space. */
  lemma HeadHasSpace(s: State, t: nat)
    requires Inv(s) && t in s.threads && !Unsettled(s.threads[t]) && OthersSettled(s, t) && s.head != NIL
    ensures 0 <= s.head < |s.book| && s.book[s.head].adt.stack != []
  {
    var order :| Linked(s.book, s.head, order);
    assert order[0] == s.head && s.head in order;
    assert EntryOk(s.cap, s.threads, s.book[s.head], s.head);
  }

  lemma Advances(s: State, t: nat)
    requires Inv(s) && t in s.threads && !s.threads[t].Idle? && (Unsettled(s.threads[t]) || OthersSettled(s, t))
    ensures var step := Next(s.threads[t], t);
            && Enabled(s, step) && Inv(Do(s, step))
            && t in Do(s, step).threads && Do(s, step).threads == s.threads[t := Do(s, step).threads[t]]
            && Rank(Do(s, step), t) < Rank(s, t)
            && (Unsettled(s.threads[t]) ==> Unsettled(Do(s, step).threads[t]) || Do(s, step).threads[t].Idle?)
  {
    hide Listed, EntryOk, NoTwoCarry, Unlink, HeadAfterUnlink, Push, OthersSettled;
    StepKeepsInv(s, Next(s.threads[t], t));
    assert ThreadOk(s.cap, s.book, s.threads[t]);
    if s.threads[t].Searching? && s.head != NIL {
      HeadHasSpace(s, t);
    }
  }

  /** All steps are of thread t. */
  ghost predicate OnlyBy(steps: seq<Step>, t: nat) {
    forall k :: 0 <= k < |steps| ==> steps[k].t == t
  }

  ghost predicate OnlyFinishes(steps: seq<Step>) {
    forall k :: 0 <= k < |steps| ==> !steps[k].BeginPut? && !steps[k].ClearCell?
  }

  lemma {:induction false} Finishes(s: State, t: nat) returns (steps: seq<Step>, s': State)
    requires Inv(s) && t in s.threads && (s.threads[t].Idle? || Unsettled(s.threads[t]) || OthersSettled(s, t))
    ensures Run(s, steps, s') && Inv(s') && s'.threads == s.threads[t := Idle]
    ensures OnlyFinishes(steps) && OnlyBy(steps, t)
    decreases Rank(s, t)
  {
    hide Inv, Enabled, Do, Rank, Next;
    if s.threads[t].Idle? {
      assert s.threads == s.threads[t := Idle];
      return [], s;
    }
    InvIsInRange(s);
    Advances(s, t);
    NextFinishes(s.threads[t], t);
    var step := Next(s.threads[t], t);
    var rest;
    rest, s' := Finishes(Do(s, step), t);
    steps := [step] + rest;
    assert steps[1..] == rest;
  }

  lemma InvIsInRange(s: State)
    requires Inv(s)
    ensures InRange(s)
  {
  }

  lemma NextFinishes(th: Thread, t: nat)
    requires !th.Idle?
    ensures !Next(th, t).BeginPut? && !Next(th, t).ClearCell? && Next(th, t).t == t
  {
  }

  lemma {:induction false} RunThen(s: State, p: seq<Step>, m: State, q: seq<Step>, s': State)
    requires Run(s, p, m) && Run(m, q, s')
    ensures Run(s, p + q, s')
    decreases |p|
  {
    hide Do, Enabled, InRange;
    if p == [] {
      assert p + q == q;
    } else {
      RunThen(Do(s, p[0]), p[1..], m, q, s');
      assert (p + q)[1..] == p[1..] + q;
    }
  }

  lemma {:induction false} AllSettle(s: State, todo: set<nat>) returns (steps: seq<Step>, s': State)
    requires Inv(s) && forall u :: u in s.threads && Unsettled(s.threads[u]) ==> u in todo
    ensures Run(s, steps, s') && Inv(s') && s'.threads.Keys == s.threads.Keys && OnlyFinishes(steps)
    ensures forall u :: u in s'.threads ==> !Unsettled(s'.threads[u])
    decreases todo
  {
    hide Inv, Run;
    if todo == {} {
      NoRun(s);
      return [], s;
    }
    var t := SomeOf(todo);
    var p, m := [], s;
    NoRun(s);
    if t in s.threads && Unsettled(s.threads[t]) {
      p, m := Finishes(s, t);
    }
    var q;
    q, s' := AllSettle(m, todo - {t});
    RunThen(s, p, m, q, s');
    steps := p + q;
  }

  lemma NoRun(s: State)
    ensures Run(s, [], s)
  {
  }

  lemma {:induction false} AllFinish(s: State, todo: set<nat>) returns (steps: seq<Step>, s': State)
    requires Inv(s) && forall u :: u in s.threads ==> !Unsettled(s.threads[u]) && (s.threads[u].Idle? || u in todo)
    ensures Run(s, steps, s') && Inv(s') && s'.threads.Keys == s.threads.Keys && OnlyFinishes(steps)
    ensures forall u :: u in s'.threads ==> s'.threads[u].Idle?
    decreases todo
  {
    hide Inv, Run;
    if todo == {} {
      NoRun(s);
      return [], s;
    }
    var t := SomeOf(todo);
    var p, m := [], s;
    NoRun(s);
    if t in s.threads {
      p, m := Finishes(s, t);
    }
    var q;
    q, s' := AllFinish(m, todo - {t});
    RunThen(s, p, m, q, s');
    steps := p + q;
  }

  /** In every state that a run comes to, all calls under way can return, without another call being made. */
  lemma EveryCallCanReturn(s0: State, past: seq<Step>, s: State) returns (steps: seq<Step>, s': State)
    requires Start(s0) && Run(s0, past, s)
    ensures Run(s, steps, s') && OnlyFinishes(steps) && s'.threads.Keys == s.threads.Keys
    ensures forall t :: t in s'.threads ==> s'.threads[t].Idle?
  {
    hide Run, Inv;
    StartEstablishesInv(s0);
    RunKeepsInv(s0, past, s);
    var p, m := AllSettle(s, s.threads.Keys);
    var q;
    q, s' := AllFinish(m, m.threads.Keys);
    RunThen(s, p, m, q, s');
    steps := p + q;
  }

  /** A thread at rest can make a put, and some run lets it return with one cell more taken. */
  lemma PutCanSucceed(s0: State, past: seq<Step>, s: State, t: nat) returns (steps: seq<Step>, s': State)
    requires Start(s0) && Run(s0, past, s) && t in s.threads && forall u :: u in s.threads ==> s.threads[u].Idle?
    ensures Run(s, steps, s') && s'.threads == s.threads && TakenCells(s'.book) == TakenCells(s.book) + 1
    ensures steps != [] && steps[0] == BeginPut(t) && OnlyFinishes(steps[1..])
  {
    hide Run, Inv, TakenCells, Count;
    StartEstablishesInv(s0);
    RunKeepsInv(s0, past, s);
    InvIsInRange(s);
    StepKeepsInv(s, BeginPut(t));
    var m, rest := Do(s, BeginPut(t)), [];
    rest, s' := Finishes(m, t);
    steps := [BeginPut(t)] + rest;
    RunFirst(s, BeginPut(t), rest, s');
    OwedIsCounted(m, rest, s', t);
    FinishingCounts(rest, t);
    TakenIsCounted(m, rest, s');
    assert s'.threads == s.threads;
    assert steps[1..] == rest;
  }

  lemma {:induction false} FinishingCounts(steps: seq<Step>, t: nat)
    requires OnlyFinishes(steps) && OnlyBy(steps, t)
    ensures CountOf(steps, PutBegun, t) == 0 == Count(steps, CellCleared)
    ensures Count(steps, CellWritten) == CountOf(steps, CellWritten, t)
    decreases |steps|
  {
    hide Count, CountOf;
    CountStep(steps, PutBegun, t);
    CountStep(steps, CellCleared, t);
    CountStep(steps, CellWritten, t);
    if steps != [] {
      FinishingCounts(steps[1..], t);
    }
  }

  lemma RunFirst(s: State, step: Step, rest: seq<Step>, s': State)
    requires InRange(s) && Enabled(s, step) && Run(Do(s, step), rest, s')
    ensures Run(s, [step] + rest, s')
  {
    hide InRange, Enabled, Do;
    assert ([step] + rest)[1..] == rest;
  }

  /** It can free any address that has been given out, and some run lets it return with one cell less taken. */
  lemma FreeCanSucceed(s0: State, past: seq<Step>, s: State, t: nat, e: nat, i: nat)
      returns (steps: seq<Step>, s': State)
    requires Start(s0) && Run(s0, past, s) && t in s.threads && forall u :: u in s.threads ==> s.threads[u].Idle?
    requires e < |s.book| && i in s.book[e].adt.taken
    ensures Run(s, steps, s') && s'.threads == s.threads && TakenCells(s'.book) + 1 == TakenCells(s.book)
    ensures steps != [] && steps[0] == ClearCell(t, e, i) && OnlyFinishes(steps[1..])
  {
    hide Run, Inv, TakenCells, Count, CountOf;
    StartEstablishesInv(s0);
    RunKeepsInv(s0, past, s);
    InvIsInRange(s);
    var step := ClearCell(t, e, i);
    StepKeepsInv(s, step);
    TakenStep(s, step);
    var m, rest := Do(s, step), [];
    rest, s' := Finishes(m, t);
    steps := [step] + rest;
    RunFirst(s, step, rest, s');
    OwedIsCounted(m, rest, s', t);
    FinishingCounts(rest, t);
    TakenIsCounted(m, rest, s');
    assert s'.threads == s.threads;
    assert steps[1..] == rest;
  }
}
