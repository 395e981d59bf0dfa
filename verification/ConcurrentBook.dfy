/**
 The address book under any number of threads. Each step is one critical section of adb_put_p, adb_free and
 their helpers: the stack of free indices and the cells of a table have locks of their own, and a table leaves
 or joins the list of tables with space in a later critical section than the put or free that caused it.
 */
module ConcurrentBook {
  import opened Common
  import opened BookList

  /** An address table: its stack of free cell indices, and the cells that are allocated. */
  datatype Table = Table(stack: seq<nat>, taken: set<nat>)

  datatype Thread =
    | Idle
    | Searching                               // at the head of the loop of adb_put_p
    | Expanding                               // found the list empty
    | Chosen(e: nat)                          // found table e at the head of the list
    | Popped(e: nat, i: nat, newlyFull: bool) // took index i, has not written its cell
    | Removing(e: nat, i: nat)                // about to call adb_try_removal
    | Cleared(e: nat, i: nat)                 // freed cell i, has not returned the index
    | Adding(e: nat)                          // about to call adb_try_addition

  datatype State = State(cap: nat, book: seq<Entry<Table>>, head: int, threads: map<nat, Thread>)

  datatype Step =
    | BeginPut(t: nat)
    | Search(t: nat)
    | TryExpand(t: nat)
    | PopIndex(t: nat)
    | WriteCell(t: nat)
    | TryRemoval(t: nat)
    | ClearCell(t: nat, e: nat, i: nat)
    | PushIndex(t: nat)
    | TryAddition(t: nat)

  function SetTable(book: seq<Entry<Table>>, e: nat, a: Table): seq<Entry<Table>>
    requires e < |book|
  {
    book[e := book[e].(adt := a)]
  }

  function NewTable(cap: nat): Entry<Table> {
    Entry(false, NIL, NIL, Table(seq(cap, i => i), {}))
  }

  predicate Enabled(s: State, step: Step) {
    step.t in s.threads &&
    var th := s.threads[step.t];
    match step
    case BeginPut(_) => th.Idle?
    case Search(_) => th.Searching?
    case TryExpand(_) => th.Expanding?
    case PopIndex(_) => th.Chosen?
    case WriteCell(_) => th.Popped?
    case TryRemoval(_) => th.Removing?
    case ClearCell(_, e, i) => th.Idle? && e < |s.book| && i in s.book[e].adt.taken
    case PushIndex(_) => th.Cleared?
    case TryAddition(_) => th.Adding?
  }

  /** What the list operations and table accesses rely on. */
  predicate InRange(s: State) {
    && (s.head == NIL || 0 <= s.head < |s.book|)
    && (forall i :: 0 <= i < |s.book| ==>
          && (s.book[i].prev == NIL || 0 <= s.book[i].prev < |s.book|)
          && (s.book[i].next == NIL || 0 <= s.book[i].next < |s.book|))
    && (forall t :: t in s.threads ==>
          s.threads[t].Idle? || s.threads[t].Searching? || s.threads[t].Expanding? || s.threads[t].e < |s.book|)
  }

  function Do(s: State, step: Step): State
    requires Enabled(s, step) && InRange(s)
  {
    var t := step.t;
    var th := s.threads[t];
    match step
    case BeginPut(_) => s.(threads := s.threads[t := Searching])
    case Search(_) => s.(threads := s.threads[t := if s.head == NIL then Expanding else Chosen(s.head)])
    case TryExpand(_) =>
      if s.head != NIL then s.(threads := s.threads[t := Searching])
      else s.(book := Push(s.book + [NewTable(s.cap)], NIL, |s.book|), head := |s.book|,
              threads := s.threads[t := Searching])
    case PopIndex(_) =>
      var a := s.book[th.e].adt;
      if a.stack == [] then s.(threads := s.threads[t := Searching])
      else
        var rest := a.stack[..|a.stack|-1];
        s.(book := SetTable(s.book, th.e, a.(stack := rest)),
           threads := s.threads[t := Popped(th.e, a.stack[|a.stack|-1], rest == [])])
    case WriteCell(_) =>
      var a := s.book[th.e].adt;
      s.(book := SetTable(s.book, th.e, a.(taken := a.taken + {th.i})),
         threads := s.threads[t := if th.newlyFull then Removing(th.e, th.i) else Idle])
    case TryRemoval(_) =>
      var s' := s.(threads := s.threads[t := Idle]);
      if !s.book[th.e].inFreeList || s.book[th.e].adt.stack != [] then s'
      else s'.(book := Unlink(s.book, th.e), head := HeadAfterUnlink(s.book, s.head, th.e))
    case ClearCell(_, e, i) =>
      var a := s.book[e].adt;
      s.(book := SetTable(s.book, e, a.(taken := a.taken - {i})), threads := s.threads[t := Cleared(e, i)])
    case PushIndex(_) =>
      var a := s.book[th.e].adt;
      s.(book := SetTable(s.book, th.e, a.(stack := a.stack + [th.i])),
         threads := s.threads[t := if a.stack == [] then Adding(th.e) else Idle])
    case TryAddition(_) =>
      var s' := s.(threads := s.threads[t := Idle]);
      if s.book[th.e].inFreeList || s.book[th.e].adt.stack == [] then s'
      else s'.(book := Push(s.book, s.head, th.e), head := th.e)
  }

  ghost predicate Run(s: State, steps: seq<Step>, s': State)
    decreases |steps|
  {
    if steps == [] then s' == s
    else InRange(s) && Enabled(s, steps[0]) && Run(Do(s, steps[0]), steps[1..], s')
  }

  /** An empty book that nobody is using. */
  ghost predicate Start(s: State) {
    s.cap > 0 && s.book == [] && s.head == NIL && forall t :: t in s.threads ==> s.threads[t].Idle?
  }

  // ---------------------------------------------------------------------------- the invariant

  predicate TableOk(cap: nat, a: Table) {
    && (forall k, l :: 0 <= k < l < |a.stack| ==> a.stack[k] != a.stack[l])
    && (forall i :: i in a.stack ==> i < cap && i !in a.taken)
    && (forall i :: i in a.taken ==> i < cap)
  }

  /** Index i of table e is neither on the stack nor in a cell: th is carrying it. */
  predicate Carries(th: Thread, e: int, i: int) {
    (th.Popped? || th.Cleared?) && th.e == e && th.i == i
  }

  predicate WillRemove(th: Thread, e: int) {
    (th.Removing? && th.e == e) || (th.Popped? && th.e == e && th.newlyFull)
  }

  predicate WillAdd(th: Thread, e: int) {
    th.Adding? && th.e == e
  }

  ghost predicate ThreadOk(cap: nat, book: seq<Entry<Table>>, th: Thread) {
    && (th.Idle? || th.Searching? || th.Expanding? || th.e < |book|)
    && (th.Popped? || th.Cleared? ==> th.i < cap && th.i !in book[th.e].adt.stack && th.i !in book[th.e].adt.taken)
  }

  /** Each index of table e is on its stack, in an allocated cell, or carried. */
  ghost predicate Accounted(cap: nat, threads: map<nat, Thread>, a: Table, e: int) {
    forall i :: 0 <= i < cap ==>
      i in a.stack || i in a.taken || exists t :: t in threads && Carries(threads[t], e, i)
  }

  /** A full table in the list will be removed, and a table with space outside it will be added. */
  ghost predicate Pending(threads: map<nat, Thread>, x: Entry<Table>, e: int) {
    && (x.inFreeList && x.adt.stack == [] ==> exists t :: t in threads && WillRemove(threads[t], e))
    && (!x.inFreeList && x.adt.stack != [] ==> exists t :: t in threads && WillAdd(threads[t], e))
  }

  ghost predicate NoTwoCarry(threads: map<nat, Thread>) {
    forall t, u :: t in threads && u in threads && t != u && (threads[t].Popped? || threads[t].Cleared?) ==>
      !Carries(threads[u], threads[t].e, threads[t].i)
  }

  ghost predicate EntryOk(cap: nat, threads: map<nat, Thread>, x: Entry<Table>, e: int) {
    TableOk(cap, x.adt) && Accounted(cap, threads, x.adt, e) && Pending(threads, x, e)
  }

  ghost predicate Listed(book: seq<Entry<Table>>, head: int) {
    exists order :: Linked(book, head, order)
  }

  ghost predicate Inv(s: State) {
    && s.cap > 0
    && InRange(s)
    && Listed(s.book, s.head)
    && (forall t :: t in s.threads ==> ThreadOk(s.cap, s.book, s.threads[t]))
    && NoTwoCarry(s.threads)
    && (forall e :: 0 <= e < |s.book| ==> EntryOk(s.cap, s.threads, s.book[e], e))
  }

  // ---------------------------------------------------------------------------- every step keeps it

  /** What a step that moves one thread, and at most one table with it, has to show. */
  lemma StepFrame(s: State, s': State, t: nat, e: int)
    requires Inv(s) && t in s.threads
    requires s'.cap == s.cap && t in s'.threads && s'.threads == s.threads[t := s'.threads[t]]
    requires InRange(s') && Listed(s'.book, s'.head)
    requires |s'.book| == |s.book|
    requires forall x :: 0 <= x < |s.book| && x != e ==>
               s'.book[x].adt == s.book[x].adt && s'.book[x].inFreeList == s.book[x].inFreeList
    // the thread itself
    requires ThreadOk(s.cap, s'.book, s'.threads[t])
    requires forall u :: u in s.threads && u != t ==> ThreadOk(s.cap, s'.book, s.threads[u])
    requires forall x, i :: Carries(s'.threads[t], x, i) ==>
               Carries(s.threads[t], x, i) || forall u :: u in s.threads && u != t ==> !Carries(s.threads[u], x, i)
    // tables other than e lose nothing that t carried or promised
    requires forall x, i :: x != e && Carries(s.threads[t], x, i) ==> Carries(s'.threads[t], x, i)
    requires forall x :: x != e && WillRemove(s.threads[t], x) ==> WillRemove(s'.threads[t], x)
    requires forall x :: x != e && WillAdd(s.threads[t], x) ==> WillAdd(s'.threads[t], x)
    requires 0 <= e < |s.book| ==> EntryOk(s.cap, s'.threads, s'.book[e], e)
    ensures Inv(s')
  {
    forall x | 0 <= x < |s'.book| ensures EntryOk(s.cap, s'.threads, s'.book[x], x) {
      if x != e {
        EntryFrame(s, s', t, x);
      }
    }
  }

  lemma EntryFrame(s: State, s': State, t: nat, x: int)
    requires Inv(s) && t in s.threads && 0 <= x < |s.book| == |s'.book|
    requires t in s'.threads && s'.threads == s.threads[t := s'.threads[t]]
    requires s'.book[x].adt == s.book[x].adt && s'.book[x].inFreeList == s.book[x].inFreeList
    requires forall i :: Carries(s.threads[t], x, i) ==> Carries(s'.threads[t], x, i)
    requires WillRemove(s.threads[t], x) ==> WillRemove(s'.threads[t], x)
    requires WillAdd(s.threads[t], x) ==> WillAdd(s'.threads[t], x)
    ensures EntryOk(s.cap, s'.threads, s'.book[x], x)
  {
    assert EntryOk(s.cap, s.threads, s.book[x], x);
    KeepsRemover(s.threads, s'.threads, t, x);
    KeepsAdder(s.threads, s'.threads, t, x);
    SameAccounted(s, s', t, x);
  }

  lemma SameAccounted(s: State, s': State, t: nat, x: int)
    requires 0 <= x < |s.book| == |s'.book| && Accounted(s.cap, s.threads, s.book[x].adt, x)
    requires t in s.threads && t in s'.threads && s'.threads == s.threads[t := s'.threads[t]]
    requires s'.book[x].adt == s.book[x].adt
    requires forall i :: Carries(s.threads[t], x, i) ==> Carries(s'.threads[t], x, i)
    ensures Accounted(s.cap, s'.threads, s'.book[x].adt, x)
  {
    var a := s.book[x].adt;
    forall i | 0 <= i < s.cap && i !in a.stack && i !in a.taken
      ensures exists u :: u in s'.threads && Carries(s'.threads[u], x, i)
    {
      var u :| u in s.threads && Carries(s.threads[u], x, i);
      assert u in s'.threads && Carries(s'.threads[u], x, i);
    }
  }

  lemma KeepsRemover(ths: map<nat, Thread>, ths': map<nat, Thread>, t: nat, x: int)
    requires t in ths && t in ths' && ths' == ths[t := ths'[t]]
    requires WillRemove(ths[t], x) ==> WillRemove(ths'[t], x)
    ensures (exists u :: u in ths && WillRemove(ths[u], x)) ==> exists u :: u in ths' && WillRemove(ths'[u], x)
  {
    if u :| u in ths && WillRemove(ths[u], x) {
      assert u in ths' && WillRemove(ths'[u], x);
    }
  }

  lemma KeepsAdder(ths: map<nat, Thread>, ths': map<nat, Thread>, t: nat, x: int)
    requires t in ths && t in ths' && ths' == ths[t := ths'[t]]
    requires WillAdd(ths[t], x) ==> WillAdd(ths'[t], x)
    ensures (exists u :: u in ths && WillAdd(ths[u], x)) ==> exists u :: u in ths' && WillAdd(ths'[u], x)
  {
    if u :| u in ths && WillAdd(ths[u], x) {
      assert u in ths' && WillAdd(ths'[u], x);
    }
  }

  lemma Looks(s: State, step: Step)
    requires Inv(s) && Enabled(s, step) && (step.BeginPut? || step.Search?)
    ensures Inv(Do(s, step))
  {
    StepFrame(s, Do(s, step), step.t, NIL);
  }

  /** Moving index j between stack, cell and thread t accounts for everything that was accounted for. */
  lemma StillAccounted(s: State, s': State, t: nat, e: int, j: nat)
    requires 0 <= e < |s.book| == |s'.book| && Accounted(s.cap, s.threads, s.book[e].adt, e)
    requires t in s.threads && t in s'.threads && s'.threads == s.threads[t := s'.threads[t]]
    requires forall i :: i != j && i in s.book[e].adt.stack ==> i in s'.book[e].adt.stack
    requires forall i :: i != j && i in s.book[e].adt.taken ==> i in s'.book[e].adt.taken
    requires forall i :: Carries(s.threads[t], e, i) ==> i == j
    requires j in s'.book[e].adt.stack || j in s'.book[e].adt.taken || Carries(s'.threads[t], e, j)
    ensures Accounted(s.cap, s'.threads, s'.book[e].adt, e)
  {
    var a, a' := s.book[e].adt, s'.book[e].adt;
    forall i | 0 <= i < s.cap && i !in a'.stack && i !in a'.taken
      ensures exists u :: u in s'.threads && Carries(s'.threads[u], e, i)
    {
      if i == j {
        assert t in s'.threads && Carries(s'.threads[t], e, i);
      } else {
        var u :| u in s.threads && Carries(s.threads[u], e, i);
        assert u in s'.threads && Carries(s'.threads[u], e, i);
      }
    }
  }

  /** Changing the table of an entry leaves the list as it is. */
  lemma SameList(book: seq<Entry<Table>>, book': seq<Entry<Table>>, head: int)
    requires Listed(book, head) && |book'| == |book|
    requires forall x :: 0 <= x < |book| ==> book'[x] == book[x].(adt := book'[x].adt)
    ensures Listed(book', head)
  {
    var order :| Linked(book, head, order);
    forall k | 0 <= k < |order| ensures LinkedAt(book', order, k) {
      assert LinkedAt(book, order, k);
    }
    assert Linked(book', head, order);
  }

  /** The threads other than t when table e changes around index j. */
  lemma OtherThreads(s: State, s': State, t: nat, e: int, j: nat)
    requires Inv(s) && 0 <= e < |s.book| == |s'.book|
    requires s'.book == s.book[e := s.book[e].(adt := s'.book[e].adt)]
    requires forall i :: i in s'.book[e].adt.stack || i in s'.book[e].adt.taken ==>
               i == j || i in s.book[e].adt.stack || i in s.book[e].adt.taken
    requires forall u :: u in s.threads && u != t ==> !Carries(s.threads[u], e, j)
    ensures forall u :: u in s.threads && u != t ==> ThreadOk(s.cap, s'.book, s.threads[u])
    ensures Listed(s'.book, s.head)
  {
    SameList(s.book, s'.book, s.head);
    forall u | u in s.threads && u != t ensures ThreadOk(s.cap, s'.book, s.threads[u]) {
      assert ThreadOk(s.cap, s.book, s.threads[u]);
      assert s.threads[u].Popped? || s.threads[u].Cleared? ==> Carries(s.threads[u], s.threads[u].e, s.threads[u].i);
    }
  }

  /** An index on the stack or in a cell is carried by nobody. */
  lemma CarriedByNobody(s: State, e: int, j: nat)
    requires Inv(s) && 0 <= e < |s.book| && (j in s.book[e].adt.stack || j in s.book[e].adt.taken)
    ensures forall u :: u in s.threads ==> !Carries(s.threads[u], e, j)
  {
    forall u | u in s.threads ensures !Carries(s.threads[u], e, j) {
      assert ThreadOk(s.cap, s.book, s.threads[u]);
    }
  }

  lemma PoppedEntry(s: State, s': State, t: nat, e: nat)
    requires Inv(s) && t in s.threads && s.threads[t] == Chosen(e) && e < |s.book| && s.book[e].adt.stack != []
    requires s' == Do(s, PopIndex(t))
    ensures EntryOk(s.cap, s'.threads, s'.book[e], e)
  {
    assert EntryOk(s.cap, s.threads, s.book[e], e);
    var i, a, a' := s'.threads[t].i, s.book[e].adt, s'.book[e].adt;
    assert a.stack == a'.stack + [i];
    StillAccounted(s, s', t, e, i);
    KeepsAdder(s.threads, s'.threads, t, e);
    if a'.stack == [] {
      assert WillRemove(s'.threads[t], e);
    }
  }

  lemma PopsIndex(s: State, step: Step)
    requires Inv(s) && Enabled(s, step) && step.PopIndex?
    ensures Inv(Do(s, step))
  {
    var s', t := Do(s, step), step.t;
    var e := s.threads[t].e;
    assert EntryOk(s.cap, s.threads, s.book[e], e) && ThreadOk(s.cap, s.book, s.threads[t]);
    if s.book[e].adt.stack == [] {
      StepFrame(s, s', t, NIL);
    } else {
      PoppedEntry(s, s', t, e);
      assert s.book[e].adt.stack == s'.book[e].adt.stack + [s'.threads[t].i];
      CarriedByNobody(s, e, s'.threads[t].i);
      OtherThreads(s, s', t, e, s'.threads[t].i);
      StepFrame(s, s', t, e);
    }
  }

  lemma WritesCell(s: State, step: Step)
    requires Inv(s) && Enabled(s, step) && step.WriteCell?
    ensures Inv(Do(s, step))
  {
    var s', t := Do(s, step), step.t;
    var e, i := s.threads[t].e, s.threads[t].i;
    assert EntryOk(s.cap, s.threads, s.book[e], e) && ThreadOk(s.cap, s.book, s.threads[t]);
    assert Carries(s.threads[t], e, i);
    OtherThreads(s, s', t, e, i);
    StillAccounted(s, s', t, e, i);
    KeepsRemover(s.threads, s'.threads, t, e);
    KeepsAdder(s.threads, s'.threads, t, e);
    assert EntryOk(s.cap, s'.threads, s'.book[e], e);
    StepFrame(s, s', t, e);
  }

  lemma ClearsCell(s: State, step: Step)
    requires Inv(s) && Enabled(s, step) && step.ClearCell?
    ensures Inv(Do(s, step))
  {
    var s', t := Do(s, step), step.t;
    var e, i := step.e, step.i;
    assert EntryOk(s.cap, s.threads, s.book[e], e);
    CarriedByNobody(s, e, i);
    OtherThreads(s, s', t, e, i);
    StillAccounted(s, s', t, e, i);
    KeepsRemover(s.threads, s'.threads, t, e);
    KeepsAdder(s.threads, s'.threads, t, e);
    assert EntryOk(s.cap, s'.threads, s'.book[e], e);
    StepFrame(s, s', t, e);
  }

  lemma PushesIndex(s: State, step: Step)
    requires Inv(s) && Enabled(s, step) && step.PushIndex?
    ensures Inv(Do(s, step))
  {
    var s', t := Do(s, step), step.t;
    var e, i := s.threads[t].e, s.threads[t].i;
    assert EntryOk(s.cap, s.threads, s.book[e], e) && ThreadOk(s.cap, s.book, s.threads[t]);
    assert Carries(s.threads[t], e, i);
    OtherThreads(s, s', t, e, i);
    StillAccounted(s, s', t, e, i);
    KeepsRemover(s.threads, s'.threads, t, e);
    KeepsAdder(s.threads, s'.threads, t, e);
    if s.book[e].adt.stack == [] {
      assert WillAdd(s'.threads[t], e);
    }
    assert EntryOk(s.cap, s'.threads, s'.book[e], e);
    StepFrame(s, s', t, e);
  }

  /** Thread t finishes with table e, whose place in the list is now right. */
  lemma Finishes(s: State, s': State, t: nat, e: nat)
    requires Inv(s) && t in s.threads && (s.threads[t].Removing? || s.threads[t].Adding?) && s.threads[t].e == e
    requires s'.cap == s.cap && s'.threads == s.threads[t := Idle]
    requires InRange(s') && Listed(s'.book, s'.head)
    requires SameTables(s.book, s'.book) && e < |s.book|
    requires forall x :: 0 <= x < |s.book| && x != e ==> s'.book[x].inFreeList == s.book[x].inFreeList
    requires Pending(s'.threads, s'.book[e], e)
    ensures Inv(s')
  {
    assert EntryOk(s.cap, s.threads, s.book[e], e);
    SameAccounted(s, s', t, e);
    forall u | u in s.threads ensures ThreadOk(s.cap, s'.book, s'.threads[u]) {
      assert ThreadOk(s.cap, s.book, s.threads[u]);
    }
    StepFrame(s, s', t, e);
  }

  lemma UnlinksFull(book: seq<Entry<Table>>, head: int, e: nat)
    requires Listed(book, head) && e < |book| && book[e].inFreeList
    requires (book[e].prev == NIL || 0 <= book[e].prev < |book|) && (book[e].next == NIL || 0 <= book[e].next < |book|)
    ensures var b := Unlink(book, e);
            && Listed(b, HeadAfterUnlink(book, head, e)) && SameTables(book, b)
            && forall x :: 0 <= x < |book| ==> b[x].inFreeList == (x != e && book[x].inFreeList)
  {
    var order :| Linked(book, head, order);
    var k :| 0 <= k < |order| && order[k] == e;
    UnlinkLinks(book, head, order, k);
    UnlinkFlags(book, head, order, k);
  }

  lemma TriesRemoval(s: State, step: Step)
    requires Inv(s) && Enabled(s, step) && step.TryRemoval?
    ensures Inv(Do(s, step))
  {
    var s', t := Do(s, step), step.t;
    var e := s.threads[t].e;
    assert EntryOk(s.cap, s.threads, s.book[e], e) && ThreadOk(s.cap, s.book, s.threads[t]);
    if s.book[e].inFreeList && s.book[e].adt.stack == [] {
      UnlinksFull(s.book, s.head, e);
    } else {
      KeepsAdder(s.threads, s'.threads, t, e);
    }
    Finishes(s, s', t, e);
  }

  lemma TriesAddition(s: State, step: Step)
    requires Inv(s) && Enabled(s, step) && step.TryAddition?
    ensures Inv(Do(s, step))
  {
    var s', t := Do(s, step), step.t;
    var e := s.threads[t].e;
    assert EntryOk(s.cap, s.threads, s.book[e], e) && ThreadOk(s.cap, s.book, s.threads[t]);
    if !s.book[e].inFreeList && s.book[e].adt.stack != [] {
      var order :| Linked(s.book, s.head, order);
      PushLinks(s.book, s.head, order, e);
    } else {
      KeepsRemover(s.threads, s'.threads, t, e);
    }
    Finishes(s, s', t, e);
  }

  lemma TriesExpand(s: State, step: Step)
    requires Inv(s) && Enabled(s, step) && step.TryExpand?
    ensures Inv(Do(s, step))
  {
    var s', t := Do(s, step), step.t;
    if s.head != NIL {
      StepFrame(s, s', t, NIL);
    } else {
      Expands(s, s', t);
    }
  }

  lemma Expands(s: State, s': State, t: nat)
    requires Inv(s) && t in s.threads && s.threads[t].Expanding? && s.head == NIL
    requires s' == Do(s, TryExpand(t))
    ensures Inv(s')
  {
    var n := |s.book|;
    var order :| Linked(s.book, s.head, order);
    assert order == [];
    var book1 := s.book + [NewTable(s.cap)];
    assert Linked(book1, NIL, order);
    PushLinks(book1, NIL, order, n);
    forall u | u in s'.threads ensures ThreadOk(s.cap, s'.book, s'.threads[u]) {
      assert ThreadOk(s.cap, s.book, s.threads[u]);
    }
    forall x | 0 <= x < |s'.book| ensures EntryOk(s.cap, s'.threads, s'.book[x], x) {
      if x < n {
        ExpandFrame(s, s', t, x);
      } else {
        NewTableOk(s.cap, s'.threads, s'.book[n], n);
      }
    }
  }

  lemma NewTableOk(cap: nat, threads: map<nat, Thread>, x: Entry<Table>, n: int)
    requires cap > 0 && x.inFreeList && x.adt == NewTable(cap).adt
    ensures EntryOk(cap, threads, x, n)
  {
    var q := x.adt.stack;
    forall i | 0 <= i < cap ensures i in q {
      assert q[i] == i;
    }
  }

  lemma ExpandFrame(s: State, s': State, t: nat, x: int)
    requires Inv(s) && t in s.threads && s.threads[t].Expanding? && s'.threads == s.threads[t := Searching]
    requires 0 <= x < |s.book| < |s'.book| && s'.book[x] == s.book[x]
    ensures EntryOk(s.cap, s'.threads, s'.book[x], x)
  {
    assert EntryOk(s.cap, s.threads, s.book[x], x);
    KeepsRemover(s.threads, s'.threads, t, x);
    KeepsAdder(s.threads, s'.threads, t, x);
    SameAccounted(s, s'.(book := s.book), t, x);
  }

  lemma StepKeepsInv(s: State, step: Step)
    requires Inv(s) && Enabled(s, step)
    ensures Inv(Do(s, step))
  {
    match step
    case BeginPut(_) => Looks(s, step);
    case Search(_) => Looks(s, step);
    case TryExpand(_) => TriesExpand(s, step);
    case PopIndex(_) => PopsIndex(s, step);
    case WriteCell(_) => WritesCell(s, step);
    case TryRemoval(_) => TriesRemoval(s, step);
    case ClearCell(_, _, _) => ClearsCell(s, step);
    case PushIndex(_) => PushesIndex(s, step);
    case TryAddition(_) => TriesAddition(s, step);
  }

  lemma {:induction false} RunKeepsInv(s: State, steps: seq<Step>, s': State)
    requires Inv(s) && Run(s, steps, s')
    ensures Inv(s')
    decreases |steps|
  {
    if steps != [] {
      StepKeepsInv(s, steps[0]);
      RunKeepsInv(Do(s, steps[0]), steps[1..], s');
    }
  }

  lemma StartEstablishesInv(s: State)
    requires Start(s)
    ensures Inv(s)
  {
    assert Linked(s.book, s.head, []);
  }

  // ---------------------------------------------------------------------------- the main results

  /**
   In every interleaving the list of tables with space is well formed; a full table in the list has a thread
   that is going to remove it, and a table with space outside of it has a thread that is going to add it.
   */
  lemma ListIsRepaired(s0: State, steps: seq<Step>, s: State)
    requires Start(s0) && Run(s0, steps, s)
    ensures InRange(s)
    ensures exists order :: Linked(s.book, s.head, order)
    ensures forall e :: 0 <= e < |s.book| && s.book[e].inFreeList && s.book[e].adt.stack == [] ==>
              exists t :: t in s.threads && WillRemove(s.threads[t], e)
    ensures forall e :: 0 <= e < |s.book| && !s.book[e].inFreeList && s.book[e].adt.stack != [] ==>
              exists t :: t in s.threads && WillAdd(s.threads[t], e)
  {
    StartEstablishesInv(s0);
    RunKeepsInv(s0, steps, s);
    forall e | 0 <= e < |s.book| ensures Pending(s.threads, s.book[e], e) {
      assert EntryOk(s.cap, s.threads, s.book[e], e);
    }
  }

  /** With no put or free under way, the list holds exactly the tables with space. */
  lemma QuietListIsExact(s0: State, steps: seq<Step>, s: State)
    requires Start(s0) && Run(s0, steps, s) && forall t :: t in s.threads ==> s.threads[t].Idle?
    ensures exists order :: Linked(s.book, s.head, order) &&
              forall e :: 0 <= e < |s.book| ==> (e in order <==> s.book[e].adt.stack != [])
  {
    ListIsRepaired(s0, steps, s);
    var order :| Linked(s.book, s.head, order);
    forall e | 0 <= e < |s.book| ensures e in order <==> s.book[e].adt.stack != [] {
      assert s.book[e].inFreeList <==> e in order;
    }
  }

  /**
   In every interleaving each index of each table is in exactly one place: on the stack of free indices (once),
   in an allocated cell, or carried by exactly one put or free. So two puts under way never hold the same index.
   */
  lemma IndicesArePartitioned(s0: State, steps: seq<Step>, s: State, e: int, i: int)
    requires Start(s0) && Run(s0, steps, s) && 0 <= e < |s.book| && 0 <= i < s.cap
    ensures var a := s.book[e].adt;
            && !(i in a.stack && i in a.taken)
            && (i in a.stack || i in a.taken <==> !exists t :: t in s.threads && Carries(s.threads[t], e, i))
            && (forall k, l :: 0 <= k < l < |a.stack| ==> a.stack[k] != a.stack[l])
    ensures forall t, u :: t in s.threads && u in s.threads && Carries(s.threads[t], e, i) && Carries(s.threads[u], e, i)
              ==> t == u
  {
    StartEstablishesInv(s0);
    RunKeepsInv(s0, steps, s);
    assert EntryOk(s.cap, s.threads, s.book[e], e);
    if i in s.book[e].adt.stack || i in s.book[e].adt.taken {
      CarriedByNobody(s, e, i);
    }
  }

  /** Returning an index never overflows the stack, whose storage has room for cap of them. */
  lemma StackNeverOverflows(s0: State, steps: seq<Step>, s: State, t: nat)
    requires Start(s0) && Run(s0, steps, s) && Enabled(s, PushIndex(t))
    ensures s.threads[t].e < |s.book| && |s.book[s.threads[t].e].adt.stack| < s.cap
  {
    StartEstablishesInv(s0);
    RunKeepsInv(s0, steps, s);
    var e, i := s.threads[t].e, s.threads[t].i;
    assert EntryOk(s.cap, s.threads, s.book[e], e) && ThreadOk(s.cap, s.book, s.threads[t]);
    DistinctFit(s.book[e].adt.stack + [i], s.cap);
  }

  lemma {:induction false} DistinctFit(q: seq<nat>, n: nat)
    requires forall k, l :: 0 <= k < l < |q| ==> q[k] != q[l]
    requires forall x :: x in q ==> x < n
    ensures |q| <= n
    decreases n
  {
    if q != [] {
      assert q[0] in q && 0 < n;
    }
    if n > 0 {
      if n - 1 in q {
        var k :| 0 <= k < |q| && q[k] == n - 1;
        WithoutIsRest(q, k);
        DistinctFit(Without(q, k), n - 1);
      } else {
        DistinctFit(q, n - 1);
      }
    }
  }
}
