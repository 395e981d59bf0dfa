/** An address table: a fixed number of cells and the stack of its free indices. */
module AddressTable {
  import opened Common

  datatype Code = Success | NoSpace | NewlyFull | NewlyFree

  /** A cell; locked says that someone holds its lock. */
  datatype Slot<+T> = Slot(taken: bool, locked: bool, paddr: Option<T>)

  /** What a table holds: the free indices, top last, and the cells. */
  datatype Table<+T> = Table(stack: seq<nat>, slots: seq<Slot<T>>)

  function EmptySlot<T>(): Slot<T> {
    Slot(false, false, None)
  }

  /** Each index is on the stack, once, or its cell is taken. */
  ghost predicate TableOk<T>(a: Table<T>) {
    && (forall k :: 0 <= k < |a.stack| ==> a.stack[k] < |a.slots| && !a.slots[a.stack[k]].taken)
    && (forall k, l :: 0 <= k < l < |a.stack| ==> a.stack[k] != a.stack[l])
    && (forall i :: 0 <= i < |a.slots| && !a.slots[i].taken ==> i in a.stack && a.slots[i] == EmptySlot())
    && (forall i :: 0 <= i < |a.slots| && a.slots[i].taken ==> a.slots[i].paddr.Some?)
  }

  function NewTable<T>(cap: nat): (a: Table<T>)
    ensures TableOk(a) && |a.stack| == |a.slots| == cap
    ensures forall i :: 0 <= i < cap ==> a.slots[i] == EmptySlot() && a.stack[i] == i
  {
    var stack := seq(cap, i => i);
    assert forall i :: 0 <= i < cap ==> i in stack by {
      forall i | 0 <= i < cap ensures i in stack {
        assert stack[i] == i;
      }
    }
    Table(stack, seq(cap, _ => EmptySlot()))
  }

  lemma PopKeepsOk<T>(a: Table<T>, x: Slot<T>)
    requires TableOk(a) && a.stack != [] && x.taken && x.paddr.Some?
    ensures var n := |a.stack| - 1;
            a.stack[n] < |a.slots| && TableOk(Table(a.stack[..n], a.slots[a.stack[n] := x]))
  {
    var n := |a.stack| - 1;
    var i, slots := a.stack[n], a.slots[a.stack[n] := x];
    assert a.stack == a.stack[..n] + [i];
    forall k | 0 <= k < n ensures a.stack[..n][k] < |slots| && !slots[a.stack[..n][k]].taken {
      assert a.stack[k] != a.stack[n];
    }
  }

  /** The index adt_put_p takes, and the table it leaves. */
  function Put<T>(a: Table<T>, paddr: T, hold: bool): (r: (Code, nat, Table<T>))
    requires TableOk(a)
    ensures TableOk(r.2) && |r.2.slots| == |a.slots|
    ensures a.stack == [] ==> r.0 == NoSpace && r.2 == a
    ensures a.stack != [] ==>
              && r.1 < |a.slots| && !a.slots[r.1].taken
              && r.2.slots == a.slots[r.1 := Slot(true, hold, Some(paddr))]
              && a.stack == r.2.stack + [r.1] && r.0 == if |a.stack| == 1 then NewlyFull else Success
  {
    if a.stack == [] then (NoSpace, 0, a)
    else
      var rest := a.stack[..|a.stack|-1];
      var i := a.stack[|a.stack|-1];
      PopKeepsOk(a, Slot(true, hold, Some(paddr)));
      (if rest == [] then NewlyFull else Success, i, Table(rest, a.slots[i := Slot(true, hold, Some(paddr))]))
  }

  /** What adt_free leaves, and whether the table was full. */
  function Free<T>(a: Table<T>, i: nat): (r: (Code, Table<T>))
    requires TableOk(a) && i < |a.slots| && a.slots[i].taken
    ensures TableOk(r.1) && r.1.slots == a.slots[i := EmptySlot()]
    ensures r.1.stack == a.stack + [i] && r.0 == if |a.stack| == 0 then NewlyFree else Success
  {
    var stack := a.stack + [i];
    assert forall x :: x in a.stack ==> x in stack;
    assert i == stack[|a.stack|] && i in stack;
    (if a.stack == [] then NewlyFree else Success, Table(stack, a.slots[i := EmptySlot()]))
  }

  /** Writing a taken cell, its stack aside. */
  function Write<T>(a: Table<T>, i: nat, x: Slot<T>): (r: Table<T>)
    requires TableOk(a) && i < |a.slots| && a.slots[i].taken && x.taken && x.paddr.Some?
    ensures TableOk(r) && r.stack == a.stack && r.slots == a.slots[i := x]
  {
    a.(slots := a.slots[i := x])
  }

  ghost function Members(q: seq<nat>): set<nat> {
    set i | i in q
  }

  ghost function Below(n: nat): (r: set<nat>)
    ensures forall i: nat :: i in r <==> i < n
  {
    if n == 0 then {} else Below(n - 1) + {n - 1}
  }

  ghost function TakenIn<T>(a: Table<T>): set<nat> {
    set i: nat | i < |a.slots| && a.slots[i].taken
  }

  lemma {:induction false} DistinctAreCounted(q: seq<nat>)
    requires forall k, l :: 0 <= k < l < |q| ==> q[k] != q[l]
    ensures |Members(q)| == |q|
    decreases |q|
  {
    if q != [] {
      var r, x := q[..|q|-1], q[|q|-1];
      DistinctAreCounted(r);
      assert q == r + [x];
      assert Members(q) == Members(r) + {x};
      assert x !in r;
    }
  }

  lemma {:induction false} BelowIsCounted(n: nat)
    ensures |Below(n)| == n
  {
    if n > 0 {
      BelowIsCounted(n - 1);
    }
  }

  /** The stack and the taken cells together make up the table, so a stack with a cell taken is not full. */
  lemma FillIsTaken<T>(a: Table<T>)
    requires TableOk(a)
    ensures |TakenIn(a)| + |a.stack| == |a.slots|
    ensures forall i :: 0 <= i < |a.slots| && a.slots[i].taken ==> |a.stack| < |a.slots|
  {
    var free := Members(a.stack);
    DistinctAreCounted(a.stack);
    BelowIsCounted(|a.slots|);
    assert free + TakenIn(a) == Below(|a.slots|);
    assert free !! TakenIn(a);
    forall i | 0 <= i < |a.slots| && a.slots[i].taken ensures |a.stack| < |a.slots| {
      assert i in TakenIn(a);
    }
  }

  /** The table in its arrays, with room for cap free indices, used by one thread at a time. */
  class AddrTable<T> {
    const cap: nat
    const freeStack: array<nat>
    var stackFill: nat
    const cells: array<Slot<T>>

    ghost predicate Valid()
      reads this, freeStack, cells
    {
      && freeStack.Length == cells.Length == cap && stackFill <= cap
      && TableOk(Table(freeStack[..stackFill], cells[..]))
    }

    ghost function Value(): Table<T>
      requires Valid()
      reads this, freeStack, cells
    {
      Table(freeStack[..stackFill], cells[..])
    }

    constructor (cap: nat)
      requires cap > 0
      ensures Valid() && this.cap == cap && fresh(freeStack) && fresh(cells)
      ensures Value() == NewTable(cap)
    {
      this.cap := cap;
      freeStack := new nat[cap](i => i);
      cells := new Slot<T>[cap](_ => EmptySlot());
      stackFill := cap;
      new;
      assert freeStack[..stackFill] == NewTable<T>(cap).stack && cells[..] == NewTable(cap).slots;
    }

    method PutP(paddr: T, hold: bool) returns (code: Code, index: nat)
      requires Valid()
      modifies this`stackFill, cells
      ensures Valid()
      ensures code == if old(stackFill) == 0 then NoSpace else if old(stackFill) == 1 then NewlyFull else Success
      ensures old(stackFill) == 0 ==> stackFill == 0 && cells[..] == old(cells[..])
      ensures old(stackFill) > 0 ==>
                && stackFill == old(stackFill) - 1 && index == freeStack[stackFill] && index < cap
                && !old(cells[..])[index].taken
                && cells[..] == old(cells[..])[index := Slot(true, hold, Some(paddr))]
      ensures var r := Put(old(Value()), paddr, hold); code == r.0 && index == r.1 && Value() == r.2
    {
      ghost var was := Value();
      if stackFill == 0 {
        assert was.stack == [];
        return NoSpace, 0;
      }
      stackFill := stackFill - 1;
      index := freeStack[stackFill];
      code := if stackFill == 0 then NewlyFull else Success;
      cells[index] := Slot(true, hold, Some(paddr));
      assert freeStack[..stackFill] == was.stack[..|was.stack|-1];
      assert cells[..] == was.slots[index := Slot(true, hold, Some(paddr))];
      assert Table(freeStack[..stackFill], cells[..]) == Put(was, paddr, hold).2;
    }

    method FreeCell(index: nat) returns (code: Code)
      requires Valid() && index < cap && cells[index].taken && !cells[index].locked
      modifies this`stackFill, freeStack, cells
      ensures Valid()
      ensures code == if old(stackFill) == 0 then NewlyFree else Success
      ensures stackFill == old(stackFill) + 1 && freeStack[old(stackFill)] == index
      ensures freeStack[..old(stackFill)] == old(freeStack[..stackFill])
      ensures cells[..] == old(cells[..])[index := EmptySlot()]
      ensures (code, Value()) == Free(old(Value()), index)
    {
      ghost var was := Value();
      FillIsTaken(was);
      assert was.slots[index].taken;
      cells[index] := EmptySlot();
      code := if stackFill == 0 then NewlyFree else Success;
      freeStack[stackFill] := index;
      stackFill := stackFill + 1;
      assert freeStack[..stackFill] == was.stack + [index];
    }

    /** adt_get_write with blk unset: None when someone holds the lock. */
    method TryGetWrite(index: nat) returns (paddr: Option<T>)
      requires Valid() && index < cap && cells[index].taken
      modifies cells
      ensures Valid()
      ensures var x := old(cells[index]);
              && paddr == (if x.locked then None else x.paddr)
              && Value() == Write(old(Value()), index, x.(locked := true))
    {
      if cells[index].locked {
        assert cells[..] == old(cells[..])[index := old(cells[index])];
        return None;
      }
      cells[index] := cells[index].(locked := true);
      paddr := cells[index].paddr;
    }

    method Unlock(index: nat)
      requires Valid() && index < cap && cells[index].taken
      modifies cells
      ensures Valid()
      ensures Value() == Write(old(Value()), index, old(cells[index]).(locked := false))
    {
      cells[index] := cells[index].(locked := false);
    }

    /** adt_foreach: the indices of the taken cells, in order. */
    method Indices() returns (q: seq<nat>)
      requires Valid()
      ensures forall i: nat :: i in q <==> i < cap && cells[i].taken
      ensures forall k, l :: 0 <= k < l < |q| ==> q[k] < q[l]
    {
      q := [];
      for i := 0 to cap
        invariant forall x: nat :: x in q <==> x < i && cells[x].taken
        invariant forall k, l :: 0 <= k < l < |q| ==> q[k] < q[l]
      {
        if cells[i].taken {
          assert forall k :: 0 <= k < |q| ==> q[k] in q;
          q := q + [i];
        }
      }
    }
  }
}
