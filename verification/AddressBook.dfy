/** The address book, used by one thread at a time: a growing list of tables behind one map of virtual addresses. */
module AddressBook {
  import opened Common
  import opened BookList
  import opened AddressTable

  type Book<T> = seq<Entry<Table<T>>>

  // ---------------------------------------------------------------------------- counting cells

  ghost function Addresses(n: nat, cap: nat): set<Vaddr> {
    set t: nat, c: nat | t < n && c < cap :: Vaddr(t, c)
  }

  ghost function Column(t: nat, cap: nat): set<Vaddr> {
    set c: nat | c < cap :: Vaddr(t, c)
  }

  lemma {:induction false} ColumnSize(t: nat, cap: nat)
    ensures |Column(t, cap)| == cap
  {
    if cap > 0 {
      ColumnSize(t, cap - 1);
      assert Column(t, cap) == Column(t, cap - 1) + {Vaddr(t, cap - 1)};
    }
  }

  lemma {:induction false} AddressesSize(n: nat, cap: nat)
    ensures |Addresses(n, cap)| == n * cap
  {
    if n > 0 {
      AddressesSize(n - 1, cap);
      ColumnSize(n - 1, cap);
      assert Addresses(n, cap) == Addresses(n - 1, cap) + Column(n - 1, cap);
      assert n * cap == (n - 1) * cap + cap;
    } else {
      assert Addresses(0, cap) == {};
    }
  }

  lemma SubsetSize<T>(a: set<T>, b: set<T>)
    requires a <= b
    ensures |a| <= |b|
  {
    assert b == a + (b - a);
  }

  lemma RoundedUp(x: nat, d: nat, n: nat)
    requires d > 0 && x <= n * d && (n > 0 ==> (n - 1) * d < x)
    ensures n == (x + d - 1) / d
  {
    if n > 0 {
      assert n * d == (n - 1) * d + d;
    }
    Quotient(x + d - 1, d, n);
  }

  // ---------------------------------------------------------------------------- what a book stands for

  ghost predicate TablesOk<T>(book: Book<T>, cap: nat) {
    forall t :: 0 <= t < |book| ==>
      && TableOk(book[t].adt) && |book[t].adt.slots| == cap
      && (book[t].inFreeList <==> book[t].adt.stack != [])
  }

  ghost predicate CellMatches<T>(book: Book<T>, cap: nat, cells: map<Vaddr, T>, held: set<Vaddr>, v: Vaddr)
    requires TablesOk(book, cap)
  {
    var taken := v.table < |book| && v.cell < cap && book[v.table].adt.slots[v.cell].taken;
    && (v in cells <==> taken)
    && (taken ==> book[v.table].adt.slots[v.cell].paddr == Some(cells[v]))
    && (v in held <==> taken && book[v.table].adt.slots[v.cell].locked)
  }

  /** The maps that the cells of all tables amount to. */
  ghost predicate CellsMatch<T>(book: Book<T>, cap: nat, cells: map<Vaddr, T>, held: set<Vaddr>)
    requires TablesOk(book, cap)
  {
    forall v {:trigger CellMatches(book, cap, cells, held, v)} :: CellMatches(book, cap, cells, held, v)
  }

  lemma CellIs<T>(book: Book<T>, cap: nat, cells: map<Vaddr, T>, held: set<Vaddr>, v: Vaddr)
    requires TablesOk(book, cap) && CellsMatch(book, cap, cells, held)
    ensures CellMatches(book, cap, cells, held, v)
    ensures var taken := v.table < |book| && v.cell < cap && book[v.table].adt.slots[v.cell].taken;
            (v in cells <==> taken) && (v in held ==> taken)
  {
  }

  lemma TableIs<T>(book: Book<T>, cap: nat, e: nat)
    requires TablesOk(book, cap) && e < |book|
    ensures TableOk(book[e].adt) && |book[e].adt.slots| == cap && (book[e].inFreeList <==> book[e].adt.stack != [])
  {
  }

  /** The tables after one of them has changed, and its place in the list has been put right. */
  lemma TablesAfter<T>(book: Book<T>, book': Book<T>, cap: nat, e: nat)
    requires TablesOk(book, cap) && e < |book| == |book'|
    requires TableOk(book'[e].adt) && |book'[e].adt.slots| == cap
    requires book'[e].inFreeList <==> book'[e].adt.stack != []
    requires forall t :: 0 <= t < |book| && t != e ==>
               book'[t].adt == book[t].adt && book'[t].inFreeList == book[t].inFreeList
    ensures TablesOk(book', cap)
  {
  }

  lemma CellsFit<T>(book: Book<T>, cap: nat, cells: map<Vaddr, T>, held: set<Vaddr>)
    requires TablesOk(book, cap) && CellsMatch(book, cap, cells, held)
    ensures |cells| <= |book| * cap
    ensures (forall t :: 0 <= t < |book| ==> !book[t].inFreeList) ==> |cells| == |book| * cap
  {
    var all := Addresses(|book|, cap);
    AddressesSize(|book|, cap);
    forall v | v in cells ensures v in all {
      assert CellMatches(book, cap, cells, held, v);
    }
    SubsetSize(cells.Keys, all);
    if forall t :: 0 <= t < |book| ==> !book[t].inFreeList {
      forall v | v in all ensures v in cells {
        assert book[v.table].adt.stack == [] && CellMatches(book, cap, cells, held, v);
      }
      assert cells.Keys == all;
    }
  }

  /** Writing one cell writes one address of the maps. */
  lemma CellsAfterWrite<T>(book: Book<T>, book': Book<T>, cap: nat, cells: map<Vaddr, T>, held: set<Vaddr>,
                           v: Vaddr, x: Slot<T>)
    requires TablesOk(book, cap) && TablesOk(book', cap) && CellsMatch(book, cap, cells, held)
    requires v.table < |book| == |book'| && v.cell < cap
    requires forall t :: 0 <= t < |book| && t != v.table ==> book'[t].adt.slots == book[t].adt.slots
    requires book'[v.table].adt.slots == book[v.table].adt.slots[v.cell := x]
    requires (x.taken ==> x.paddr.Some?) && (!x.taken ==> !x.locked)
    ensures CellsMatch(book', cap, if x.taken then cells[v := x.paddr.value] else cells - {v},
                       if x.locked then held + {v} else held - {v})
  {
    var cells' := if x.taken then cells[v := x.paddr.value] else cells - {v};
    var held' := if x.locked then held + {v} else held - {v};
    forall w ensures CellMatches(book', cap, cells', held', w) {
      assert CellMatches(book, cap, cells, held, w);
    }
  }

  /** Adding a table with nothing in it. */
  lemma CellsAfterGrowth<T>(book: Book<T>, book': Book<T>, cap: nat, cells: map<Vaddr, T>, held: set<Vaddr>)
    requires TablesOk(book, cap) && TablesOk(book', cap) && CellsMatch(book, cap, cells, held)
    requires |book'| == |book| + 1 && forall t :: 0 <= t < |book| ==> book'[t].adt == book[t].adt
    requires forall c :: 0 <= c < cap ==> book'[|book|].adt.slots[c] == EmptySlot()
    ensures CellsMatch(book', cap, cells, held)
  {
    forall w ensures CellMatches(book', cap, cells, held, w) {
      assert CellMatches(book, cap, cells, held, w);
    }
  }

  class AddrBook<T> {
    const tableCap: nat
    var freeList: int
    var book: Book<T>
    var bookCap: nat

    ghost var order: seq<int>        // the list, front first
    ghost var cells: map<Vaddr, T>   // what each allocated virtual address stands for
    ghost var held: set<Vaddr>       // the addresses whose cell is locked
    ghost var peak: nat              // the most addresses ever allocated at once

    ghost predicate Shape()
      reads this
    {
      && 0 < tableCap <= UINT64_MAX
      && |book| <= bookCap && bookCap > 0
      && Linked(book, freeList, order)
      && TablesOk(book, tableCap)
      && CellsMatch(book, tableCap, cells, held)
    }

    /** There are as many tables as the peak needs. */
    ghost predicate Valid()
      reads this
    {
      && Shape()
      && |cells| <= peak <= |book| * tableCap
      && (|book| > 0 ==> (|book| - 1) * tableCap < peak)
    }

    constructor (tableCap: nat)
      requires 0 < tableCap <= UINT64_MAX
      ensures Valid() && this.tableCap == tableCap
      ensures cells == map[] && held == {} && peak == 0 && bookCap == 1
    {
      this.tableCap := tableCap;
      freeList, book, bookCap := NIL, [], 1;
      order, cells, held, peak := [], map[], {}, 0;
    }

    lemma TablesArePeakRoundedUp()
      requires Valid()
      ensures |book| == (peak + tableCap - 1) / tableCap
      ensures |cells| <= peak
    {
      RoundedUp(peak, tableCap, |book|);
    }

    lemma Shapely()
      requires Shape()
      ensures 0 < tableCap <= UINT64_MAX && |book| <= bookCap && bookCap > 0
      ensures Linked(book, freeList, order) && TablesOk(book, tableCap) && CellsMatch(book, tableCap, cells, held)
    {
    }

    lemma InShape()
      requires 0 < tableCap <= UINT64_MAX && |book| <= bookCap && bookCap > 0
      requires Linked(book, freeList, order) && TablesOk(book, tableCap) && CellsMatch(book, tableCap, cells, held)
      ensures Shape()
    {
    }

    lemma FreeListIsHead()
      requires Shape()
      ensures freeList == NIL <==> forall t :: 0 <= t < |book| ==> !book[t].inFreeList
      ensures freeList != NIL ==> 0 <= freeList < |book| && book[freeList].adt.stack != []
    {
      if freeList != NIL {
        assert order[0] == freeList && freeList in order;
      } else {
        assert order == [];
      }
    }

    /** A new table at the end of the book, if no table has space. */
    method TryExpand()
      requires Shape()
      modifies this`freeList, this`book, this`bookCap, this`order
      ensures Shape() && freeList != NIL
      ensures old(freeList) != NIL ==> book == old(book) && bookCap == old(bookCap) && order == old(order)
      ensures old(freeList) == NIL ==>
                && |book| == old(|book|) + 1 && freeList == old(|book|) && order == [freeList]
                && bookCap == (if old(|book|) == old(bookCap) then 2 * old(bookCap) else old(bookCap))
                && |book[freeList].adt.stack| == tableCap
                && forall t :: 0 <= t < old(|book|) ==> book[t].adt == old(book)[t].adt
    {
      hide Linked, LinkedAt, CellsMatch;
      if freeList != NIL {
        return;
      }
      if |book| == bookCap {
        bookCap := bookCap * 2;
      }
      var was := book;
      var grown := book + [Entry(false, NIL, NIL, NewTable(tableCap))];
      GrownLinks(was, NIL, order, grown[|was|]);
      PushLinks(grown, NIL, order, |was|);
      book, freeList := Push(grown, NIL, |was|), |was|;
      order := [|was|] + order;
      assert forall t :: 0 <= t < |was| ==> book[t].adt == was[t].adt && book[t].inFreeList == was[t].inFreeList;
      CellsAfterGrowth(was, book, tableCap, cells, held);
    }

    /** Takes table e, which has become full, out of the list. */
    method TryRemoval(e: nat)
      requires e < |book| && |book| <= bookCap && Linked(book, freeList, order)
      modifies this`freeList, this`book, this`order
      ensures Linked(book, freeList, order) && SameTables(old(book), book)
      ensures var out := old(book)[e].inFreeList && old(book)[e].adt.stack == [];
              && (forall t :: 0 <= t < |book| ==> book[t].inFreeList == (old(book)[t].inFreeList && !(out && t == e)))
              && (if !out then order == old(order)
                  else exists k :: 0 <= k < |old(order)| && old(order)[k] == e && order == Without(old(order), k))
    {
      hide Linked, Unlink, HeadAfterUnlink;
      if !book[e].inFreeList || book[e].adt.stack != [] {
        return;
      }
      ghost var k := ListedSomewhere(book, freeList, order, e);
      UnlinkLinks(book, freeList, order, k);
      UnlinkFlags(book, freeList, order, k);
      book, freeList := Unlink(book, e), HeadAfterUnlink(book, freeList, e);
      order := Without(order, k);
    }

    /** Puts table e, which has space again, into the list. */
    method TryAddition(e: nat)
      requires e < |book| && |book| <= bookCap && Linked(book, freeList, order)
      modifies this`freeList, this`book, this`order
      ensures Linked(book, freeList, order) && SameTables(old(book), book)
      ensures var add := old(book)[e].adt.stack != [];
              && (forall t :: 0 <= t < |book| ==> book[t].inFreeList == (old(book)[t].inFreeList || (add && t == e)))
              && order == if add && !old(book)[e].inFreeList then [e] + old(order) else old(order)
    {
      if book[e].inFreeList || book[e].adt.stack == [] {
        return;
      }
      PushLinks(book, freeList, order, e);
      book, freeList := Push(book, freeList, e), e;
      order := [e] + order;
    }

    /** The body of adb_put_p's loop once table e is chosen: adt_put_p, and the removal of a table newly full. */
    method PutInTable(e: nat, paddr: T, hold: bool) returns (v: Vaddr)
      requires Shape() && e < |book| && book[e].adt.stack != []
      modifies this`freeList, this`book, this`order, this`cells, this`held
      ensures Shape() && |book| == old(|book|)
      ensures v !in old(cells) && v.cell < tableCap && v.table == e
      ensures old(book)[e].adt.stack == book[e].adt.stack + [v.cell]
      ensures cells == old(cells)[v := paddr]
      ensures held == if hold then old(held) + {v} else old(held)
    {
      hide Linked, LinkedAt, CellsMatch, TablesOk, TableOk, CellMatches, Put, Shape;
      ghost var was := book;
      Shapely();
      TableIs(book, tableCap, e);
      var (code, i, a) := Put(book[e].adt, paddr, hold);
      v := Vaddr(e, i);
      SameLinks(book, freeList, order, e, a);
      book := book[e := book[e].(adt := a)];
      if code == NewlyFull {
        TryRemoval(e);
      }
      CellIs(was, tableCap, cells, held, v);
      TablesAfter(was, book, tableCap, e);
      CellsAfterWrite(was, book, tableCap, cells, held, v, Slot(true, hold, Some(paddr)));
      cells := cells[v := paddr];
      held := if hold then held + {v} else held - {v};
      InShape();
    }

    /** Gives paddr a virtual address that was not in use, and leaves its cell locked when hold is set. */
    method PutP(paddr: T, hold: bool) returns (v: Vaddr)
      requires Valid()
      modifies this
      ensures Valid()
      ensures v !in old(cells) && v != NULL_VADDR
      ensures v.table == if old(freeList) == NIL then old(|book|) else old(freeList)
      ensures cells == old(cells)[v := paddr]
      ensures held == if hold then old(held) + {v} else old(held)
      ensures peak == if |cells| > old(peak) then |cells| else old(peak)
      ensures |book| == old(|book|) || (|book| == old(|book|) + 1 && |old(cells)| == old(|book|) * tableCap)
    {
      ghost var n := |book|;
      while true
        invariant Shape() && cells == old(cells) && held == old(held) && peak == old(peak)
        invariant if |book| == n then freeList == old(freeList)
                  else |book| == n + 1 && |cells| == n * tableCap && freeList == n && old(freeList) == NIL
        decreases freeList == NIL
      {
        var e := freeList;
        FreeListIsHead();
        if e == NIL {
          CellsFit(book, tableCap, cells, held);
          TryExpand();
          continue;
        }
        // The source tries again when the table turns out to be full; a single thread never sees that.
        v := PutInTable(e, paddr, hold);
        break;
      }
      peak := if |cells| > peak then |cells| else peak;
      PeakFits(|book|, n, old(cells), v, paddr, old(peak));
    }

    lemma PeakFits(m: nat, n: nat, was: map<Vaddr, T>, v: Vaddr, paddr: T, oldPeak: nat)
      requires Shape() && |book| == m && v !in was && cells == was[v := paddr]
      requires |was| <= oldPeak <= n * tableCap && (n > 0 ==> (n - 1) * tableCap < oldPeak)
      requires m == n || (m == n + 1 && |was| == n * tableCap)
      requires peak == if |cells| > oldPeak then |cells| else oldPeak
      ensures Valid()
    {
      CellsFit(book, tableCap, cells, held);
      assert |cells| == |was| + 1;
      assert m * tableCap == if m == n then n * tableCap else n * tableCap + tableCap;
    }

    /** adt_free, and the addition of a table newly free. */
    method FreeInTable(v: Vaddr)
      requires Shape() && v in cells && v !in held
      modifies this`freeList, this`book, this`order, this`cells
      ensures Shape() && cells == old(cells) - {v} && |book| == old(|book|)
      ensures v.table < |book| && book[v.table].adt.stack == old(book)[v.table].adt.stack + [v.cell]
      ensures order == if old(book)[v.table].inFreeList then old(order) else [v.table] + old(order)
    {
      hide Linked, LinkedAt, CellsMatch, TablesOk, TableOk, CellMatches;
      var e := v.table;
      ghost var was := book;
      CellIs(book, tableCap, cells, held, v);
      TableIs(book, tableCap, e);
      var (code, a) := Free(book[e].adt, v.cell);
      SameLinks(book, freeList, order, e, a);
      book := book[e := book[e].(adt := a)];
      if code == NewlyFree {
        TryAddition(e);
      }
      TablesAfter(was, book, tableCap, e);
      CellsAfterWrite(was, book, tableCap, cells, held, v, EmptySlot());
      assert held - {v} == held;
      cells := cells - {v};
    }

    /** Frees a virtual address whose cell nobody has locked. */
    method FreeV(v: Vaddr)
      requires Valid() && v in cells && v !in held
      modifies this`freeList, this`book, this`order, this`cells
      ensures Valid()
      ensures cells == old(cells) - {v} && |book| == old(|book|)
    {
      hide Linked, LinkedAt, CellsMatch, TablesOk, Shape;
      FreeInTable(v);
      SubsetSize(cells.Keys, old(cells.Keys));
    }

    /** Rewrites the cell of an allocated address. */
    method WriteCell(v: Vaddr, x: Slot<T>)
      requires Valid() && v in cells && x.taken && x.paddr.Some?
      modifies this`book, this`cells, this`held
      ensures Valid()
      ensures cells == old(cells)[v := x.paddr.value] && |book| == old(|book|)
      ensures held == if x.locked then old(held) + {v} else old(held) - {v}
    {
      var e := v.table;
      ghost var was := book;
      assert CellMatches(book, tableCap, cells, held, v);
      var a := Write(book[e].adt, v.cell, x);
      SameLinks(book, freeList, order, e, a);
      book := book[e := book[e].(adt := a)];
      CellsAfterWrite(was, book, tableCap, cells, held, v, x);
      assert (cells[v := x.paddr.value]).Keys == cells.Keys;
      cells := cells[v := x.paddr.value];
      held := if x.locked then held + {v} else held - {v};
    }

    /** The address behind v; None when someone holds its lock. Otherwise the caller has it now. */
    method TryGetWrite(v: Vaddr) returns (paddr: Option<T>)
      requires Valid() && v in cells
      modifies this`book, this`cells, this`held
      ensures Valid() && cells == old(cells) && |book| == old(|book|)
      ensures paddr == if v in old(held) then None else Some(cells[v])
      ensures held == old(held) + {v}
    {
      assert CellMatches(book, tableCap, cells, held, v);
      var x := book[v.table].adt.slots[v.cell];
      if x.locked {
        return None;
      }
      WriteCell(v, x.(locked := true));
      paddr := x.paddr;
    }

    /** A blocking get: the lock must be free for a single thread to get past it. */
    method Get(v: Vaddr) returns (paddr: T)
      requires Valid() && v in cells && v !in held
      modifies this`book, this`cells, this`held
      ensures Valid() && cells == old(cells) && |book| == old(|book|)
      ensures paddr == cells[v] && held == old(held) + {v}
    {
      var r := TryGetWrite(v);
      paddr := r.value;
    }

    /** adb_get_read and adb_unlock: readers share the lock, so that nothing has changed in the end. */
    method Peek(v: Vaddr) returns (paddr: T)
      requires Valid() && v in cells
      ensures paddr == cells[v]
    {
      assert CellMatches(book, tableCap, cells, held, v);
      paddr := book[v.table].adt.slots[v.cell].paddr.value;
    }

    method Unlock(v: Vaddr)
      requires Valid() && v in cells
      modifies this`book, this`cells, this`held
      ensures Valid() && cells == old(cells) && |book| == old(|book|)
      ensures held == old(held) - {v}
    {
      assert CellMatches(book, tableCap, cells, held, v);
      var x := book[v.table].adt.slots[v.cell];
      WriteCell(v, x.(locked := false));
    }

    /** The part of adb_move_p that concerns the book: a cell locked by the caller gets a new address. */
    method MoveP(v: Vaddr, paddr: T)
      requires Valid() && v in cells
      modifies this`book, this`cells, this`held
      ensures Valid() && cells == old(cells)[v := paddr] && held == old(held) && |book| == old(|book|)
    {
      assert CellMatches(book, tableCap, cells, held, v);
      var x := book[v.table].adt.slots[v.cell];
      WriteCell(v, x.(paddr := Some(paddr)));
    }

    /** adb_allocated. */
    method IsAllocated(v: Vaddr) returns (r: bool)
      requires Valid()
      ensures r <==> v in cells
    {
      assert CellMatches(book, tableCap, cells, held, v);
      if v.table >= |book| || v.cell >= tableCap {
        return false;
      }
      r := book[v.table].adt.slots[v.cell].taken;
    }

    /** adb_foreach: every allocated address once, table by table. */
    method ForEach() returns (q: seq<Vaddr>)
      requires Valid()
      ensures forall v :: v in q <==> v in cells
      ensures forall k, l :: 0 <= k < l < |q| ==> q[k] != q[l]
    {
      q := [];
      forall v | v in cells ensures v.table < |book| && v.cell < tableCap {
        assert CellMatches(book, tableCap, cells, held, v);
      }
      for t := 0 to |book|
        invariant forall v :: v in q <==> v in cells && v.table < t
        invariant forall k, l :: 0 <= k < l < |q| ==> q[k] != q[l]
      {
        for c := 0 to tableCap
          invariant forall v :: v in q <==> v in cells && (v.table < t || (v.table == t && v.cell < c))
          invariant forall k, l :: 0 <= k < l < |q| ==> q[k] != q[l]
        {
          assert CellMatches(book, tableCap, cells, held, Vaddr(t, c));
          if book[t].adt.slots[c].taken {
            assert Vaddr(t, c) !in q;
            q := q + [Vaddr(t, c)];
          }
        }
      }
    }
  }

  /** Changing the table of an entry leaves the list as it is. */
  lemma SameLinks<T>(book: Book<T>, head: int, order: seq<int>, e: int, a: Table<T>)
    requires Linked(book, head, order) && 0 <= e < |book|
    ensures Linked(book[e := book[e].(adt := a)], head, order)
  {
    var book' := book[e := book[e].(adt := a)];
    forall k | 0 <= k < |order| ensures LinkedAt(book', order, k) {
      assert LinkedAt(book, order, k);
    }
  }
}
