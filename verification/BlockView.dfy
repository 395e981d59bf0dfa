/** How the pieces of a block and the address book agree, and what virtual addresses then stand for. */
module BlockView {
  import opened Common
  import opened BlockLayout
  import opened BlockState

  /** A physical address: a block, and an offset in it. */
  datatype Paddr = Paddr(mb: nat, off: int)

  type Cells = map<Vaddr, Paddr>

  /** An allocated piece stores a virtual address whose cell holds the address of its body. */
  ghost predicate PieceAgrees(ps: Pieces, id: nat, cells: Cells, o: int)
    requires o in ps
  {
    ps[o].alloc ==> ps[o].v in cells && cells[ps[o].v] == Paddr(id, o + 24)
  }

  /** A cell that points into the block points to the body of an allocated piece that stores its address. */
  ghost predicate CellAgrees(ps: Pieces, id: nat, cells: Cells, v: Vaddr)
    requires v in cells
  {
    cells[v].mb == id ==> cells[v].off - 24 in ps && ps[cells[v].off - 24].alloc && ps[cells[v].off - 24].v == v
  }

  ghost predicate Agree(ps: Pieces, id: nat, cells: Cells) {
    && (forall o {:trigger PieceAgrees(ps, id, cells, o)} :: o in ps ==> PieceAgrees(ps, id, cells, o))
    && (forall v {:trigger CellAgrees(ps, id, cells, v)} :: v in cells ==> CellAgrees(ps, id, cells, v))
  }

  /** The bytes of the piece at o that belong to its user. */
  ghost function BodyAt(m: Mem, ps: Pieces, o: int): seq<Cell> {
    if o in ps && 0 <= o && MP_MIN_SIZE <= ps[o].size && o + ps[o].size <= |m| then m[o + 24..o + ps[o].size - 8] else []
  }

  /** What each virtual address of the block stands for, found the way a user finds it: through the book. */
  ghost function Bodies(m: Mem, ps: Pieces, id: nat, cells: Cells): map<Vaddr, seq<Cell>> {
    map v | v in cells && cells[v].mb == id :: BodyAt(m, ps, cells[v].off - 24)
  }

  lemma BodyKept(m: Mem, m': Mem, ps: Pieces, ps': Pieces, o: int)
    requires |m'| == |m| && o in ps && o in ps' && ps'[o].size == ps[o].size
    requires 0 <= o && o + ps[o].size <= |m| && Kept(m, m', ps, o)
    ensures BodyAt(m', ps', o) == BodyAt(m, ps, o)
  {
  }

  /** The block of another id does not notice. */
  lemma OtherBlockAgrees(ps: Pieces, id: nat, cells: Cells, cells': Cells)
    requires Agree(ps, id, cells)
    requires forall v :: (v in cells && cells[v].mb == id) <==> (v in cells' && cells'[v].mb == id)
    requires forall v :: v in cells && cells[v].mb == id ==> cells'[v] == cells[v]
    ensures Agree(ps, id, cells')
    ensures forall m :: Bodies(m, ps, id, cells') == Bodies(m, ps, id, cells)
  {
    forall o | o in ps ensures PieceAgrees(ps, id, cells', o) {
      assert PieceAgrees(ps, id, cells, o);
    }
    forall v | v in cells' ensures CellAgrees(ps, id, cells', v) {
      if v in cells {
        assert CellAgrees(ps, id, cells, v);
      }
    }
  }

  /** A new allocated piece at big, for a virtual address that was not in use. */
  lemma MallocAgrees(m: Mem, m': Mem, ps: Pieces, ps': Pieces, id: nat, cells: Cells, big: int, v: Vaddr)
    requires Agree(ps, id, cells) && v !in cells && OthersKept(m, m', ps, NIL) && Tiling(ps, |m|)
    requires big in ps' && ps'[big].alloc && ps'[big].v == v && (big in ps ==> !ps[big].alloc)
    requires forall o :: o != big ==> ((o in ps && ps[o].alloc) <==> (o in ps' && ps'[o].alloc))
    requires forall o :: o in ps && ps[o].alloc ==> ps'[o] == ps[o]
    ensures var cells' := cells[v := Paddr(id, big + 24)];
            && Agree(ps', id, cells')
            && Bodies(m', ps', id, cells') == Bodies(m, ps, id, cells)[v := BodyAt(m', ps', big)]
  {
    MallocCells(ps, ps', id, cells, big, v);
    MallocBodies(m, m', ps, ps', id, cells, big, v);
  }

  lemma MallocCells(ps: Pieces, ps': Pieces, id: nat, cells: Cells, big: int, v: Vaddr)
    requires Agree(ps, id, cells) && v !in cells
    requires big in ps' && ps'[big].alloc && ps'[big].v == v && (big in ps ==> !ps[big].alloc)
    requires forall o :: o != big ==> ((o in ps && ps[o].alloc) <==> (o in ps' && ps'[o].alloc))
    requires forall o :: o in ps && ps[o].alloc ==> ps'[o] == ps[o]
    ensures Agree(ps', id, cells[v := Paddr(id, big + 24)])
  {
    var cells' := cells[v := Paddr(id, big + 24)];
    forall o | o in ps' ensures PieceAgrees(ps', id, cells', o) {
      assert o != big && ps'[o].alloc ==> PieceAgrees(ps, id, cells, o);
    }
    forall w | w in cells' ensures CellAgrees(ps', id, cells', w) {
      assert w != v ==> CellAgrees(ps, id, cells, w);
    }
  }

  lemma MallocBodies(m: Mem, m': Mem, ps: Pieces, ps': Pieces, id: nat, cells: Cells, big: int, v: Vaddr)
    requires Agree(ps, id, cells) && v !in cells && OthersKept(m, m', ps, NIL) && Tiling(ps, |m|) && NIL !in ps
    requires forall o :: o in ps && ps[o].alloc ==> o in ps' && ps'[o] == ps[o]
    ensures Bodies(m', ps', id, cells[v := Paddr(id, big + 24)]) == Bodies(m, ps, id, cells)[v := BodyAt(m', ps', big)]
  {
    hide BodyAt, OthersKept, Tiling;
    var cells' := cells[v := Paddr(id, big + 24)];
    forall w | w in cells && cells[w].mb == id
      ensures BodyAt(m', ps', cells[w].off - 24) == BodyAt(m, ps, cells[w].off - 24)
    {
      assert CellAgrees(ps, id, cells, w);
      KeptBody(m, m', ps, ps', cells[w].off - 24, NIL);
    }
  }

  lemma KeptBody(m: Mem, m': Mem, ps: Pieces, ps': Pieces, o: int, x: int)
    requires OthersKept(m, m', ps, x) && Tiling(ps, |m|) && o in ps && ps[o].alloc && o != x
    requires o in ps' && ps'[o] == ps[o]
    ensures BodyAt(m', ps', o) == BodyAt(m, ps, o)
  {
    BodyKept(m, m', ps, ps', o);
  }

  /** The allocated piece mp is gone, and its virtual address with it. */
  lemma FreeAgrees(m: Mem, m': Mem, ps: Pieces, ps': Pieces, id: nat, cells: Cells, mp: int)
    requires Agree(ps, id, cells) && OthersKept(m, m', ps, mp) && Tiling(ps, |m|) && mp in ps && ps[mp].alloc
    requires mp in ps' ==> !ps'[mp].alloc
    requires forall o :: o != mp ==> ((o in ps && ps[o].alloc) <==> (o in ps' && ps'[o].alloc))
    requires forall o :: o in ps && ps[o].alloc && o != mp ==> ps'[o] == ps[o]
    ensures var cells' := cells - {ps[mp].v};
            && Agree(ps', id, cells')
            && Bodies(m', ps', id, cells') == Bodies(m, ps, id, cells) - {ps[mp].v}
  {
    assert PieceAgrees(ps, id, cells, mp);
    FreeCells(ps, ps', id, cells, mp);
    FreeBodies(m, m', ps, ps', id, cells, mp);
  }

  lemma FreeCells(ps: Pieces, ps': Pieces, id: nat, cells: Cells, mp: int)
    requires Agree(ps, id, cells) && mp in ps && ps[mp].alloc
    requires mp in ps' ==> !ps'[mp].alloc
    requires forall o :: o != mp ==> ((o in ps && ps[o].alloc) <==> (o in ps' && ps'[o].alloc))
    requires forall o :: o in ps && ps[o].alloc && o != mp ==> ps'[o] == ps[o]
    ensures Agree(ps', id, cells - {ps[mp].v})
  {
    var cells' := cells - {ps[mp].v};
    assert PieceAgrees(ps, id, cells, mp);
    forall o | o in ps' ensures PieceAgrees(ps', id, cells', o) {
      assert ps'[o].alloc ==> PieceAgrees(ps, id, cells, o);
    }
    forall w | w in cells' ensures CellAgrees(ps', id, cells', w) {
      assert CellAgrees(ps, id, cells, w);
    }
  }

  lemma FreeBodies(m: Mem, m': Mem, ps: Pieces, ps': Pieces, id: nat, cells: Cells, mp: int)
    requires Agree(ps, id, cells) && OthersKept(m, m', ps, mp) && Tiling(ps, |m|) && mp in ps && ps[mp].alloc
    requires ps[mp].v in cells && cells[ps[mp].v] == Paddr(id, mp + 24)
    requires forall o :: o in ps && ps[o].alloc && o != mp ==> o in ps' && ps'[o] == ps[o]
    ensures Bodies(m', ps', id, cells - {ps[mp].v}) == Bodies(m, ps, id, cells) - {ps[mp].v}
  {
    hide BodyAt, OthersKept, Tiling;
    var v := ps[mp].v;
    forall w | w in cells && cells[w].mb == id && w != v
      ensures BodyAt(m', ps', cells[w].off - 24) == BodyAt(m, ps, cells[w].off - 24)
    {
      assert CellAgrees(ps, id, cells, w);
      KeptBody(m, m', ps, ps', cells[w].off - 24, mp);
    }
  }

  /** The allocated piece at n is at f afterwards, and the other allocated pieces are where they were. */
  ghost predicate Relocated(m: Mem, m': Mem, ps: Pieces, ps': Pieces, f: int, n: int) {
    && Tiling(ps, |m|) && n in ps && ps[n].alloc && f in ps && !ps[f].alloc && f in ps' && ps'[f] == ps[n]
    && OthersKept(m, m', ps, n) && f + ps[n].size <= |m| && BodyMoved(m, m', n, f, ps[n].size)
    && (n in ps' ==> !ps'[n].alloc)
    && (forall o :: o != n && o != f ==> ((o in ps && ps[o].alloc) <==> (o in ps' && ps'[o].alloc)))
    && (forall o :: o in ps && ps[o].alloc && o != n ==> ps'[o] == ps[o])
  }

  lemma RelocatedBody(m: Mem, m': Mem, ps: Pieces, ps': Pieces, f: int, n: int)
    requires Relocated(m, m', ps, ps', f, n)
    ensures n in ps && ps[n].alloc && BodyAt(m', ps', f) == BodyAt(m, ps, n)
  {
  }

  lemma RelocatedOther(m: Mem, m': Mem, ps: Pieces, ps': Pieces, f: int, n: int, o: int)
    requires Relocated(m, m', ps, ps', f, n) && o in ps && ps[o].alloc && o != n
    ensures o in ps' && ps'[o] == ps[o] && BodyAt(m', ps', o) == BodyAt(m, ps, o)
  {
    BodyKept(m, m', ps, ps', o);
  }

  lemma MoveAgrees(m: Mem, m': Mem, ps: Pieces, ps': Pieces, id: nat, cells: Cells, f: int, n: int)
    requires Agree(ps, id, cells) && Relocated(m, m', ps, ps', f, n)
    ensures Agree(ps', id, cells[ps[n].v := Paddr(id, f + 24)])
  {
    var v := ps[n].v;
    var cells' := cells[v := Paddr(id, f + 24)];
    assert PieceAgrees(ps, id, cells, n);
    forall o | o in ps' ensures PieceAgrees(ps', id, cells', o) {
      assert o != f && ps'[o].alloc ==> PieceAgrees(ps, id, cells, o);
    }
    forall w | w in cells' ensures CellAgrees(ps', id, cells', w) {
      assert CellAgrees(ps, id, cells, w);
    }
  }

  /** A move changes where a virtual address leads, but not to what. */
  lemma MoveKeepsBodies(m: Mem, m': Mem, ps: Pieces, ps': Pieces, id: nat, cells: Cells, f: int, n: int)
    requires Agree(ps, id, cells) && Relocated(m, m', ps, ps', f, n)
    ensures Bodies(m', ps', id, cells[ps[n].v := Paddr(id, f + 24)]) == Bodies(m, ps, id, cells)
  {
    hide Relocated, BodyAt;
    RelocatedBody(m, m', ps, ps', f, n);
    var v := ps[n].v;
    var cells' := cells[v := Paddr(id, f + 24)];
    assert PieceAgrees(ps, id, cells, n);
    forall w | w in cells && cells[w].mb == id
      ensures BodyAt(m', ps', cells'[w].off - 24) == BodyAt(m, ps, cells[w].off - 24)
    {
      assert CellAgrees(ps, id, cells, w);
      if w != v {
        RelocatedOther(m, m', ps, ps', f, n, cells[w].off - 24);
      }
    }
  }

  /** Writing n bytes of a body. */
  lemma BodyWritten(m: Mem, m': Mem, head: int, ps: Pieces, order: seq<int>, id: nat, cells: Cells,
                    v: Vaddr, i: nat, n: nat, c: Cell)
    requires WF(m, head, ps, order, NIL, {}) && Agree(ps, id, cells) && v in cells && cells[v].mb == id
    requires 0 < n && i + n <= |BodyAt(m, ps, cells[v].off - 24)|
    requires 0 <= cells[v].off + i && cells[v].off + i + n <= |m| && m' == Store(m, cells[v].off + i, n, c)
    ensures WF(m', head, ps, order, NIL, {})
    ensures Bodies(m', ps, id, cells) == Bodies(m, ps, id, cells)[v := Store(BodyAt(m, ps, cells[v].off - 24), i, n, c)]
  {
    hide WF, Agree, Store, BodyAt;
    var o := cells[v].off - 24;
    BodyIsInside(m, head, ps, order, id, cells, v);
    StoredInside(m, m', head, ps, order, o, cells[v].off + i, n, c);
    StoredBody(m, ps, o, i, n, c);
    forall w | w in cells && cells[w].mb == id && w != v
      ensures BodyAt(m', ps, cells[w].off - 24) == BodyAt(m, ps, cells[w].off - 24)
    {
      BodyIsInside(m, head, ps, order, id, cells, w);
      OtherBody(m, m', head, ps, order, o, cells[w].off - 24, cells[v].off + i, n, c);
    }
  }

  lemma BodyIsInside(m: Mem, head: int, ps: Pieces, order: seq<int>, id: nat, cells: Cells, v: Vaddr)
    requires WF(m, head, ps, order, NIL, {}) && Agree(ps, id, cells) && v in cells && cells[v].mb == id
    ensures var o := cells[v].off - 24;
            && o in ps && ps[o].alloc && ps[o].v == v && 0 <= o && MP_MIN_SIZE <= ps[o].size
            && o + ps[o].size <= |m| && |BodyAt(m, ps, o)| == ps[o].size - 32 && 34 <= ps[o].size
  {
    assert CellAgrees(ps, id, cells, v);
  }

  lemma StoredInside(m: Mem, m': Mem, head: int, ps: Pieces, order: seq<int>, o: int, p: int, n: nat, c: Cell)
    requires WF(m, head, ps, order, NIL, {}) && o in ps && ps[o].alloc
    requires 0 <= o && o + 24 <= p && 0 < n && p + n <= o + ps[o].size - 8 && o + ps[o].size <= |m|
    requires m' == Store(m, p, n, c)
    ensures WF(m', head, ps, order, NIL, {})
  {
    forall q | q in ps ensures TagAt(m', ps, q) {
      assert TagAt(m, ps, q);
    }
    forall k | 0 <= k < |order| ensures LinksAt(m', order, k) {
      assert LinksAt(m, order, k) && order[k] in ps && order[k] != o;
    }
  }

  lemma StoredBody(m: Mem, ps: Pieces, o: int, i: nat, n: nat, c: Cell)
    requires o in ps && 0 <= o && MP_MIN_SIZE <= ps[o].size && o + ps[o].size <= |m|
    requires 0 < n && i + n <= |BodyAt(m, ps, o)|
    ensures BodyAt(Store(m, o + 24 + i, n, c), ps, o) == Store(BodyAt(m, ps, o), i, n, c)
  {
  }

  lemma OtherBody(m: Mem, m': Mem, head: int, ps: Pieces, order: seq<int>, o: int, q: int, p: int, n: nat, c: Cell)
    requires WF(m, head, ps, order, NIL, {}) && o in ps && q in ps && o != q
    requires 0 <= o && o + 24 <= p && 0 < n && p + n <= o + ps[o].size - 8 && o + ps[o].size <= |m|
    requires m' == Store(m, p, n, c)
    ensures BodyAt(m', ps, q) == BodyAt(m, ps, q)
  {
  }
}
