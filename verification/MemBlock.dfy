/** A memory block: allocation, freeing with coalescing, and compaction under virtual addresses. */
module MemBlockModule {
  import opened Common
  import opened AddressBook
  import opened BlockLayout
  import opened BlockState
  import opened BlockView
  import opened BlockOps

  class MemBlock {
    const id: nat
    const cap: Size
    const mem: array<Cell>
    const adb: AddrBook<Paddr>
    var freeList: int

    ghost var pieces: Pieces
    ghost var order: seq<int>

    ghost predicate State(skip: int, out: set<int>)
      reads this, mem
    {
      mem.Length == cap && WF(mem[..], freeList, pieces, order, skip, out)
    }

    /** new_mem_block: one free piece. */
    constructor (id: nat, adb: AddrBook<Paddr>, minBytes: int)
      requires 0 <= minBytes < TWO_64
      ensures this.id == id && this.adb == adb && fresh(mem)
      ensures State(NIL, {}) && cap == PadNumBytes(minBytes)
      ensures pieces == map[0 := FreePiece(cap)]
    {
      var padded := PadNumBytes(minBytes);
      this.id, this.adb, this.cap := id, adb, padded;
      mem := new Cell[padded];
      freeList := 8;
      pieces, order := map[0 := FreePiece(padded)], [0];
      new;
      MpInit(0, padded, false);
      StoreCell(16, 8, Link(NIL));
      StoreCell(8, 8, Link(NIL));
      assert LinksAt(mem[..], order, 0) && TagAt(mem[..], pieces, 0) && NextOk(pieces, cap, 0);
      assert ListsFree(pieces, order, {}) by {
        assert order[0] in order;
      }
    }

    lemma StateIsWF(skip: int, out: set<int>)
      requires State(skip, out)
      ensures mem.Length == cap == |mem[..]| && WF(mem[..], freeList, pieces, order, skip, out) && Tiling(pieces, cap)
    {
    }

    lemma WFIsState(skip: int, out: set<int>)
      requires mem.Length == cap && WF(mem[..], freeList, pieces, order, skip, out)
      ensures State(skip, out)
    {
    }

    /** The block is in order between operations. */
    ghost predicate Sound()
      reads this, mem
    {
      State(NIL, {}) && Coalesced(pieces) && AllEven(pieces)
    }

    /** So is the book, and the two agree. */
    ghost predicate Valid()
      reads this, mem, adb
    {
      Sound() && adb.Valid() && Agree(pieces, id, adb.cells)
    }

    /** What each virtual address of this block stands for. */
    ghost function View(): map<Vaddr, seq<Cell>>
      reads this, mem, adb
    {
      Bodies(mem[..], pieces, id, adb.cells)
    }

    lemma SoundIsWF()
      requires Sound()
      ensures State(NIL, {}) && mem.Length == cap == |mem[..]| && WF(mem[..], freeList, pieces, order, NIL, {})
      ensures Tiling(pieces, cap) && Coalesced(pieces) && AllEven(pieces)
    {
    }

    lemma SoundAgain()
      requires State(NIL, {}) && Coalesced(pieces) && AllEven(pieces)
      ensures Sound()
    {
    }

    lemma ValidIsSound()
      requires Valid()
      ensures Sound() && adb.Valid() && Agree(pieces, id, adb.cells)
    {
    }

    lemma ValidAgain()
      requires Sound() && adb.Valid() && Agree(pieces, id, adb.cells)
      ensures Valid()
    {
    }

    method StoreCell(p: int, n: int, c: Cell)
      requires 0 <= p && 0 < n && p + n <= mem.Length
      modifies mem
      ensures mem[..] == Store(old(mem[..]), p, n, c)
    {
      mem[p] := c;
      for i := p + 1 to p + n
        invariant mem[p] == c && forall j :: p < j < i ==> mem[j] == Rest
        invariant forall j :: 0 <= j < mem.Length && (j < p || i <= j) ==> mem[j] == old(mem[j])
      {
        mem[i] := Rest;
      }
    }

    method MpInit(p: int, size: int, alloc: bool)
      requires 0 <= p && MP_PADDING <= size && p + size <= mem.Length
      modifies mem
      ensures mem[..] == Init(old(mem[..]), p, size, alloc)
    {
      StoreCell(p, 8, Tag(size, alloc));
      StoreCell(p + size - 8, 8, Tag(size, alloc));
    }

    /** mb_remove_from_size_unsafe: h is the body of the k-th free piece of list. */
    method RemoveFromSize(h: int, ghost list: seq<int>, ghost k: int)
      requires Listed(mem[..], freeList, list) && 0 <= k < |list| && h == list[k] + 8
      modifies this`freeList, mem
      ensures mem[..] == Unlink(old(mem[..]), list, k)
      ensures freeList == if k == 0 then NextLink(list, 0) else old(freeList)
    {
      assert LinksAt(mem[..], list, k);
      var prev, next := mem[h].to, mem[h + 8].to;
      if next != NIL {
        StoreCell(next, 8, Link(prev));
      }
      if prev != NIL {
        StoreCell(prev + 8, 8, Link(next));
      } else {
        freeList := next;
      }
    }

    /** mb_add_to_size_unsafe: mp is not in list yet, and goes in front of the first piece that is no larger. */
    method AddToSize(mp: int, ghost list: seq<int>) returns (ghost k: int)
      requires Listed(mem[..], freeList, list)
      requires 0 <= mp && mp + MP_MIN_SIZE <= mem.Length && mem[mp].Tag?
      requires forall i :: 0 <= i < |list| ==> mem[list[i]].Tag? && Apart(list[i], mp)
      modifies this`freeList, mem
      ensures 0 <= k <= |list|
      ensures k > 0 ==> old(mem[list[k-1]].size) > old(mem[mp].size)
      ensures k < |list| ==> old(mem[list[k]].size) <= old(mem[mp].size)
      ensures mem[..] == Relink(old(mem[..]), list, k, mp)
      ensures freeList == if k == 0 then mp + 8 else old(freeList)
    {
      var size, h, iter := mem[mp].size, mp + 8, freeList;
      k := 0;
      if iter == NIL {
        freeList := h;
        StoreBothLinks(h, NIL, NIL);
        return;
      }
      while mem[iter - 8].size > size
        invariant 0 <= k < |list| && iter == list[k] + 8
        invariant k > 0 ==> mem[list[k-1]].size > size
        invariant mem[..] == old(mem[..])
        decreases |list| - k
      {
        assert LinksAt(mem[..], list, k);
        var next := mem[iter + 8].to;
        if next == NIL {
          AppendLinks(iter, h, list);
          k := k + 1;
          return;
        }
        iter, k := next, k + 1;
      }
      InsertLinks(iter, h, list, k);
    }

    method StoreBothLinks(h: int, prev: int, next: int)
      requires 0 <= h && h + 16 <= mem.Length
      modifies mem
      ensures mem[..] == Store(Store(old(mem[..]), h + 8, 8, Link(next)), h, 8, Link(prev))
    {
      StoreCell(h + 8, 8, Link(next));
      StoreCell(h, 8, Link(prev));
    }

    /** The end of the list was reached: h goes behind iter. */
    method AppendLinks(iter: int, h: int, ghost list: seq<int>)
      requires Listed(mem[..], freeList, list) && list != [] && iter == list[|list|-1] + 8
      requires 8 <= h && h + MP_MIN_SIZE - 8 <= mem.Length
      modifies mem
      ensures mem[..] == Relink(old(mem[..]), list, |list|, h - 8)
    {
      StoreCell(iter + 8, 8, Link(h));
      StoreBothLinks(h, iter, NIL);
    }

    /** h goes in front of iter, the k-th of the list. */
    method InsertLinks(iter: int, h: int, ghost list: seq<int>, ghost k: int)
      requires Listed(mem[..], freeList, list) && 0 <= k < |list| && iter == list[k] + 8
      requires 8 <= h && h + MP_MIN_SIZE - 8 <= mem.Length
      requires forall i :: 0 <= i < |list| ==> Apart(list[i], h - 8)
      modifies this`freeList, mem
      ensures mem[..] == Relink(old(mem[..]), list, k, h - 8)
      ensures freeList == if k == 0 then h else old(freeList)
    {
      hide Relink, With, Listed, Store;
      ghost var m := mem[..];
      ListedBounds(m, freeList, list);
      LinksOf(m, freeList, list, k);
      assert mem[iter] == m[iter];
      var prev := mem[iter].to;
      if prev != NIL {
        StoreCell(prev + 8, 8, Link(h));
      } else {
        freeList := h;
        assert mem[..] == m;
      }
      StoreBothLinks(h, prev, iter);
      StoreCell(iter, 8, Link(h));
      InsertIsRelink(m, list, k, h - 8);
    }

    /** The k-th free piece leaves the list. */
    method Unlist(h: int, ghost k: int, ghost skip: int, ghost out: set<int>)
      requires State(skip, out) && 0 <= k < |order| && h == order[k] + 8
      modifies this`freeList, this`order, mem
      ensures State(skip, out + {old(order)[k]}) && order == Without(old(order), k)
      ensures OthersKept(old(mem[..]), mem[..], pieces, NIL)
    {
      hide *;
      StateIsWF(skip, out);
      WFIsListed(mem[..], freeList, pieces, order, skip, out);
      UnlinkWF(mem[..], freeList, pieces, order, skip, out, k);
      RemoveFromSize(h, order, k);
      order := Without(order, k);
      WFIsState(skip, out + {old(order)[k]});
    }

    /** Free piece mp joins the list. */
    method Enlist(mp: int, ghost skip: int, ghost out: set<int>)
      requires State(skip, out) && mp in out && mp in pieces && !pieces[mp].alloc && mp != skip
      modifies this`freeList, this`order, mem
      ensures State(skip, out - {mp})
      ensures OthersKept(old(mem[..]), mem[..], pieces, NIL)
    {
      hide *;
      ghost var m, head, was := mem[..], freeList, order;
      StateIsWF(skip, out);
      WFIsListed(m, head, pieces, was, skip, out);
      ListedTags(m, head, pieces, was, skip, out, mp);
      assert mem[mp] == m[mp] && forall i :: 0 <= i < |was| ==> mem[was[i]] == m[was[i]];
      ghost var k := AddToSize(mp, was);
      RelinkWF(m, head, pieces, was, skip, out, k, mp);
      order := With(was, k, mp);
      WFIsState(skip, out - {mp});
    }

    /** The one piece missing from the list joins it. */
    method Relist(mp: int, ghost lo: int)
      requires State(NIL, {lo}) && mp == lo && mp in pieces && !pieces[mp].alloc && mp != NIL
      modifies this`freeList, this`order, mem
      ensures State(NIL, {})
      ensures OthersKept(old(mem[..]), mem[..], pieces, NIL)
    {
      Enlist(mp, NIL, {lo});
      assert {lo} - {mp} == {};
    }

    /** The pieces on both sides of mp, as far as they exist, and whether they are free. */
    method Neighbours(mp: int) returns (prev: int, prevFree: bool, next: int, nextFree: bool)
      requires State(NIL, {}) && mp in pieces
      ensures Surrounds(pieces, cap, mp, prev, prevFree, next, nextFree)
    {
      hide *;
      ghost var m := mem[..];
      StateIsWF(NIL, {});
      prev, prevFree := NIL, false;
      if mp > 0 {
        ghost var q := FooterBefore(m, freeList, pieces, order, mp);
        assert m[mp - 8] == mem[mp - 8] && m[q] == mem[q];
        prev := mp - mem[mp - 8].size;
        prevFree := !mem[prev].alloc;
      }
      HeaderBehind(m, freeList, pieces, order, mp);
      assert m[mp] == mem[mp];
      next := mp + mem[mp].size;
      nextFree := false;
      if next < cap {
        assert m[next] == mem[next];
        nextFree := !mem[next].alloc;
      }
      SurroundsIs(pieces, cap, mp, prev, prevFree, next, nextFree);
    }

    /** Takes piece o out of the list, if it is free; gives its size. */
    method UnlistIf(isFree: bool, o: int, ghost out: set<int>) returns (size: int)
      requires State(NIL, out) && (isFree ==> o in pieces && !pieces[o].alloc && o !in out)
      modifies this`freeList, this`order, mem
      ensures State(NIL, out + if isFree then {o} else {})
      ensures size == if isFree then pieces[o].size else 0
      ensures OthersKept(old(mem[..]), mem[..], pieces, NIL)
    {
      if !isFree {
        assert out + {} == out;
        return 0;
      }
      ghost var k :| 0 <= k < |order| && order[k] == o;
      Unlist(o + 8, k, NIL, out);
      assert TagAt(mem[..], pieces, o) && mem[..][o] == mem[o];
      size := mem[o].size;
    }

    /** Takes the free neighbours of mp out of the list; gives the piece they and mp will make together. */
    method Detach(mp: int) returns (newFree: int, newSize: int, ghost out: set<int>)
      requires State(NIL, {}) && Coalesced(pieces) && mp in pieces && pieces[mp].alloc
      modifies this`freeList, this`order, mem
      ensures State(NIL, out) && OthersKept(old(mem[..]), mem[..], pieces, NIL)
      ensures FreeStretch(pieces, cap, mp, newFree, newFree + newSize, out)
    {
      hide *;
      ghost var m0, ps := mem[..], pieces;
      StateIsWF(NIL, {});
      var prev, prevFree, next, nextFree := Neighbours(mp);
      SurroundsStretch(ps, cap, mp, prev, prevFree, next, nextFree);
      ghost var out1 := {} + if prevFree then {prev} else {};
      var prevSize := UnlistIf(prevFree, prev, {});
      ghost var m1 := mem[..];
      var nextSize := UnlistIf(nextFree, next, out1);
      KeptOnAndOn(m0, m1, mem[..], ps, ps, NIL);
      newFree, newSize := if prevFree then prev else mp, next - mp + prevSize + nextSize;
      out := out1 + if nextFree then {next} else {};
    }

    /** The stretch of the given size at lo, none of it listed, becomes one free piece of the list. */
    method MakeFree(lo: int, size: int)
      requires 0 <= lo && MP_PADDING <= size && lo + size <= mem.Length == cap
      requires WF(Init(mem[..], lo, size, false), freeList, Merge(pieces, lo, lo + size), order, NIL, {lo})
      modifies this`freeList, this`order, this`pieces, mem
      ensures State(NIL, {}) && pieces == Merge(old(pieces), lo, lo + size)
      ensures OthersKept(Init(old(mem[..]), lo, size, false), mem[..], pieces, NIL)
    {
      hide *;
      MpInit(lo, size, false);
      pieces := Merge(pieces, lo, lo + size);
      MergedIsFree(old(pieces), lo, size);
      WFIsState(NIL, {lo});
      Relist(lo, lo);
    }

    /** mb_coalesce_unsafe: piece mp, just freed, becomes one free piece with its free neighbours. */
    method Coalesce(mp: int) returns (ghost lo: int, ghost hi: int)
      requires State(NIL, {}) && Coalesced(pieces) && mp in pieces && pieces[mp].alloc
      modifies this`freeList, this`order, this`pieces, mem
      ensures State(NIL, {}) && Coalesced(pieces) && pieces == Merge(old(pieces), lo, hi)
      ensures Freed(old(pieces), mp, lo, hi) && (hi == cap || hi in old(pieces))
      ensures OthersKept(old(mem[..]), mem[..], old(pieces), mp)
    {
      hide *;
      ghost var m0, ps, out := mem[..], pieces, {};
      var newFree, newSize;
      newFree, newSize, out := Detach(mp);
      lo, hi := newFree, newFree + newSize;
      ghost var m1 := mem[..];
      StateIsWF(NIL, out);
      MergeStretch(m1, freeList, ps, order, out, mp, lo, hi);
      KeptMore(m0, m1, ps, mp);
      ghost var m2 := Init(m1, lo, hi - lo, false);
      WFTiles(m2, freeList, Merge(ps, lo, hi), order, NIL, {lo});
      MakeFree(newFree, newSize);
      KeptMore(m2, mem[..], pieces, mp);
      KeptOnAndOn(m0, m1, m2, ps, ps, mp);
      KeptOnAndOn(m0, m2, mem[..], ps, pieces, mp);
    }

    /** The largest free piece leaves the list, and is taken. */
    method PopBiggest() returns (big: int, size: int)
      requires State(NIL, {}) && freeList != NIL
      modifies this`freeList, this`order, mem
      ensures State(NIL, {big}) && IsBiggest(pieces, big) && size == pieces[big].size
      ensures OthersKept(old(mem[..]), mem[..], pieces, NIL)
    {
      hide *;
      ghost var m := mem[..];
      StateIsWF(NIL, {});
      BiggestIsFirst(m, freeList, pieces, order);
      UnlinkWF(m, freeList, pieces, order, NIL, {}, 0);
      UnlinkFirst(m, freeList, pieces, order);
      var h := freeList;
      big := h - 8;
      assert m[big] == mem[big] && m[h + 8] == mem[h + 8];
      size := mem[big].size;
      var next := mem[h + 8].to;
      freeList := next;
      if next != NIL {
        StoreCell(next, 8, Link(NIL));
      }
      order := Without(order, 0);
      assert {} + {big} == {big};
      WFIsState(NIL, {big});
    }

    /** The memory side of mb_malloc_p once a free piece is known to be large enough. */
    method TakeBiggest(minSize: int) returns (big: int)
      requires State(NIL, {}) && Coalesced(pieces) && freeList != NIL
      requires MP_MIN_SIZE <= minSize && forall o :: IsBiggest(pieces, o) ==> minSize <= pieces[o].size
      modifies this`freeList, this`order, this`pieces, mem
      ensures IsBiggest(old(pieces), big) && pieces == Allotted(old(pieces), big, minSize, NULL_VADDR)
      ensures State(big, {}) && Coalesced(pieces) && Opened(mem[..], pieces, big)
      ensures OthersKept(old(mem[..]), mem[..], old(pieces), NIL)
    {
      hide *;
      ghost var m0, ps := mem[..], pieces;
      var size;
      big, size := PopBiggest();
      ghost var m1 := mem[..];
      StateIsWF(NIL, {big});
      CarvableBiggest(ps, cap, big, minSize);
      if size - minSize < MP_MIN_SIZE {
        Room(ps, cap, big);
        MpInit(big, size, true);
        TakeWholeWF(m1, mem[..], freeList, ps, order, big);
        TakeWholeCoalesced(ps, cap, big);
        pieces := TakeWhole(ps, big);
        WFIsState(big, {});
        KeptOnAndOn(m0, m1, mem[..], ps, ps, NIL);
      } else {
        CutBiggest(big, size, minSize);
        KeptOnAndOn(m0, m1, mem[..], ps, ps, NIL);
      }
      CarveIsTaken(ps, big, minSize);
    }

    method CutBiggest(big: int, size: int, minSize: int)
      requires State(NIL, {big}) && Cuttable(pieces, cap, big, minSize) && size == pieces[big].size && Coalesced(pieces)
      modifies this`freeList, this`order, this`pieces, mem
      ensures pieces == TakeSome(old(pieces), big, minSize)
      ensures State(big, {}) && Coalesced(pieces) && Opened(mem[..], pieces, big)
      ensures OthersKept(old(mem[..]), mem[..], old(pieces), NIL)
    {
      hide *;
      ghost var m1, ps := mem[..], pieces;
      StateIsWF(NIL, {big});
      TakeSomeRoom(ps, cap, big, minSize);
      MpInit(big + minSize, size - minSize, false);
      ghost var m2 := mem[..];
      TakeSomeWF(m1, m2, freeList, ps, order, big, minSize);
      TakeSomeCoalesced(ps, cap, big, minSize);
      pieces := TakeSome(ps, big, minSize);
      WFIsState(big, {big + minSize});
      StateIsWF(big, {big + minSize});
      Enlist(big + minSize, big, {big + minSize});
      assert {big + minSize} - {big + minSize} == {};
      ghost var m3 := mem[..];
      StateIsWF(big, {});
      MpInit(big, minSize, true);
      InitOpens(m3, pieces, big);
      SkippedWF(m3, mem[..], freeList, pieces, order, big);
      WFIsState(big, {});
      KeptOnAndOn(m1, m2, m3, ps, pieces, NIL);
      KeptButBig(m3, mem[..], pieces, big, ps);
      KeptOnAndOn(m1, m3, mem[..], ps, ps, NIL);
    }

    /** memmove towards the start, over ranges that may overlap. */
    method MemMove(dst: int, src: int, n: int)
      requires 0 <= dst <= src && 0 <= n && src + n <= mem.Length
      modifies mem
      ensures forall p :: dst <= p < dst + n ==> mem[p] == old(mem[p + (src - dst)])
      ensures forall p :: 0 <= p < mem.Length && (p < dst || dst + n <= p) ==> mem[p] == old(mem[p])
    {
      ghost var m := mem[..];
      for i := 0 to n
        invariant mem[dst..dst + i] == m[src..src + i]
        invariant forall p :: 0 <= p < mem.Length && (p < dst || dst + i <= p) ==> mem[p] == m[p]
      {
        var c := mem[src + i];
        assert c == m[src + i];
        mem[dst + i] := c;
        assert mem[dst..dst + i + 1] == mem[dst..dst + i] + [c];
        assert m[src..src + i + 1] == m[src..src + i] + [c];
      }
      forall p | dst <= p < dst + n ensures mem[p] == m[p + (src - dst)] {
        var k := p - dst;
        assert mem[p] == mem[dst..dst + n][k] && m[src..src + n][k] == m[src + k];
      }
    }

    /** adb_move_p and mp_init: the piece of the given size at n now lies at f. */
    method MoveDown(f: int, n: int, size: int, v: Vaddr)
      requires 0 <= f < n && MP_MIN_SIZE <= size && n + size <= mem.Length
      modifies mem
      ensures SameMemOutside(old(mem[..]), mem[..], f, f + size) && BodyMoved(old(mem[..]), mem[..], n, f, size)
      ensures mem[..][f] == mem[..][f + size - 8] == Tag(size, true) && mem[..][f + 8] == Va(v)
    {
      ghost var m := mem[..];
      MemMove(f + 24, n + 24, size - MAP_PADDING);
      ghost var m1 := mem[..];
      StoreCell(f + 8, 16, Va(v));
      MpInit(f, size, true);
      MovedAndTagged(m, m1, f, n, size, v);
    }

    /** The moved space, from g on, becomes one free piece with the free piece at t. */
    method JoinNext(g: int, t: int)
      requires State(g, {g}) && g in pieces && !pieces[g].alloc && g + pieces[g].size == t
      requires t in pieces && !pieces[t].alloc
      modifies this`freeList, this`order, this`pieces, mem
      ensures State(NIL, {}) && pieces == Merge(old(pieces), g, t + old(pieces)[t].size)
      ensures OthersKept(old(mem[..]), mem[..], old(pieces), NIL)
    {
      hide *;
      ghost var m0, ps := mem[..], pieces;
      StateIsWF(g, {g});
      JoinFacts(m0, freeList, ps, order, g, t);
      assert m0[t] == mem[t];
      var size := t - g + mem[t].size;
      ghost var hi := t + ps[t].size;
      assert size == hi - g;
      ghost var k :| 0 <= k < |order| && order[k] == t;
      Unlist(t + 8, k, g, {g});
      ghost var m1 := mem[..];
      StateIsWF(g, {g} + {t});
      Joined(m1, freeList, ps, order, g, t);
      ghost var m2 := Init(m1, g, size, false);
      MakeFree(g, size);
      KeptOnAndOn(m0, m1, m2, ps, ps, NIL);
      KeptOnAndOn(m0, m2, mem[..], ps, pieces, NIL);
    }

    /** The moved space, from g on, takes the place in the list that it had before. */
    method Splice(g: int, size: int, prev: int, next: int, ghost k: int)
      requires State(g, {g}) && g in pieces && !pieces[g].alloc && pieces[g].size == size && g != NIL
      requires 0 <= k <= |order|
      requires k > 0 ==> order[k-1] in pieces && pieces[order[k-1]].size >= size
      requires k < |order| ==> order[k] in pieces && size >= pieces[order[k]].size
      requires prev == if k > 0 then order[k-1] + 8 else NIL
      requires next == if k < |order| then order[k] + 8 else NIL
      modifies this`freeList, this`order, mem
      ensures State(NIL, {})
      ensures OthersKept(old(mem[..]), mem[..], pieces, NIL)
    {
      hide *;
      ghost var m0, ps, was := mem[..], pieces, order;
      StateIsWF(g, {g});
      FillWF(m0, freeList, ps, was, g);
      MpInit(g, size, false);
      ghost var m1 := mem[..];
      ListedTags(m1, freeList, ps, was, NIL, {g}, g);
      RelinkWF(m1, freeList, ps, was, NIL, {g}, k, g);
      WFIsListed(m1, freeList, ps, was, NIL, {g});
      SpliceLinks(g + 8, prev, next, was, k);
      order := With(was, k, g);
      assert {g} - {g} == {};
      WFIsState(NIL, {});
      KeptOnAndOn(m0, m1, mem[..], ps, ps, NIL);
    }

    method SpliceLinks(h: int, prev: int, next: int, ghost list: seq<int>, ghost k: int)
      requires Listed(mem[..], freeList, list) && 0 <= k <= |list|
      requires 8 <= h && h + MP_MIN_SIZE - 8 <= mem.Length
      requires forall i :: 0 <= i < |list| ==> Apart(list[i], h - 8)
      requires prev == if k > 0 then list[k-1] + 8 else NIL
      requires next == if k < |list| then list[k] + 8 else NIL
      modifies this`freeList, mem
      ensures mem[..] == Relink(old(mem[..]), list, k, h - 8)
      ensures freeList == if k == 0 then h else old(freeList)
    {
      hide Relink, With, Listed;
      ghost var m := mem[..];
      ListedBounds(m, freeList, list);
      StoreBothLinks(h, prev, next);
      if prev != NIL {
        StoreCell(prev + 8, 8, Link(h));
      } else {
        freeList := h;
        assert mem[..] == Store(Store(m, h + 8, 8, Link(next)), h, 8, Link(prev));
      }
      if next != NIL {
        StoreCell(next, 8, Link(h));
      }
      SpliceIsRelink(m, list, k, h - 8);
    }

    /** mb_try_shift after it has found the free piece f, the k-th of the list. */
    method Slide(f: int, ghost k: int)
      requires State(NIL, {}) && Coalesced(pieces) && Slidable(pieces, cap, f) && 0 <= k < |order| && order[k] == f
      modifies this`freeList, this`order, this`pieces, mem
      ensures State(NIL, {}) && Coalesced(pieces) && pieces == Shifted(old(pieces), f)
      ensures Moved(old(mem[..]), mem[..], old(pieces), f)
    {
      hide *;
      ghost var m0, ps := mem[..], pieces;
      StateIsWF(NIL, {});
      ShiftedCoalesced(ps, cap, f);
      SlideReads(m0, freeList, ps, order, f, k);
      assert m0[f] == mem[f] && m0[f + 8] == mem[f + 8] && m0[f + 16] == mem[f + 16];
      var fSize := mem[f].size;
      var n := f + fSize;
      assert m0[n] == mem[n] && m0[n + 8] == mem[n + 8];
      var nSize, v := mem[n].size, mem[n + 8].v;
      var t, g := n + nSize, f + nSize;
      var prev, next := mem[f + 8].to, mem[f + 16].to;
      SlidFits(m0, freeList, ps, order, f, k);
      Unlist(f + 8, k, NIL, {});
      assert {} + {f} == {f};
      ghost var m1 := mem[..];
      StateIsWF(NIL, {f});
      MoveDown(f, n, nSize, v);
      ghost var m2 := mem[..];
      SlidTag(m2, ps, f, v);
      SlideWF(m1, m2, freeList, ps, order, f);
      pieces := Slid(ps, f);
      WFIsState(g, {g});
      StateIsWF(g, {g});
      var joins := t < cap;
      if t < cap {
        SlidTags(m2, freeList, ps, order, f);
        assert m2[t] == mem[t];
        joins := !mem[t].alloc;
      }
      SlidJoins(ps, cap, f);
      if joins {
        JoinNext(g, t);
      } else {
        Splice(g, fSize, prev, next, k);
      }
      SlideKept(m0, m1, m2, mem[..], ps, f);
    }

    // -------------------------------------------------------------------------- the operations of the block

    /**
     mb_malloc_p. The request succeeds exactly when some free piece is large enough for it. Then the result is an
     address that was not in use, with a body of its own; what the others stand for has not changed.
     */
    method MallocP(minBytes: int, hold: bool) returns (v: Vaddr, paddr: Option<int>, ghost big: int)
      requires Valid() && 0 <= minBytes < TWO_64
      modifies this`freeList, this`order, this`pieces, mem, adb
      ensures Valid()
      ensures v != NULL_VADDR <==> minBytes > 0 && Fits(old(pieces), PadNumBytes(minBytes))
      ensures v == NULL_VADDR ==>
                && paddr == None && pieces == old(pieces) && View() == old(View())
                && adb.cells == old(adb.cells) && adb.held == old(adb.held)
                && unchanged(this) && unchanged(mem) && unchanged(adb)
      ensures v != NULL_VADDR ==>
                && v !in old(adb.cells) && IsBiggest(old(pieces), big)
                && big in old(pieces) && pieces == Allotted(old(pieces), big, PadNumBytes(minBytes), v)
                && paddr == (if hold then Some(big + 24) else None)
                && adb.cells == old(adb.cells)[v := Paddr(id, big + 24)]
                && adb.held == (if hold then old(adb.held) + {v} else old(adb.held))
                && v in View() && View() == old(View())[v := View()[v]]
                && PadNumBytes(minBytes) - MAP_PADDING <= |View()[v]|
    {
      hide *;
      v, paddr, big := NULL_VADDR, None, 0;
      if minBytes == 0 {
        return;
      }
      var minSize := PadNumBytes(minBytes);
      ValidIsSound();
      SoundIsWF();
      FirstDecides(mem[..], freeList, pieces, order, minSize);
      if freeList == NIL {
        return;
      }
      assert mem[..][freeList - 8] == mem[freeList - 8];
      if mem[freeList - 8].size < minSize {
        return;
      }
      v, paddr, big := MallocFrom(minSize, hold);
    }

    method MallocFrom(minSize: int, hold: bool) returns (v: Vaddr, paddr: Option<int>, ghost gbig: int)
      requires Valid() && freeList != NIL && MP_MIN_SIZE <= minSize && minSize % 2 == 0
      requires forall o :: IsBiggest(pieces, o) ==> minSize <= pieces[o].size
      modifies this`freeList, this`order, this`pieces, mem, adb
      ensures Valid() && v != NULL_VADDR
      ensures v !in old(adb.cells) && IsBiggest(old(pieces), gbig)
      ensures gbig in old(pieces) && pieces == Allotted(old(pieces), gbig, minSize, v)
      ensures paddr == (if hold then Some(gbig + 24) else None)
      ensures adb.cells == old(adb.cells)[v := Paddr(id, gbig + 24)]
      ensures adb.held == (if hold then old(adb.held) + {v} else old(adb.held))
      ensures v in View() && View() == old(View())[v := View()[v]]
      ensures minSize - MAP_PADDING <= |View()[v]|
    {
      hide *;
      ghost var m0, ps, cells := mem[..], pieces, adb.cells;
      ValidIsSound();
      SoundIsWF();
      var big := TakeBiggest(minSize);
      gbig := big;
      ghost var m1, qs := mem[..], pieces;
      StateIsWF(big, {});
      OpenedRoom(m1, qs, big);
      v := adb.PutP(Paddr(id, big + 24), hold);
      StoreCell(big + 8, 16, Va(v));
      SealWF(m1, mem[..], freeList, qs, order, big, v);
      pieces := qs[big := Piece(qs[big].size, true, v)];
      WFIsState(NIL, {});
      StateIsWF(NIL, {});
      CarvedPieces(ps, qs, pieces, cap, big, minSize, v);
      KeptButBig(m1, mem[..], qs, big, ps);
      KeptOnAndOn(m0, m1, mem[..], ps, ps, NIL);
      MallocAgrees(m0, mem[..], ps, pieces, id, cells, big, v);
      MallocBody(mem[..], pieces, id, adb.cells, big, v, minSize);
      SoundAgain();
      ValidAgain();
      ViewIsBodies();
      paddr := if hold then Some(big + 24) else None;
    }

    twostate lemma ViewIsBodies()
      ensures View() == Bodies(mem[..], pieces, id, adb.cells)
      ensures old(View()) == Bodies(old(mem[..]), old(pieces), id, old(adb.cells))
    {
    }

    /** mb_free: the address of a piece of this block, that nobody has locked, is gone, its bytes can be used again. */
    method Free(v: Vaddr)
      requires Valid() && v in adb.cells && adb.cells[v].mb == id && v !in adb.held
      modifies this`freeList, this`order, this`pieces, mem, adb
      ensures Valid()
      ensures adb.cells == old(adb.cells) - {v} && adb.held == old(adb.held)
      ensures View() == old(View()) - {v} && FreedInto(old(pieces), pieces, old(adb.cells)[v].off - 24)
    {
      hide *;
      ghost var m0, ps, cells := mem[..], pieces, adb.cells;
      ValidIsSound();
      SoundIsWF();
      CellLeadsToPiece(ps, id, cells, v);
      var paddr := adb.Get(v);
      adb.Unlock(v);
      adb.FreeV(v);
      ghost var lo, hi := Coalesce(paddr.off - 24);
      FreedPieces(ps, pieces, cap, paddr.off - 24, lo, hi);
      FreedIntoOne(ps, pieces, paddr.off - 24, lo, hi);
      FreeAgrees(m0, mem[..], ps, pieces, id, cells, paddr.off - 24);
      SoundAgain();
      ValidAgain();
      ViewIsBodies();
    }

    /** mb_free_space: what the largest free piece has room for. */
    method FreeSpace() returns (space: int)
      requires Sound()
      ensures space == 0 <==> !Fits(pieces, 0)
      ensures forall n :: 1 <= n < TWO_64 ==>
                ((n <= space <==> Fits(pieces, PadNumBytes(n))) <==> (n <= MAX_REQUEST || space == 0))
    {
      space := 0;
      SoundIsWF();
      if freeList != NIL {
        BiggestIsFirst(mem[..], freeList, pieces, order);
        assert TagAt(mem[..], pieces, order[0]) && mem[..][order[0]] == mem[order[0]];
        space := mem[freeList - 8].size - MAP_PADDING;
      }
      SpaceIsExact(mem[..], freeList, pieces, order, space);
    }

    /** mb_count: the number of allocated pieces, found by walking over all pieces. */
    method Count() returns (count: nat)
      requires Sound()
      ensures count == |AllocatedIn(pieces)|
    {
      hide *;
      var iter := 0;
      count := 0;
      SoundIsWF();
      CountStart(pieces, cap);
      CountIsAllocated(pieces, cap);
      while iter < cap
        invariant 0 <= iter <= cap && (iter == cap || iter in pieces)
        invariant count == |AllocatedBelow(pieces, iter)|
        decreases cap - iter
      {
        CountStep(mem[..], freeList, pieces, order, iter);
        assert mem[..][iter] == mem[iter];
        if mem[iter].alloc {
          count := count + 1;
        }
        iter := iter + mem[iter].size;
      }
    }

    /** A value of n bytes is written into the body that v stands for, at physical address at. */
    method StoreBody(ghost v: Vaddr, at: int, i: nat, n: nat, c: Cell)
      requires Valid() && v in View() && v in adb.cells && at == adb.cells[v].off && 0 < n && i + n <= |View()[v]|
      modifies mem
      ensures Valid() && View() == old(View())[v := Store(old(View())[v], i, n, c)]
    {
      hide *;
      ghost var m := mem[..];
      ValidIsSound();
      SoundIsWF();
      ViewIsBodies();
      InView(m, pieces, id, adb.cells, v);
      BodyIsInside(m, freeList, pieces, order, id, adb.cells, v);
      StoreCell(at + i, n, c);
      BodyWritten(m, mem[..], freeList, pieces, order, id, adb.cells, v, i, n, c);
      WFIsState(NIL, {});
      SoundAgain();
      ValidAgain();
      ViewIsBodies();
    }

    /** One byte of the body that v stands for, at physical address at. */
    method ReadBody(ghost v: Vaddr, at: int, i: nat) returns (c: Cell)
      requires Sound() && Agree(pieces, id, adb.cells)
      requires v in View() && v in adb.cells && at == adb.cells[v].off && i < |View()[v]|
      ensures c == View()[v][i]
    {
      hide *;
      SoundIsWF();
      ViewIsBodies();
      InView(mem[..], pieces, id, adb.cells, v);
      BodyIsInside(mem[..], freeList, pieces, order, id, adb.cells, v);
      ByteOfBody(mem[..], pieces, at - 24, i);
      assert mem[..][at + i] == mem[at + i];
      c := mem[at + i];
    }

    /** The whole body that v stands for, at physical address at. */
    method WholeBody(ghost v: Vaddr, at: int) returns (body: seq<Cell>)
      requires Sound() && Agree(pieces, id, adb.cells)
      requires v in View() && v in adb.cells && at == adb.cells[v].off
      ensures body == View()[v]
    {
      hide *;
      SoundIsWF();
      ViewIsBodies();
      InView(mem[..], pieces, id, adb.cells, v);
      BodyIsInside(mem[..], freeList, pieces, order, id, adb.cells, v);
      BodyBytes(mem[..], freeList, pieces, order, at - 24);
      assert mem[..][at - 24] == mem[at - 24];
      var end := at - 24 + mem[at - 24].size - 8;
      body := mem[at..end];
      assert body == mem[..][at..end];
    }

    /** The loop of mb_try_shift: the first free piece of the list whose successor can be locked. */
    method FindShiftable() returns (h: int, v: Vaddr, ghost k: int)
      requires Valid()
      modifies adb`book, adb`cells, adb`held
      ensures adb.Valid() && adb.cells == old(adb.cells)
      ensures h == NIL ==> Blocked(pieces, adb.held) && adb.held == old(adb.held)
      ensures h != NIL ==>
                && 0 <= k < |order| && h == order[k] + 8 && Slidable(pieces, cap, order[k])
                && v == pieces[order[k] + pieces[order[k]].size].v && v in adb.cells
                && v !in old(adb.held) && adb.held == old(adb.held) + {v}
                && (forall j :: 0 <= j < k ==> BlockedAt(pieces, old(adb.held), order[j]))
    {
      hide *;
      ghost var m := mem[..];
      ValidIsSound();
      SoundIsWF();
      h, v, k := freeList, NULL_VADDR, 0;
      HeadLink(m, freeList, pieces, order);
      while h != NIL
        invariant 0 <= k <= |order| && h == LinkOf(order, k)
        invariant adb.Valid() && adb.cells == old(adb.cells) && adb.held == old(adb.held)
        invariant forall j :: 0 <= j < k ==> BlockedAt(pieces, adb.held, order[j])
        decreases |order| - k
      {
        ListStep(m, freeList, pieces, order, id, adb.cells, k);
        var o := h - 8;
        assert m[o] == mem[o] && m[h + 8] == mem[h + 8];
        var next := o + mem[o].size;
        if next < cap {
          assert m[next] == mem[next] && m[next + 8] == mem[next + 8];
          if mem[next].alloc {
            v := mem[next + 8].v;
            var locked := adb.TryGetWrite(v);
            if locked.Some? {
              return;
            }
            HeldAlready(adb.held, old(adb.held), v);
          }
        }
        BlockedHere(pieces, adb.held, cap, o);
        h, k := mem[h + 8].to, k + 1;
      }
      AllBlocked(m, freeList, pieces, order, adb.held, k);
    }

    /**
     mb_try_shift. It has nothing to do exactly when the free space is at the end; it is busy exactly when every piece
     that could move is locked. Otherwise one piece moves down by the size of the free piece before it; no address
     stands for anything else than before.
     */
    method TryShift() returns (res: ShiftRes, ghost f: int)
      requires Valid()
      modifies this`freeList, this`order, this`pieces, mem, adb`book, adb`cells, adb`held
      ensures Valid() && View() == old(View()) && adb.held == old(adb.held)
      ensures res == NotNeeded <==> Packed(old(pieces), cap)
      ensures res == Busy <==> !Packed(old(pieces), cap) && Blocked(old(pieces), adb.held)
      ensures res != ShiftSuccess ==> pieces == old(pieces) && adb.cells == old(adb.cells)
      ensures res == ShiftSuccess ==>
                && ShiftStep(old(pieces), pieces, old(adb.cells), adb.cells, adb.held, id, cap, f)
                && FirstToMove(old(pieces), old(order), adb.held, f)
    {
      hide *;
      f := NIL;
      ghost var m0, ps, cells, held := mem[..], pieces, adb.cells, adb.held;
      ValidIsSound();
      SoundIsWF();
      PackedShows(m0, freeList, ps, order);
      if freeList == NIL {
        return NotNeeded, f;
      }
      assert m0[freeList - 8] == mem[freeList - 8] && m0[freeList + 8] == mem[freeList + 8];
      if mem[freeList + 8].to == NIL && freeList - 8 + mem[freeList - 8].size >= cap {
        return NotNeeded, f;
      }
      ghost var k;
      var h, v;
      h, v, k := FindShiftable();
      if h == NIL {
        ValidAgain();
        ViewIsBodies();
        return Busy, f;
      }
      NotBlocked(ps, cap, held, order[k]);
      IsFirstToMove(ps, order, held, k);
      ViewIsBodies();
      f := ShiftInto(h - 8, v, k);
      HeldAgain(held, v);
      return ShiftSuccess, f;
    }

    method ShiftInto(free: int, v: Vaddr, ghost k: int) returns (ghost f: int)
      requires Sound() && adb.Valid() && Agree(pieces, id, adb.cells)
      requires 0 <= k < |order| && free == order[k] && Slidable(pieces, cap, free)
      requires v == pieces[free + pieces[free].size].v && v in adb.cells && v in adb.held
      modifies this`freeList, this`order, this`pieces, mem, adb`book, adb`cells, adb`held
      ensures f == free && Valid() && View() == old(View()) && adb.held == old(adb.held) - {v}
      ensures ShiftStep(old(pieces), pieces, old(adb.cells), adb.cells, adb.held, id, cap, f)
    {
      hide *;
      f := free;
      ghost var m0, ps, cells := mem[..], pieces, adb.cells;
      SoundIsWF();
      adb.MoveP(v, Paddr(id, free + 24));
      adb.Unlock(v);
      Slide(free, k);
      ShiftedPieces(m0, mem[..], ps, cap, free);
      MoveAgrees(m0, mem[..], ps, pieces, id, cells, free, free + ps[free].size);
      MoveKeepsBodies(m0, mem[..], ps, pieces, id, cells, free, free + ps[free].size);
      StepIsShift(ps, cells, adb.cells, adb.held, id, cap, free);
      SoundAgain();
      ValidAgain();
      ViewIsBodies();
    }

    /**
     mb_try_full_shift: it ends; then the free space is at the end, or every piece that could move is locked. The pieces
     keep their order, and none has moved up.
     */
    method TryFullShift()
      requires Valid()
      modifies this`freeList, this`order, this`pieces, mem, adb`book, adb`cells, adb`held
      ensures Valid() && View() == old(View()) && adb.held == old(adb.held)
      ensures Packed(pieces, cap) || Blocked(pieces, adb.held)
      ensures (forall v :: v in adb.held ==> v !in View()) ==> Packed(pieces, cap)
      ensures Compacted(id, old(adb.cells), adb.cells)
    {
      hide *;
      var res := ShiftSuccess;
      ghost var f;
      CompactedItself(id, adb.cells);
      while res == ShiftSuccess
        invariant Valid() && View() == old(View()) && adb.held == old(adb.held)
        invariant res != ShiftSuccess ==> Packed(pieces, cap) || Blocked(pieces, adb.held)
        invariant Compacted(id, old(adb.cells), adb.cells)
        decreases OffsetSum(pieces), res == ShiftSuccess
      {
        ghost var ps, cells := pieces, adb.cells;
        ValidIsSound();
        SoundIsWF();
        res, f := TryShift();
        if res == ShiftSuccess {
          ShiftLowers(ps, pieces, cells, adb.cells, adb.held, id, cap, f);
          ShiftKeepsOrder(ps, pieces, cells, adb.cells, adb.held, id, cap, f);
          CompactedOn(id, old(adb.cells), cells, adb.cells);
        }
      }
      ValidIsSound();
      SoundIsWF();
      UnlockedIsPacked(mem[..], pieces, cap, id, adb.cells, adb.held);
      ViewIsBodies();
    }
  }

  /** A request that the space does not decide: its padding wraps around, so that the smallest piece is taken for it. */
  method WrappedRequestIsGranted() returns (space: int, v: Vaddr)
    ensures space == 2 && v != NULL_VADDR
  {
    hide PadNumBytes, Fits;
    var adb := new AddrBook<Paddr>(1);
    SmallestPads();
    var mb := new MemBlock(0, adb, 1);
    NewBlockIsValid(mb);
    SmallestFits(mb.pieces);
    space := mb.FreeSpace();
    var paddr;
    ghost var big;
    v, paddr, big := mb.MallocP(MAX_REQUEST + 1, false);
  }

  lemma NewBlockIsValid(mb: MemBlock)
    requires mb.State(NIL, {}) && mb.pieces == map[0 := FreePiece(mb.cap)] && mb.cap % 2 == 0
    requires mb.adb.Valid() && forall v :: v in mb.adb.cells ==> mb.adb.cells[v].mb != mb.id
    ensures mb.Valid()
  {
  }

  lemma SmallestPads()
    ensures PadNumBytes(1) == PadNumBytes(2) == PadNumBytes(MAX_REQUEST + 1) == 34 && PadNumBytes(3) == 36
  {
    PadFitsUnlessItWraps(MAX_REQUEST + 1);
  }

  lemma SmallestFits(ps: Pieces)
    requires ps == map[0 := FreePiece(34)]
    ensures Fits(ps, 34) && !Fits(ps, 36)
  {
    assert ps[0].size == 34;
  }
}
