/** What a memory block must look like between and during its operations, and how each small step keeps it. */
module BlockState {
  import opened Common
  import opened BlockLayout

  /** order lists the free pieces of ps, apart from those in out, by decreasing size. */
  ghost predicate ListsFree(ps: Pieces, order: seq<int>, out: set<int>) {
    && (forall k :: 0 <= k < |order| ==> order[k] in ps && !ps[order[k]].alloc && order[k] !in out)
    && (forall o :: o in ps && !ps[o].alloc && o !in out ==> o in order)
    && (forall j, k :: 0 <= j < k < |order| ==> ps[order[j]].size >= ps[order[k]].size)
  }

  /**
   The block in memory m is tiled by ps, with its free pieces listed from head. The tags of piece skip may be
   unwritten, and the free pieces in out are not in the list.
   */
  ghost predicate WF(m: Mem, head: int, ps: Pieces, order: seq<int>, skip: int, out: set<int>) {
    && Tiling(ps, |m|)
    && Tagged(m, ps, skip)
    && Listed(m, head, order)
    && ListsFree(ps, order, out)
    && (forall k :: 0 <= k < |order| ==> order[k] != skip)
  }

  ghost predicate Kept(m: Mem, m': Mem, ps: Pieces, o: int)
    requires o in ps && 0 <= o && o + ps[o].size <= |m| == |m'|
  {
    forall p :: o <= p < o + ps[o].size ==> m'[p] == m[p]
  }

  /** The allocated pieces of ps other than x are as they were. */
  ghost predicate OthersKept(m: Mem, m': Mem, ps: Pieces, x: int) {
    |m'| == |m| && forall o :: o in ps && ps[o].alloc && o != x ==> 0 <= o && o + ps[o].size <= |m| && Kept(m, m', ps, o)
  }

  ghost predicate AllFree(ps: Pieces, order: seq<int>) {
    forall k :: 0 <= k < |order| ==> order[k] in ps && !ps[order[k]].alloc
  }

  lemma LinksKeepTag(m: Mem, m': Mem, ps: Pieces, order: seq<int>, o: int)
    requires Tiling(ps, |m|) && OnlyLinks(m, m', order) && AllFree(ps, order)
    requires o in ps && TagAt(m, ps, o)
    ensures TagAt(m', ps, o)
  {
    forall p | o <= p < o + ps[o].size && (p < o + 8 || o + 24 <= p || ps[o].alloc) ensures !InLinks(order, p) {
      forall k | 0 <= k < |order| ensures !(order[k] + 8 <= p < order[k] + 24) {
        assert order[k] in ps;
      }
    }
  }

  lemma LinksKeepPiece(m: Mem, m': Mem, ps: Pieces, order: seq<int>, o: int)
    requires Tiling(ps, |m|) && OnlyLinks(m, m', order) && AllFree(ps, order)
    requires o in ps && ps[o].alloc
    ensures Kept(m, m', ps, o)
  {
    forall p | o <= p < o + ps[o].size ensures !InLinks(order, p) {
      forall k | 0 <= k < |order| ensures !(order[k] + 8 <= p < order[k] + 24) {
        assert order[k] in ps && order[k] != o;
      }
    }
  }

  lemma LinksKeepAll(m: Mem, m': Mem, ps: Pieces, order: seq<int>, skip: int)
    requires Tiling(ps, |m|) && Tagged(m, ps, skip) && OnlyLinks(m, m', order) && AllFree(ps, order)
    ensures Tagged(m', ps, skip) && OthersKept(m, m', ps, NIL)
  {
    forall o | o in ps && o != skip ensures TagAt(m', ps, o) {
      LinksKeepTag(m, m', ps, order, o);
    }
    forall o | o in ps && ps[o].alloc ensures Kept(m, m', ps, o) {
      LinksKeepPiece(m, m', ps, order, o);
    }
  }

  /** Taking the k-th free piece out of the list. */
  lemma UnlinkWF(m: Mem, head: int, ps: Pieces, order: seq<int>, skip: int, out: set<int>, k: int)
    requires WF(m, head, ps, order, skip, out) && 0 <= k < |order|
    ensures var head' := if k == 0 then NextLink(order, 0) else head;
            WF(Unlink(m, order, k), head', ps, Without(order, k), skip, out + {order[k]})
    ensures OthersKept(m, Unlink(m, order, k), ps, NIL)
  {
    UnlinkListed(m, head, order, k);
    LinksKeepAll(m, Unlink(m, order, k), ps, order, skip);
    UnlinkListsFree(ps, order, out, k, m, head);
  }

  lemma UnlinkListsFree(ps: Pieces, order: seq<int>, out: set<int>, k: int, m: Mem, head: int)
    requires ListsFree(ps, order, out) && 0 <= k < |order| && Listed(m, head, order)
    ensures ListsFree(ps, Without(order, k), out + {order[k]})
  {
    WithoutRest(order, k);
    forall j | 0 <= j < |order| && j != k ensures order[j] != order[k] {
      ApartFromOthers(m, head, order, j, k);
    }
  }

  /** Putting free piece x into the list, where its size belongs. */
  lemma RelinkWF(m: Mem, head: int, ps: Pieces, order: seq<int>, skip: int, out: set<int>, k: int, x: int)
    requires WF(m, head, ps, order, skip, out) && 0 <= k <= |order|
    requires x in out && x in ps && !ps[x].alloc && x != skip
    requires k > 0 ==> ps[order[k-1]].size >= ps[x].size
    requires k < |order| ==> ps[x].size >= ps[order[k]].size
    ensures 0 <= x && x + MP_MIN_SIZE <= |m|
    ensures WF(Relink(m, order, k, x), if k == 0 then x + 8 else head, ps, With(order, k, x), skip, out - {x})
    ensures OthersKept(m, Relink(m, order, k, x), ps, NIL)
  {
    hide Listed, Tagged, ListsFree, Relink, Tiling, OnlyLinks;
    RelinkRoom(m, head, ps, order, skip, out, x);
    RelinkListed(m, head, order, k, x);
    RelinkListsFree(ps, order, out, k, x);
    LinksKeepAll(m, Relink(m, order, k, x), ps, With(order, k, x), skip);
  }

  lemma RelinkRoom(m: Mem, head: int, ps: Pieces, order: seq<int>, skip: int, out: set<int>, x: int)
    requires WF(m, head, ps, order, skip, out) && x in out && x in ps
    ensures 0 <= x && x + MP_MIN_SIZE <= |m|
    ensures forall i :: 0 <= i < |order| ==> 0 <= order[i] && order[i] + MP_MIN_SIZE <= |m| && Apart(order[i], x)
  {
    forall i | 0 <= i < |order| ensures Apart(order[i], x) {
      assert order[i] in ps && order[i] != x;
    }
  }

  lemma RelinkListsFree(ps: Pieces, order: seq<int>, out: set<int>, k: int, x: int)
    requires ListsFree(ps, order, out) && 0 <= k <= |order|
    requires x in out && x in ps && !ps[x].alloc
    requires k > 0 ==> ps[order[k-1]].size >= ps[x].size
    requires k < |order| ==> ps[x].size >= ps[order[k]].size
    ensures ListsFree(ps, With(order, k, x), out - {x}) && AllFree(ps, With(order, k, x))
  {
    hide With;
    WithRest(order, k, x);
    WithSorted(ps, order, k, x);
    var w := With(order, k, x);
    forall i | 0 <= i < |w| ensures w[i] in ps && !ps[w[i]].alloc && w[i] !in out - {x} {
      assert w[i] == x || w[i] in order;
    }
  }

  /** Putting x between pieces no smaller and no larger keeps the order by size. */
  lemma WithSorted(ps: Pieces, order: seq<int>, k: int, x: int)
    requires 0 <= k <= |order| && x in ps && forall i :: 0 <= i < |order| ==> order[i] in ps
    requires forall i, j :: 0 <= i < j < |order| ==> ps[order[i]].size >= ps[order[j]].size
    requires k > 0 ==> ps[order[k-1]].size >= ps[x].size
    requires k < |order| ==> ps[x].size >= ps[order[k]].size
    ensures var w := With(order, k, x);
            && (forall i :: 0 <= i < |w| ==> w[i] in ps)
            && (forall i, j :: 0 <= i < j < |w| ==> ps[w[i]].size >= ps[w[j]].size)
  {
    var w := With(order, k, x);
    forall i | 0 <= i < |w| ensures w[i] in ps {
      assert w[i] == if i < k then order[i] else if i == k then x else order[i-1];
    }
    forall i, j | 0 <= i < j < |w| ensures ps[w[i]].size >= ps[w[j]].size {
      WithPair(ps, order, k, x, i, j);
    }
  }

  lemma WithPair(ps: Pieces, order: seq<int>, k: int, x: int, i: int, j: int)
    requires 0 <= k <= |order| && x in ps && forall l :: 0 <= l < |order| ==> order[l] in ps
    requires forall h, l :: 0 <= h < l < |order| ==> ps[order[h]].size >= ps[order[l]].size
    requires k > 0 ==> ps[order[k-1]].size >= ps[x].size
    requires k < |order| ==> ps[x].size >= ps[order[k]].size
    requires 0 <= i < j <= |order|
    ensures With(order, k, x)[i] in ps && With(order, k, x)[j] in ps
    ensures ps[With(order, k, x)[i]].size >= ps[With(order, k, x)[j]].size
  {
    if j == k {
      assert i < k - 1 ==> ps[order[i]].size >= ps[order[k-1]].size;
    } else if i == k {
      assert k < j - 1 ==> ps[order[k]].size >= ps[order[j-1]].size;
    }
  }

  /** Nothing but lo..hi has changed. */
  ghost predicate SameMemOutside(m: Mem, m': Mem, lo: int, hi: int) {
    |m'| == |m| && forall p :: 0 <= p < |m| && (p < lo || hi <= p) ==> m'[p] == m[p]
  }

  /** Exchanging the pieces from lo to hi, none of them listed, for others. */
  lemma ReplaceWF(m: Mem, m': Mem, head: int, ps: Pieces, ps': Pieces, order: seq<int>, skip: int, skip': int,
                  out: set<int>, out': set<int>, lo: int, hi: int)
    requires WF(m, head, ps, order, skip, out)
    requires lo < hi && lo in ps && (hi == |m| || hi in ps)
    requires Retiled(ps, ps', lo, hi) && SameMemOutside(m, m', lo, hi)
    requires forall k :: 0 <= k < |order| ==> order[k] < lo || hi <= order[k]
    requires skip' == skip || lo <= skip' < hi || skip' == NIL
    requires skip' != skip && skip in ps ==> lo <= skip < hi
    requires forall o :: o in ps' && lo <= o < hi && o != skip' ==>
               0 <= o && MP_MIN_SIZE <= ps'[o].size && o + ps'[o].size <= |m| && TagAt(m', ps', o)
    requires forall o :: o in ps' && lo <= o < hi && !ps'[o].alloc ==> o in out'
    requires forall o :: o < lo || hi <= o ==> (o in out <==> o in out')
    ensures WF(m', head, ps', order, skip', out')
    ensures forall o :: o in ps && ps[o].alloc && (o < lo || hi <= o) ==> Kept(m, m', ps, o)
  {
    RetiledTiles(ps, ps', |m|, lo, hi);
    ReplaceTagged(m, m', ps, ps', skip, skip', lo, hi);
    ReplaceListed(m, m', head, ps, order, lo, hi);
    ReplaceListsFree(ps, ps', order, out, out', lo, hi);
    forall o | o in ps && (o < lo || hi <= o) ensures o < lo ==> o + ps[o].size <= lo {
    }
  }

  lemma ReplaceTagged(m: Mem, m': Mem, ps: Pieces, ps': Pieces, skip: int, skip': int, lo: int, hi: int)
    requires Tiling(ps, |m|) && Tiling(ps', |m|) && Tagged(m, ps, skip) && SameMemOutside(m, m', lo, hi)
    requires lo in ps && SameOutside(ps, ps', lo, hi)
    requires skip' == skip || lo <= skip' < hi || skip' == NIL
    requires skip' != skip && skip in ps ==> lo <= skip < hi
    requires forall o :: o in ps' && lo <= o < hi && o != skip' ==> TagAt(m', ps', o)
    ensures Tagged(m', ps', skip')
  {
    forall o | o in ps' && o != skip' ensures TagAt(m', ps', o) {
      if o < lo || hi <= o {
        assert o in ps && o != skip && TagAt(m, ps, o);
        assert o < lo ==> o + ps[o].size <= lo;
      }
    }
  }

  lemma ReplaceListsFree(ps: Pieces, ps': Pieces, order: seq<int>, out: set<int>, out': set<int>, lo: int, hi: int)
    requires ListsFree(ps, order, out) && SameOutside(ps, ps', lo, hi)
    requires forall k :: 0 <= k < |order| ==> order[k] < lo || hi <= order[k]
    requires forall o :: o in ps' && lo <= o < hi && !ps'[o].alloc ==> o in out'
    requires forall o :: o < lo || hi <= o ==> (o in out <==> o in out')
    ensures ListsFree(ps', order, out')
  {
  }

  lemma ReplaceListed(m: Mem, m': Mem, head: int, ps: Pieces, order: seq<int>, lo: int, hi: int)
    requires Tiling(ps, |m|) && Listed(m, head, order) && AllFree(ps, order) && SameMemOutside(m, m', lo, hi)
    requires lo in ps && (hi == |m| || hi in ps)
    requires forall k :: 0 <= k < |order| ==> order[k] < lo || hi <= order[k]
    ensures Listed(m', head, order)
  {
    forall k | 0 <= k < |order| ensures LinksAt(m', order, k) {
      assert LinksAt(m, order, k) && order[k] in ps;
      assert order[k] < lo ==> order[k] + ps[order[k]].size <= lo;
    }
  }

  // ---------------------------------------------------------------------------- merging

  /** ps with the pieces from lo to hi made one free piece. */
  ghost function Merge(ps: Pieces, lo: int, hi: int): (r: Pieces)
    ensures lo in r && r[lo] == FreePiece(hi - lo)
    ensures forall o :: o != lo ==> (o in r <==> o in ps && (o < lo || hi <= o)) && (o in r ==> r[o] == ps[o])
  {
    (map o | o in ps && (o < lo || hi <= o) :: ps[o])[lo := FreePiece(hi - lo)]
  }

  lemma MergeRetiled(ps: Pieces, cap: int, lo: int, hi: int)
    requires Tiling(ps, cap) && lo in ps && lo + MP_MIN_SIZE <= hi
    ensures Retiled(ps, Merge(ps, lo, hi), lo, hi)
  {
    assert InnerOk(Merge(ps, lo, hi), lo, hi, lo);
  }

  lemma MergeCoalesced(ps: Pieces, cap: int, lo: int, hi: int)
    requires Tiling(ps, cap) && Coalesced(ps) && lo in ps && lo < hi
    requires forall o :: o in ps && o + ps[o].size == lo ==> ps[o].alloc
    requires hi in ps ==> ps[hi].alloc
    ensures Coalesced(Merge(ps, lo, hi))
  {
    var r := Merge(ps, lo, hi);
    forall o | o in r ensures SplitOk(r, o) {
      if o != lo && !r[o].alloc {
        assert o in ps && SplitOk(ps, o);
        assert o + ps[o].size != lo;
      }
    }
  }

  /** What mp_init does to the piece it writes, and to everything else. */
  lemma InitTags(m: Mem, ps: Pieces, lo: int, size: int)
    requires 0 <= lo && MP_MIN_SIZE <= size && lo + size <= |m| && lo in ps && ps[lo].size == size && !ps[lo].alloc
    ensures TagAt(Init(m, lo, size, false), ps, lo)
    ensures SameMemOutside(m, Init(m, lo, size, false), lo, lo + size)
  {
  }

  lemma WFTiles(m: Mem, head: int, ps: Pieces, order: seq<int>, skip: int, out: set<int>)
    requires WF(m, head, ps, order, skip, out)
    ensures Tiling(ps, |m|)
  {
  }

  /** Writing the tags of the merged piece. */
  lemma MergeWF(m: Mem, head: int, ps: Pieces, order: seq<int>, skip: int, out: set<int>, lo: int, hi: int)
    requires WF(m, head, ps, order, skip, out) && (skip == NIL || lo <= skip < hi)
    requires lo in ps && lo + MP_MIN_SIZE <= hi && (hi == |m| || hi in ps)
    requires forall k :: 0 <= k < |order| ==> order[k] < lo || hi <= order[k]
    requires forall o :: o in out ==> lo <= o < hi
    ensures 0 <= lo && hi <= |m|
    ensures WF(Init(m, lo, hi - lo, false), head, Merge(ps, lo, hi), order, NIL, {lo})
    ensures forall o :: o in ps && ps[o].alloc && (o < lo || hi <= o) ==> Kept(m, Init(m, lo, hi - lo, false), ps, o)
  {
    hide WF, Listed, ListsFree, Tagged, Retiled, SameMemOutside, TagAt;
    WFTiles(m, head, ps, order, skip, out);
    assert 0 <= lo && hi <= |m| && NIL !in ps;
    var m', ps' := Init(m, lo, hi - lo, false), Merge(ps, lo, hi);
    MergeRetiled(ps, |m|, lo, hi);
    InitTags(m, ps', lo, hi - lo);
    ReplaceWF(m, m', head, ps, ps', order, skip, NIL, out, {lo}, lo, hi);
  }

  lemma KeptOnAndOn(m0: Mem, m1: Mem, m2: Mem, ps: Pieces, ps': Pieces, x: int)
    requires OthersKept(m0, m1, ps, x) && OthersKept(m1, m2, ps', x)
    requires forall o :: o in ps && ps[o].alloc && o != x ==> o in ps' && ps'[o] == ps[o]
    ensures OthersKept(m0, m2, ps, x)
  {
    forall o | o in ps && ps[o].alloc && o != x ensures Kept(m0, m2, ps, o) {
      assert Kept(m0, m1, ps, o) && Kept(m1, m2, ps', o);
    }
  }

  // ---------------------------------------------------------------------------- carving

  /** ps with the free piece big allocated as a whole. */
  ghost function TakeWhole(ps: Pieces, big: int): Pieces
    requires big in ps
  {
    ps[big := Piece(ps[big].size, true, NULL_VADDR)]
  }

  /** ps with the free piece big split into an allocated one of size min and a free one. */
  ghost function TakeSome(ps: Pieces, big: int, min: int): Pieces
    requires big in ps
  {
    ps[big := Piece(min, true, NULL_VADDR)][big + min := FreePiece(ps[big].size - min)]
  }

  /**
   ps after an allocation of size min for address v from the free piece big: all of big, or its first min bytes when the
   rest is large enough for a piece.
   */
  ghost function Allotted(ps: Pieces, big: int, min: int, v: Vaddr): Pieces
    requires big in ps
  {
    var rest := ps[big].size - min;
    if rest < MP_MIN_SIZE then ps[big := Piece(ps[big].size, true, v)]
    else ps[big := Piece(min, true, v)][big + min := FreePiece(rest)]
  }

  ghost predicate Carvable(ps: Pieces, cap: int, big: int, min: int) {
    && Tiling(ps, cap) && big in ps && !ps[big].alloc && MP_MIN_SIZE <= min <= ps[big].size
  }

  ghost predicate Cuttable(ps: Pieces, cap: int, big: int, min: int) {
    Carvable(ps, cap, big, min) && ps[big].size - min >= MP_MIN_SIZE
  }

  lemma TakeWholeRetiled(ps: Pieces, cap: int, big: int)
    requires Tiling(ps, cap) && big in ps
    ensures Retiled(ps, TakeWhole(ps, big), big, big + ps[big].size)
    ensures big + ps[big].size == cap || big + ps[big].size in ps
    ensures forall o :: o in ps && big <= o < big + ps[big].size ==> o == big
  {
    assert NextOk(ps, cap, big);
    assert InnerOk(TakeWhole(ps, big), big, big + ps[big].size, big);
  }

  lemma TakeSomeRetiled(ps: Pieces, cap: int, big: int, min: int)
    requires Cuttable(ps, cap, big, min)
    ensures Retiled(ps, TakeSome(ps, big, min), big, big + ps[big].size)
    ensures big + ps[big].size == cap || big + ps[big].size in ps
    ensures forall o :: o in TakeSome(ps, big, min) && big <= o < big + ps[big].size ==> o == big || o == big + min
  {
    var r, hi := TakeSome(ps, big, min), big + ps[big].size;
    assert NextOk(ps, cap, big);
    NothingInside(ps, cap, big);
    assert InnerOk(r, big, hi, big) && InnerOk(r, big, hi, big + min);
  }

  lemma NothingInside(ps: Pieces, cap: int, big: int)
    requires Tiling(ps, cap) && big in ps
    ensures forall o :: o in ps && big <= o < big + ps[big].size ==> o == big
  {
  }

  lemma TakeWholeCoalesced(ps: Pieces, cap: int, big: int)
    requires Tiling(ps, cap) && big in ps && Coalesced(ps)
    ensures Coalesced(TakeWhole(ps, big))
  {
    forall o | o in ps ensures SplitOk(TakeWhole(ps, big), o) {
      assert SplitOk(ps, o);
    }
  }

  lemma TakeSomeCoalesced(ps: Pieces, cap: int, big: int, min: int)
    requires Cuttable(ps, cap, big, min) && Coalesced(ps)
    ensures Coalesced(TakeSome(ps, big, min))
  {
    var r, hi := TakeSome(ps, big, min), big + ps[big].size;
    assert SplitOk(ps, big);
    forall o | o in r ensures SplitOk(r, o) {
      if o < big || hi <= o {
        assert o in ps && SplitOk(ps, o);
        if o < big {
          assert o + ps[o].size <= big;
        }
      } else if o in ps {
        assert o == big;
      }
    }
  }

  ghost predicate InitOf(m: Mem, m': Mem, p: int, size: int, alloc: bool) {
    0 <= p && MP_PADDING <= size && p + size <= |m| && m' == Init(m, p, size, alloc)
  }

  /** The block is WF but for the address of its new piece big, whose tags are written. */
  ghost predicate Opened(m: Mem, ps: Pieces, big: int) {
    && big in ps && ps[big].alloc && 0 <= big && MP_MIN_SIZE <= ps[big].size && big + ps[big].size <= |m|
    && m[big] == Tag(ps[big].size, true) && m[big + ps[big].size - 8] == Tag(ps[big].size, true)
  }

  lemma OthersKeptFrom(m: Mem, m': Mem, ps: Pieces, lo: int, hi: int, x: int)
    requires Tiling(ps, |m|) && |m'| == |m|
    requires forall o :: o in ps && ps[o].alloc && (o < lo || hi <= o) ==> Kept(m, m', ps, o)
    requires forall o :: o in ps && lo <= o < hi && ps[o].alloc ==> o == x
    ensures OthersKept(m, m', ps, x)
  {
  }

  lemma TakeWholeWF(m: Mem, m': Mem, head: int, ps: Pieces, order: seq<int>, big: int)
    requires WF(m, head, ps, order, NIL, {big}) && big in ps && !ps[big].alloc
    requires InitOf(m, m', big, ps[big].size, true)
    ensures WF(m', head, TakeWhole(ps, big), order, big, {}) && Opened(m', TakeWhole(ps, big), big)
    ensures OthersKept(m, m', ps, NIL)
  {
    hide WF, Listed, ListsFree, Tagged, Retiled, SameMemOutside, TagAt, Tiling, Opened;
    WFBigRange(m, head, ps, order, big);
    TakeWholeRetiled(ps, |m|, big);
    InitOpens(m, TakeWhole(ps, big), big);
    ReplaceWF(m, m', head, ps, TakeWhole(ps, big), order, NIL, big, {big}, {}, big, big + ps[big].size);
    OthersKeptFrom(m, m', ps, big, big + ps[big].size, NIL);
  }

  lemma InitOpens(m: Mem, ps: Pieces, big: int)
    requires big in ps && ps[big].alloc && 0 <= big && MP_MIN_SIZE <= ps[big].size && big + ps[big].size <= |m|
    ensures Opened(Init(m, big, ps[big].size, true), ps, big)
    ensures SameMemOutside(m, Init(m, big, ps[big].size, true), big, big + ps[big].size)
  {
  }

  lemma TakeSomeWF(m: Mem, m': Mem, head: int, ps: Pieces, order: seq<int>, big: int, min: int)
    requires WF(m, head, ps, order, NIL, {big}) && Cuttable(ps, |m|, big, min)
    requires InitOf(m, m', big + min, ps[big].size - min, false)
    ensures WF(m', head, TakeSome(ps, big, min), order, big, {big + min})
    ensures OthersKept(m, m', ps, NIL)
  {
    hide WF, Listed, ListsFree, Tagged, Retiled, SameMemOutside, TagAt, Tiling;
    var ps', cut, hi := TakeSome(ps, big, min), big + min, big + ps[big].size;
    WFBigRange(m, head, ps, order, big);
    TakeSomeRetiled(ps, |m|, big, min);
    InitTags(m, ps', cut, ps[big].size - min);
    SameFurther(m, m', cut, hi, big);
    ReplaceWF(m, m', head, ps, ps', order, NIL, big, {big}, {cut}, big, hi);
    OthersKeptFrom(m, m', ps, big, hi, NIL);
  }

  lemma SameFurther(m: Mem, m': Mem, lo: int, hi: int, lo': int)
    requires SameMemOutside(m, m', lo, hi) && lo' <= lo
    ensures SameMemOutside(m, m', lo', hi)
  {
  }

  lemma WFBigRange(m: Mem, head: int, ps: Pieces, order: seq<int>, big: int)
    requires WF(m, head, ps, order, NIL, {big}) && big in ps
    ensures Tiling(ps, |m|)
    ensures 0 <= big && MP_MIN_SIZE <= ps[big].size && big + ps[big].size <= |m| && NIL !in ps
    ensures forall k :: 0 <= k < |order| ==> order[k] < big || big + ps[big].size <= order[k]
    ensures forall o :: o in ps && big <= o < big + ps[big].size ==> o == big
  {
  }

  /** Writing inside piece big, whose tags may be unwritten. */
  lemma SkippedWF(m: Mem, m': Mem, head: int, ps: Pieces, order: seq<int>, big: int)
    requires WF(m, head, ps, order, big, {}) && big in ps && ps[big].alloc
    requires SameMemOutside(m, m', big, big + ps[big].size)
    ensures WF(m', head, ps, order, big, {}) && OthersKept(m, m', ps, big)
  {
    assert NextOk(ps, |m|, big);
    assert InnerOk(ps, big, big + ps[big].size, big);
    ReplaceWF(m, m', head, ps, ps, order, big, big, {}, {}, big, big + ps[big].size);
    OthersKeptFrom(m, m', ps, big, big + ps[big].size, big);
  }

  lemma SealFacts(m: Mem, m': Mem, head: int, ps: Pieces, order: seq<int>, big: int, v: Vaddr)
    requires WF(m, head, ps, order, big, {}) && Opened(m, ps, big)
    requires m' == Store(m, big + 8, 16, Va(v))
    ensures Tiling(ps, |m|) && NIL !in ps && (big + ps[big].size == |m| || big + ps[big].size in ps)
    ensures var ps', hi := ps[big := Piece(ps[big].size, true, v)], big + ps[big].size;
            && Retiled(ps, ps', big, hi) && SameMemOutside(m, m', big, hi) && TagAt(m', ps', big)
    ensures forall k :: 0 <= k < |order| ==> order[k] < big || big + ps[big].size <= order[k]
    ensures forall o :: o in ps && big <= o < big + ps[big].size ==> o == big
  {
    assert NextOk(ps, |m|, big);
    assert InnerOk(ps[big := Piece(ps[big].size, true, v)], big, big + ps[big].size, big);
  }

  /** Writing the address of an opened piece. */
  lemma SealWF(m: Mem, m': Mem, head: int, ps: Pieces, order: seq<int>, big: int, v: Vaddr)
    requires WF(m, head, ps, order, big, {}) && Opened(m, ps, big)
    requires m' == Store(m, big + 8, 16, Va(v))
    ensures WF(m', head, ps[big := Piece(ps[big].size, true, v)], order, NIL, {})
    ensures OthersKept(m, m', ps, big)
  {
    hide WF, Listed, ListsFree, Tagged, Retiled, SameMemOutside, TagAt, Tiling;
    var ps' := ps[big := Piece(ps[big].size, true, v)];
    var hi := big + ps[big].size;
    SealFacts(m, m', head, ps, order, big, v);
    ReplaceWF(m, m', head, ps, ps', order, big, NIL, {}, {}, big, hi);
    OthersKeptFrom(m, m', ps, big, hi, big);
  }

  // ---------------------------------------------------------------------------- sliding

  /** f is a free piece with an allocated piece behind it. */
  ghost predicate Slidable(ps: Pieces, cap: int, f: int) {
    && Tiling(ps, cap) && f in ps && !ps[f].alloc
    && f + ps[f].size in ps && ps[f + ps[f].size].alloc
  }

  /** ps with the allocated piece behind f moved to f, and the free space now behind it. */
  ghost function Slid(ps: Pieces, f: int): Pieces
    requires f in ps && f + ps[f].size in ps
  {
    var n := f + ps[f].size;
    (ps - {n})[f := ps[n]][f + ps[n].size := FreePiece(ps[f].size)]
  }

  /** What a shift makes of ps: the free space also joins a free piece behind it. */
  ghost function Shifted(ps: Pieces, f: int): Pieces
    requires f in ps && f + ps[f].size in ps
  {
    var n := f + ps[f].size;
    var t := n + ps[n].size;
    if t in ps && !ps[t].alloc then Merge(Slid(ps, f), f + ps[n].size, t + ps[t].size) else Slid(ps, f)
  }

  lemma SlideSizes(ps: Pieces, cap: int, f: int)
    requires Slidable(ps, cap, f)
    ensures var n := f + ps[f].size; var t := n + ps[n].size;
            && f in ps && n in ps && 0 <= f && MP_MIN_SIZE <= ps[f].size && MP_MIN_SIZE <= ps[n].size && t <= cap
            && !ps[f].alloc && ps[n].alloc && (t == cap || t in ps) && NIL !in ps
    ensures forall o :: o in ps && f <= o < f + ps[f].size + ps[f + ps[f].size].size ==> o == f || o == f + ps[f].size
    ensures forall o :: o in ps ==> MP_MIN_SIZE <= ps[o].size && (o < f ==> o + ps[o].size <= f)
  {
    var n := f + ps[f].size;
    assert NextOk(ps, cap, n);
    NothingInside(ps, cap, f);
    NothingInside(ps, cap, n);
  }

  lemma SlidRetiled(ps: Pieces, cap: int, f: int)
    requires Slidable(ps, cap, f)
    ensures var n := f + ps[f].size; var t := n + ps[n].size;
            && Retiled(ps, Slid(ps, f), f, t) && (t == cap || t in ps)
    ensures forall o :: o in Slid(ps, f) && f <= o < f + ps[f].size + ps[f + ps[f].size].size ==>
              o == f || o == f + ps[f + ps[f].size].size
  {
    hide Tiling;
    SlideSizes(ps, cap, f);
    var n, r := f + ps[f].size, Slid(ps, f);
    var t, g := n + ps[n].size, f + ps[n].size;
    assert InnerOk(r, f, t, f) && InnerOk(r, f, t, g);
  }

  lemma SlidCoalesced(ps: Pieces, cap: int, f: int)
    requires Slidable(ps, cap, f) && Coalesced(ps)
    requires var t := f + ps[f].size + ps[f + ps[f].size].size; t in ps ==> ps[t].alloc
    ensures Coalesced(Slid(ps, f))
  {
    hide Tiling;
    SlideSizes(ps, cap, f);
    var n, r := f + ps[f].size, Slid(ps, f);
    var t := n + ps[n].size;
    forall o | o in r ensures SplitOk(r, o) {
      if o < f || t <= o {
        assert o in ps && SplitOk(ps, o) && r[o] == ps[o];
        var e := o + ps[o].size;
        if e < f || t <= e {
          assert e in r <==> e in ps;
        } else {
          assert e == f;
        }
      } else {
        assert o == f || o + r[o].size == t;
      }
    }
  }

  /** The bytes between header and footer of the piece at n are now in the piece at f. */
  ghost predicate BodyMoved(m: Mem, m': Mem, n: int, f: int, size: int) {
    && |m'| == |m| && 0 <= n && 0 <= f && n + size <= |m| && f + size <= |m|
    && forall p :: f + 24 <= p < f + size - 8 ==> m'[p] == m[p + (n - f)]
  }

  /** The allocated piece behind f has moved to f, and no other allocated piece has changed. */
  ghost predicate Moved(m: Mem, m': Mem, ps: Pieces, f: int) {
    && f in ps && f + ps[f].size in ps
    && OthersKept(m, m', ps, f + ps[f].size)
    && BodyMoved(m, m', f + ps[f].size, f, ps[f + ps[f].size].size)
  }

  /** The moved piece has its tags and its address. */
  lemma SlideWF(m: Mem, m': Mem, head: int, ps: Pieces, order: seq<int>, f: int)
    requires WF(m, head, ps, order, NIL, {f}) && Slidable(ps, |m|, f)
    requires |m'| == |m| && var n := f + ps[f].size; SameMemOutside(m, m', f, f + ps[n].size)
    requires TagAt(m', Slid(ps, f), f)
    ensures var g := f + ps[f + ps[f].size].size; WF(m', head, Slid(ps, f), order, g, {g})
    ensures OthersKept(m, m', ps, f + ps[f].size)
  {
    hide WF, Listed, ListsFree, Tagged, Retiled, SameMemOutside, TagAt, Tiling;
    SlideFacts(m, m', head, ps, order, f);
    var n := f + ps[f].size;
    var t, g := n + ps[n].size, f + ps[n].size;
    SlidRetiled(ps, |m|, f);
    ReplaceWF(m, m', head, ps, Slid(ps, f), order, NIL, g, {f}, {g}, f, t);
    OthersKeptFrom(m, m', ps, f, t, n);
  }

  lemma SlideFacts(m: Mem, m': Mem, head: int, ps: Pieces, order: seq<int>, f: int)
    requires WF(m, head, ps, order, NIL, {f}) && Slidable(ps, |m|, f)
    requires SameMemOutside(m, m', f, f + ps[f + ps[f].size].size)
    ensures var n := f + ps[f].size; var t := n + ps[n].size;
            && Tiling(ps, |m|) && NIL !in ps && 0 <= f < t && f in ps && n in ps && f < n
            && MP_MIN_SIZE <= ps[f].size && MP_MIN_SIZE <= ps[n].size && t <= |m|
            && SameMemOutside(m, m', f, t) && !ps[f].alloc && ps[n].alloc
            && (forall k :: 0 <= k < |order| ==> order[k] < f || t <= order[k])
            && (forall o :: o in ps && f <= o < t ==> o == f || o == n)
  {
    var n := f + ps[f].size;
    NothingInside(ps, |m|, f);
    NothingInside(ps, |m|, n);
    forall k | 0 <= k < |order| ensures order[k] < f || n + ps[n].size <= order[k] {
      assert order[k] in ps && order[k] != f && order[k] != n;
    }
  }

  /** A free piece that is not listed, and where its tags go. */
  lemma FillRoom(m: Mem, head: int, ps: Pieces, order: seq<int>, g: int)
    requires WF(m, head, ps, order, g, {g}) && g in ps && !ps[g].alloc
    ensures var hi := g + ps[g].size;
            && 0 <= g && MP_MIN_SIZE <= ps[g].size && hi <= |m| && (hi == |m| || hi in ps) && Tiling(ps, |m|)
            && Retiled(ps, ps, g, hi)
            && (forall o :: o in ps && g <= o < hi ==> o == g)
            && (forall k :: 0 <= k < |order| ==> order[k] < g || hi <= order[k])
  {
    var hi := g + ps[g].size;
    NothingInside(ps, |m|, g);
    assert NextOk(ps, |m|, g) && InnerOk(ps, g, hi, g);
    forall k | 0 <= k < |order| ensures order[k] < g || hi <= order[k] {
      assert order[k] in ps;
    }
  }

  /** Writing the tags of free piece g, which were not written. */
  lemma FillWF(m: Mem, head: int, ps: Pieces, order: seq<int>, g: int)
    requires WF(m, head, ps, order, g, {g}) && g in ps && !ps[g].alloc
    ensures 0 <= g && MP_PADDING <= ps[g].size && g + ps[g].size <= |m|
    ensures WF(Init(m, g, ps[g].size, false), head, ps, order, NIL, {g})
    ensures OthersKept(m, Init(m, g, ps[g].size, false), ps, NIL)
  {
    hide WF, Tiling, Retiled, SameMemOutside, TagAt, Init, Kept;
    var hi := g + ps[g].size;
    FillRoom(m, head, ps, order, g);
    InitTags(m, ps, g, ps[g].size);
    ReplaceWF(m, Init(m, g, ps[g].size, false), head, ps, ps, order, g, NIL, {g}, {g}, g, hi);
    OthersKeptFrom(m, Init(m, g, ps[g].size, false), ps, g, hi, NIL);
  }

  lemma ShiftedCoalesced(ps: Pieces, cap: int, f: int)
    requires Slidable(ps, cap, f) && Coalesced(ps)
    ensures Coalesced(Shifted(ps, f))
  {
    hide Tiling, Merge;
    SlideSizes(ps, cap, f);
    var n := f + ps[f].size;
    var t, g := n + ps[n].size, f + ps[n].size;
    if t in ps && !ps[t].alloc {
      var r, e := Shifted(ps, f), t + ps[t].size;
      assert SplitOk(ps, t);
      forall o | o in r ensures SplitOk(r, o) {
        if o != g && !r[o].alloc {
          assert o in ps && r[o] == ps[o] && SplitOk(ps, o);
          assert o < f ==> o + ps[o].size <= f;
        }
      }
    } else {
      SlidCoalesced(ps, cap, f);
    }
  }

  /** What the list looks like to the space that a shift has moved from f to g. */
  lemma SlidFits(m: Mem, head: int, ps: Pieces, order: seq<int>, f: int, k: int)
    requires WF(m, head, ps, order, NIL, {}) && Slidable(ps, |m|, f) && 0 <= k < |order| && order[k] == f
    ensures var rest, g, r := Without(order, k), f + ps[f + ps[f].size].size, Slid(ps, f);
            && (k > 0 ==> rest[k-1] in r && r[rest[k-1]].size >= r[g].size)
            && (k < |rest| ==> rest[k] in r && r[g].size >= r[rest[k]].size)
            && PrevLink(order, k) == (if k > 0 then rest[k-1] + 8 else NIL)
            && NextLink(order, k) == (if k < |rest| then rest[k] + 8 else NIL)
  {
    hide Without, Slid, Slidable;
    SlideSizes(ps, |m|, f);
    if k > 0 {
      SlidKeepsFree(ps, |m|, f, order[k-1]);
      assert ps[order[k-1]].size >= ps[order[k]].size;
      ApartFromOthers(m, head, order, k - 1, k);
    }
    if k + 1 < |order| {
      SlidKeepsFree(ps, |m|, f, order[k+1]);
      assert ps[order[k]].size >= ps[order[k+1]].size;
      ApartFromOthers(m, head, order, k + 1, k);
    }
    SlidSpace(ps, f);
  }

  lemma SlidSpace(ps: Pieces, f: int)
    requires f in ps && f + ps[f].size in ps
    ensures var g := f + ps[f + ps[f].size].size; g in Slid(ps, f) && Slid(ps, f)[g] == FreePiece(ps[f].size)
  {
  }

  lemma SlidKeepsFree(ps: Pieces, cap: int, f: int, o: int)
    requires Slidable(ps, cap, f) && o in ps && !ps[o].alloc
    ensures o != f ==> o in Slid(ps, f) && Slid(ps, f)[o] == ps[o]
  {
    SlideSizes(ps, cap, f);
  }
}
