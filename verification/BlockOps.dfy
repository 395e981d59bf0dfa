/** What the operations of a memory block do to its pieces: allocation, freeing, compaction, counting. */
module BlockOps {
  import opened Common
  import opened BlockLayout
  import opened BlockState
  import opened BlockView

  lemma BodyBytes(m: Mem, head: int, ps: Pieces, order: seq<int>, o: int)
    requires WF(m, head, ps, order, NIL, {}) && o in ps
    ensures 0 <= o && 34 <= ps[o].size && o + ps[o].size <= |m| && m[o] == Tag(ps[o].size, ps[o].alloc)
    ensures BodyAt(m, ps, o) == m[o + 24..o + ps[o].size - 8]
  {
    assert TagAt(m, ps, o);
  }

  lemma ByteOfBody(m: Mem, ps: Pieces, o: int, i: nat)
    requires o in ps && 0 <= o && MP_MIN_SIZE <= ps[o].size && o + ps[o].size <= |m|
    ensures |BodyAt(m, ps, o)| > 0
    ensures i < |BodyAt(m, ps, o)| ==> o + 24 + i < |m| && BodyAt(m, ps, o)[i] == m[o + 24 + i]
  {
  }

  lemma InView(m: Mem, ps: Pieces, id: nat, cells: Cells, v: Vaddr)
    ensures v in Bodies(m, ps, id, cells) <==> v in cells && cells[v].mb == id
    ensures v in Bodies(m, ps, id, cells) ==> Bodies(m, ps, id, cells)[v] == BodyAt(m, ps, cells[v].off - 24)
  {
  }

  datatype ShiftRes = ShiftSuccess | Busy | NotNeeded

  /** big is a largest free piece. */
  ghost predicate IsBiggest(ps: Pieces, big: int) {
    big in ps && !ps[big].alloc && forall o :: o in ps && !ps[o].alloc ==> ps[o].size <= ps[big].size
  }

  lemma BiggestIsFirst(m: Mem, head: int, ps: Pieces, order: seq<int>)
    requires WF(m, head, ps, order, NIL, {}) && head != NIL
    ensures order != [] && head == order[0] + 8 && IsBiggest(ps, order[0])
  {
    forall o | o in ps && !ps[o].alloc ensures ps[o].size <= ps[order[0]].size {
      var k :| 0 <= k < |order| && order[k] == o;
      assert k > 0 ==> ps[order[0]].size >= ps[order[k]].size;
    }
  }

  lemma UnlinkFirst(m: Mem, head: int, ps: Pieces, order: seq<int>)
    requires WF(m, head, ps, order, NIL, {}) && order != []
    ensures var big, next := order[0], NextLink(order, 0);
            && 0 <= big && big + 24 <= |m| && m[big] == Tag(ps[big].size, false) && m[big + 16] == Link(next)
            && (next != NIL ==> 0 <= next && next + 8 <= |m| && Unlink(m, order, 0) == Store(m, next, 8, Link(NIL)))
            && (next == NIL ==> Unlink(m, order, 0) == m)
  {
    assert LinksAt(m, order, 0) && TagAt(m, ps, order[0]);
  }

  // ---------------------------------------------------------------------------- about the pieces around a piece

  ghost predicate Surrounds(ps: Pieces, cap: int, mp: int, prev: int, prevFree: bool, next: int, nextFree: bool)
    requires mp in ps
  {
    && (prevFree <==> prev in ps && prev + ps[prev].size == mp && !ps[prev].alloc)
    && (!prevFree ==> forall o :: o in ps && o + ps[o].size == mp ==> ps[o].alloc)
    && next == mp + ps[mp].size && (next == cap || next in ps)
    && (nextFree <==> next in ps && !ps[next].alloc)
  }

  /** The stretch from lo to hi holds mp and the free pieces out around it, and borders on no free piece. */
  ghost predicate FreeStretch(ps: Pieces, cap: int, mp: int, lo: int, hi: int, out: set<int>) {
    && lo in ps && lo <= mp && lo + MP_MIN_SIZE <= hi <= cap && mp < hi && (hi == cap || hi in ps)
    && (forall o :: o in ps && lo <= o < hi && o != mp ==> !ps[o].alloc && o in out)
    && (forall o :: o in out ==> o in ps && lo <= o < hi && o != mp)
    && (forall o :: o in ps && o + ps[o].size == lo ==> ps[o].alloc)
    && (hi in ps ==> ps[hi].alloc)
  }

  /** Only free pieces were merged with mp. */
  ghost predicate Freed(ps: Pieces, mp: int, lo: int, hi: int) {
    lo in ps && lo <= mp < hi && forall o :: o in ps && lo <= o < hi && o != mp ==> !ps[o].alloc
  }

  /** Freeing piece mp makes one piece of it and the free pieces next to it. */
  ghost predicate FreedInto(ps: Pieces, ps': Pieces, mp: int) {
    exists lo, hi :: Freed(ps, mp, lo, hi) && ps' == Merge(ps, lo, hi)
  }

  lemma FreedIntoOne(ps: Pieces, ps': Pieces, mp: int, lo: int, hi: int)
    requires Freed(ps, mp, lo, hi) && ps' == Merge(ps, lo, hi)
    ensures FreedInto(ps, ps', mp)
  {
  }

  /** The footer before mp leads to the piece before it. */
  lemma FooterBefore(m: Mem, head: int, ps: Pieces, order: seq<int>, mp: int) returns (q: int)
    requires WF(m, head, ps, order, NIL, {}) && mp in ps && mp > 0
    ensures q in ps && q + ps[q].size == mp && 0 <= q < |m| && 0 <= mp - 8 < |m|
    ensures m[mp - 8] == Tag(ps[q].size, ps[q].alloc) == m[q]
  {
    q := PieceBefore(ps, |m|, mp, 0);
    assert TagAt(m, ps, q);
  }

  /** The header of mp leads to the piece behind it. */
  lemma HeaderBehind(m: Mem, head: int, ps: Pieces, order: seq<int>, mp: int)
    requires WF(m, head, ps, order, NIL, {}) && mp in ps
    ensures 0 <= mp < |m| && m[mp] == Tag(ps[mp].size, ps[mp].alloc)
    ensures var next := mp + ps[mp].size;
            0 <= next && (next != |m| ==> next < |m| && next in ps && m[next] == Tag(ps[next].size, ps[next].alloc))
  {
    assert TagAt(m, ps, mp) && NextOk(ps, |m|, mp);
    var next := mp + ps[mp].size;
    assert next in ps ==> TagAt(m, ps, next);
  }

  lemma SurroundsIs(ps: Pieces, cap: int, mp: int, prev: int, prevFree: bool, next: int, nextFree: bool)
    requires Tiling(ps, cap) && mp in ps && next == mp + ps[mp].size && (next < cap ==> next in ps)
    requires nextFree == (next < cap && next in ps && !ps[next].alloc) && next <= cap
    requires mp > 0 ==> prev in ps && prev + ps[prev].size == mp && prevFree == !ps[prev].alloc
    requires mp <= 0 ==> prev == NIL && !prevFree
    ensures Surrounds(ps, cap, mp, prev, prevFree, next, nextFree)
  {
    assert next in ps ==> NextOk(ps, cap, next);
  }

  lemma SurroundsStretch(ps: Pieces, cap: int, mp: int, prev: int, prevFree: bool, next: int, nextFree: bool)
    requires Tiling(ps, cap) && Coalesced(ps) && mp in ps && ps[mp].alloc
    requires Surrounds(ps, cap, mp, prev, prevFree, next, nextFree)
    ensures prevFree ==> prev in ps && !ps[prev].alloc && ps[prev].size == mp - prev
    ensures nextFree ==> next in ps && !ps[next].alloc && (prevFree ==> prev != next)
    ensures var out := ({} + if prevFree then {prev} else {}) + if nextFree then {next} else {};
            FreeStretch(ps, cap, mp, if prevFree then prev else mp, if nextFree then next + ps[next].size else next, out)
  {
    var lo, hi := if prevFree then prev else mp, if nextFree then next + ps[next].size else next;
    if nextFree {
      assert NextOk(ps, cap, next) && SplitOk(ps, next);
    }
    forall o | o in ps && o + ps[o].size == lo ensures ps[o].alloc {
      assert SplitOk(ps, o);
    }
    forall o | o in ps && lo <= o < hi && o != mp
      ensures (prevFree && o == prev) || (nextFree && o == next)
    {
      StretchHolds(ps, cap, mp, lo, next, o);
    }
  }

  /** Between adjacent pieces there is no other. */
  lemma StretchHolds(ps: Pieces, cap: int, mp: int, lo: int, next: int, o: int)
    requires Tiling(ps, cap) && mp in ps && lo in ps && o in ps && next == mp + ps[mp].size
    requires lo == mp || lo + ps[lo].size == mp
    requires lo <= o && o != mp && (next in ps ==> o < next + ps[next].size) && (next !in ps ==> o < next)
    ensures o == lo || o == next
  {
  }

  lemma KeptMore(m: Mem, m': Mem, ps: Pieces, x: int)
    requires OthersKept(m, m', ps, NIL) && Tiling(ps, |m|)
    ensures OthersKept(m, m', ps, x)
  {
  }

  /** Merging a stretch that has been taken out of the list. */
  lemma MergeStretch(m: Mem, head: int, ps: Pieces, order: seq<int>, out: set<int>, mp: int, lo: int, hi: int)
    requires WF(m, head, ps, order, NIL, out) && Coalesced(ps) && FreeStretch(ps, |m|, mp, lo, hi, out)
    requires mp in ps && ps[mp].alloc
    ensures 0 <= lo && MP_PADDING <= hi - lo && hi <= |m| && Freed(ps, mp, lo, hi) && (hi == |m| || hi in ps)
    ensures var m', ps' := Init(m, lo, hi - lo, false), Merge(ps, lo, hi);
            && lo in ps' && !ps'[lo].alloc && lo != NIL
            && WF(m', head, ps', order, NIL, {lo}) && Coalesced(ps') && OthersKept(m, m', ps, mp)
            && (forall o :: o in ps && ps[o].alloc && o != mp ==> o in ps' && ps'[o] == ps[o])
  {
    MergeWF(m, head, ps, order, NIL, out, lo, hi);
    MergeCoalesced(ps, |m|, lo, hi);
  }

  /** The tags that walking the list reads, and the room that its pieces leave for piece x. */
  lemma WFIsListed(m: Mem, head: int, ps: Pieces, order: seq<int>, skip: int, out: set<int>)
    requires WF(m, head, ps, order, skip, out)
    ensures Listed(m, head, order) && forall k :: 0 <= k < |order| ==> 0 <= order[k] && order[k] + MP_MIN_SIZE <= |m|
  {
  }

  lemma ListedTags(m: Mem, head: int, ps: Pieces, order: seq<int>, skip: int, out: set<int>, x: int)
    requires WF(m, head, ps, order, skip, out) && x in out && x in ps && x != skip
    ensures 0 <= x < |m| && x + MP_MIN_SIZE <= |m| && m[x] == Tag(ps[x].size, ps[x].alloc)
    ensures forall i :: 0 <= i < |order| ==> 0 <= order[i] < |m|
    ensures forall i :: 0 <= i < |order| ==> m[order[i]] == Tag(ps[order[i]].size, false) && Apart(order[i], x)
  {
    assert TagAt(m, ps, x);
    forall i | 0 <= i < |order| ensures m[order[i]] == Tag(ps[order[i]].size, false) && Apart(order[i], x) {
      assert TagAt(m, ps, order[i]);
    }
  }

  lemma CarvableBiggest(ps: Pieces, cap: int, big: int, min: int)
    requires Tiling(ps, cap) && IsBiggest(ps, big) && MP_MIN_SIZE <= min
    requires forall o :: IsBiggest(ps, o) ==> min <= ps[o].size
    ensures Carvable(ps, cap, big, min) && !ps[big].alloc
    ensures ps[big].size - min >= MP_MIN_SIZE ==> Cuttable(ps, cap, big, min)
  {
  }

  lemma Room(ps: Pieces, cap: int, o: int)
    requires Tiling(ps, cap) && o in ps
    ensures 0 <= o && MP_PADDING <= ps[o].size && o + ps[o].size <= cap
    ensures forall m, m' :: |m| == cap && m' == Init(m, o, ps[o].size, true) ==> InitOf(m, m', o, ps[o].size, true)
  {
  }

  lemma CarveIsTaken(ps: Pieces, big: int, min: int)
    requires big in ps
    ensures Allotted(ps, big, min, NULL_VADDR)
            == if ps[big].size - min < MP_MIN_SIZE then TakeWhole(ps, big) else TakeSome(ps, big, min)
  {
  }

  lemma TakeSomeRoom(ps: Pieces, cap: int, big: int, min: int)
    requires Cuttable(ps, cap, big, min)
    ensures big in ps && !ps[big].alloc && 0 <= big && big + ps[big].size <= cap
    ensures 0 <= min && MP_PADDING <= min && MP_PADDING <= ps[big].size - min
    ensures var r := TakeSome(ps, big, min);
            && big in r && r[big] == Piece(min, true, NULL_VADDR) && r[big].alloc && r[big].size == min
            && big + min in r && !r[big + min].alloc
    ensures forall m, m' {:trigger InitOf(m, m', big + min, ps[big].size - min, false)} ::
              |m| == cap && m' == Init(m, big + min, ps[big].size - min, false) ==>
                InitOf(m, m', big + min, ps[big].size - min, false)
    ensures forall o :: o in ps && ps[o].alloc ==> o in TakeSome(ps, big, min) && TakeSome(ps, big, min)[o] == ps[o]
  {
    NothingInside(ps, cap, big);
  }

  /** big is not among the allocated pieces of ps, so ps does not notice what is written there. */
  lemma KeptButBig(m: Mem, m': Mem, ps': Pieces, big: int, ps: Pieces)
    requires OthersKept(m, m', ps', big) && big in ps && !ps[big].alloc
    requires forall o :: o in ps && ps[o].alloc ==> o in ps' && ps'[o] == ps[o]
    ensures OthersKept(m, m', ps, NIL)
  {
    forall o | o in ps && ps[o].alloc ensures 0 <= o && o + ps[o].size <= |m| && Kept(m, m', ps, o) {
      assert o != big && Kept(m, m', ps', o);
    }
  }

  // ---------------------------------------------------------------------------- about shifting

  lemma JoinFacts(m: Mem, head: int, ps: Pieces, order: seq<int>, g: int, t: int)
    requires WF(m, head, ps, order, g, {g}) && g in ps && g + ps[g].size == t && t in ps && !ps[t].alloc
    ensures 0 <= g && 0 <= t && t + 34 <= |m| && m[t] == Tag(ps[t].size, false) && t in order && t != g
  {
    assert TagAt(m, ps, t);
  }

  lemma MergedIsFree(ps: Pieces, lo: int, size: int)
    requires 0 <= lo
    ensures lo in Merge(ps, lo, lo + size) && !Merge(ps, lo, lo + size)[lo].alloc && lo != NIL
  {
  }

  lemma Joined(m: Mem, head: int, ps: Pieces, order: seq<int>, g: int, t: int)
    requires WF(m, head, ps, order, g, {g} + {t}) && g in ps && !ps[g].alloc && g + ps[g].size == t
    requires t in ps && !ps[t].alloc
    ensures var hi := t + ps[t].size;
            && 0 <= g && MP_PADDING <= hi - g && hi <= |m| && g != NIL
            && WF(Init(m, g, hi - g, false), head, Merge(ps, g, hi), order, NIL, {g})
            && OthersKept(m, Init(m, g, hi - g, false), ps, NIL)
            && !Merge(ps, g, hi)[g].alloc
            && (forall o :: o in ps && ps[o].alloc ==> o in Merge(ps, g, hi) && Merge(ps, g, hi)[o] == ps[o])
  {
    hide WF, Tiling, Listed, ListsFree, Tagged, TagAt;
    JoinedFacts(m, head, ps, order, g, t);
    var hi := t + ps[t].size;
    MergeWF(m, head, ps, order, g, {g} + {t}, g, hi);
    OthersKeptFrom(m, Init(m, g, hi - g, false), ps, g, hi, NIL);
  }

  lemma JoinedFacts(m: Mem, head: int, ps: Pieces, order: seq<int>, g: int, t: int)
    requires WF(m, head, ps, order, g, {g} + {t}) && g in ps && !ps[g].alloc && g + ps[g].size == t
    requires t in ps && !ps[t].alloc
    ensures var hi := t + ps[t].size;
            && 0 <= g < t && MP_MIN_SIZE <= ps[g].size && MP_MIN_SIZE <= ps[t].size && hi <= |m|
            && (hi == |m| || hi in ps) && Tiling(ps, |m|)
            && (forall k :: 0 <= k < |order| ==> order[k] < g || hi <= order[k])
            && (forall o :: o in ps && g <= o < hi ==> o == g || o == t)
  {
    assert NextOk(ps, |m|, t);
    NothingInside(ps, |m|, g);
    NothingInside(ps, |m|, t);
    forall k | 0 <= k < |order| ensures order[k] < g || t + ps[t].size <= order[k] {
      assert order[k] in ps && order[k] != g && order[k] != t;
    }
  }

  lemma ListedBounds(m: Mem, head: int, list: seq<int>)
    requires Listed(m, head, list)
    ensures forall j :: 0 <= j < |list| ==> 0 <= list[j] && list[j] + MP_MIN_SIZE <= |m|
  {
  }

  lemma LinksOf(m: Mem, head: int, list: seq<int>, k: int)
    requires Listed(m, head, list) && 0 <= k < |list|
    ensures 0 <= list[k] && list[k] + MP_MIN_SIZE <= |m| && (k == 0 ==> head == list[0] + 8)
    ensures m[list[k] + 8] == Link(if k > 0 then list[k-1] + 8 else NIL)
    ensures m[list[k] + 16] == Link(if k + 1 < |list| then list[k+1] + 8 else NIL)
  {
    assert LinksAt(m, list, k);
  }

  lemma LinksAround(list: seq<int>, k: int, x: int)
    requires 0 <= k <= |list|
    ensures PrevLink(With(list, k, x), k) == if k > 0 then list[k-1] + 8 else NIL
    ensures NextLink(With(list, k, x), k) == if k < |list| then list[k] + 8 else NIL
  {
  }

  /** What is written to insert x in front of the k-th of the list. */
  lemma InsertIsRelink(m: Mem, list: seq<int>, k: int, x: int)
    requires forall j :: 0 <= j < |list| ==> 0 <= list[j] && list[j] + MP_MIN_SIZE <= |m|
    requires 0 <= k < |list| && 0 <= x && x + MP_MIN_SIZE <= |m|
    ensures var prev, next, h := if k > 0 then list[k-1] + 8 else NIL, list[k] + 8, x + 8;
            var a := if prev != NIL then Store(m, prev + 8, 8, Link(h)) else m;
            Relink(m, list, k, x) == Store(Store(Store(a, h + 8, 8, Link(next)), h, 8, Link(prev)), next, 8, Link(h))
  {
    hide Store, With, PrevLink, NextLink;
    LinksAround(list, k, x);
  }

  /** A body moved from n down to f, and then the header, the address and the footer written at f. */
  lemma MovedAndTagged(m: Mem, m1: Mem, f: int, n: int, size: int, v: Vaddr)
    requires 0 <= f < n && MP_MIN_SIZE <= size && n + size <= |m| == |m1|
    requires forall p :: f + 24 <= p < f + size - 8 ==> m1[p] == m[p + (n - f)]
    requires forall p :: 0 <= p < |m| && (p < f + 24 || f + size - 8 <= p) ==> m1[p] == m[p]
    ensures var m2 := Init(Store(m1, f + 8, 16, Va(v)), f, size, true);
            && SameMemOutside(m, m2, f, f + size) && BodyMoved(m, m2, n, f, size)
            && m2[f] == m2[f + size - 8] == Tag(size, true) && m2[f + 8] == Va(v)
  {
    hide Store, Init;
  }

  lemma SpliceIsRelink(m: Mem, list: seq<int>, k: int, x: int)
    requires forall j :: 0 <= j < |list| ==> 0 <= list[j] && list[j] + MP_MIN_SIZE <= |m|
    requires 0 <= k <= |list| && 0 <= x && x + MP_MIN_SIZE <= |m|
    requires k > 0 ==> Apart(list[k-1], x)
    ensures var prev, next, h := if k > 0 then list[k-1] + 8 else NIL, if k < |list| then list[k] + 8 else NIL, x + 8;
            var a := Store(Store(m, h + 8, 8, Link(next)), h, 8, Link(prev));
            var b := if prev != NIL then Store(a, prev + 8, 8, Link(h)) else a;
            Relink(m, list, k, x) == if next != NIL then Store(b, next, 8, Link(h)) else b
  {
    hide Store, With, PrevLink, NextLink;
    LinksAround(list, k, x);
    var w := With(list, k, x);
    if k > 0 {
      var q, h := list[k-1] + 16, x + 8;
      var c, d, e := Link(h), Link(NextLink(w, k)), Link(PrevLink(w, k));
      StoresCommute(m, q, h + 8, c, d);
      StoresCommute(Store(m, h + 8, 8, d), q, h, c, e);
    }
  }

  lemma StoresCommute(m: Mem, p: int, q: int, c: Cell, d: Cell)
    requires 0 <= p && p + 8 <= |m| && 0 <= q && q + 8 <= |m| && (p + 8 <= q || q + 8 <= p)
    ensures Store(Store(m, p, 8, c), q, 8, d) == Store(Store(m, q, 8, d), p, 8, c)
  {
  }

  lemma SlideReads(m: Mem, head: int, ps: Pieces, order: seq<int>, f: int, k: int)
    requires WF(m, head, ps, order, NIL, {}) && Slidable(ps, |m|, f) && 0 <= k < |order| && order[k] == f
    ensures var n := f + ps[f].size;
            && f in ps && 0 <= f < n && n in ps && MP_MIN_SIZE <= ps[n].size && n + ps[n].size <= |m|
            && n + 8 < |m| && f + 16 < |m|
            && m[f] == Tag(ps[f].size, false)
            && m[f + 8] == Link(PrevLink(order, k)) && m[f + 16] == Link(NextLink(order, k))
            && m[n] == Tag(ps[n].size, true) && m[n + 8] == Va(ps[n].v)
  {
    assert TagAt(m, ps, f) && TagAt(m, ps, f + ps[f].size) && LinksAt(m, order, k);
  }

  lemma SlidTag(m: Mem, ps: Pieces, f: int, v: Vaddr)
    requires Slidable(ps, |m|, f)
    requires var n := f + ps[f].size;
             v == ps[n].v && m[f] == m[f + ps[n].size - 8] == Tag(ps[n].size, true) && m[f + 8] == Va(v)
    ensures TagAt(m, Slid(ps, f), f)
  {
  }

  lemma SlidTags(m: Mem, head: int, ps: Pieces, order: seq<int>, f: int)
    requires Slidable(ps, |m|, f)
    requires var g := f + ps[f + ps[f].size].size; WF(m, head, Slid(ps, f), order, g, {g})
    requires var t := f + ps[f].size + ps[f + ps[f].size].size; t < |m|
    ensures var t := f + ps[f].size + ps[f + ps[f].size].size;
            t in ps && m[t] == Tag(ps[t].size, ps[t].alloc)
  {
    SlideSizes(ps, |m|, f);
    assert TagAt(m, Slid(ps, f), f + ps[f].size + ps[f + ps[f].size].size);
  }

  lemma SlidJoins(ps: Pieces, cap: int, f: int)
    requires Slidable(ps, cap, f)
    ensures var n := f + ps[f].size; var t, g, r := n + ps[n].size, f + ps[n].size, Slid(ps, f);
            && f in ps && n in ps && (t < cap <==> t in ps) && g != NIL
            && g in r && !r[g].alloc && r[g].size == ps[f].size && g + r[g].size == t
            && (t in ps ==> t in r && r[t] == ps[t])
            && Shifted(ps, f) == if t in ps && !ps[t].alloc then Merge(r, g, t + r[t].size) else r
  {
    SlideSizes(ps, cap, f);
  }

  lemma SlideKept(m0: Mem, m1: Mem, m2: Mem, m3: Mem, ps: Pieces, f: int)
    requires Slidable(ps, |m0|, f) && |m0| == |m1| == |m2| == |m3|
    requires OthersKept(m0, m1, ps, NIL) && OthersKept(m1, m2, ps, f + ps[f].size) && OthersKept(m2, m3, Slid(ps, f), NIL)
    requires BodyMoved(m1, m2, f + ps[f].size, f, ps[f + ps[f].size].size)
    ensures Moved(m0, m3, ps, f)
  {
    SlideSizes(ps, |m0|, f);
    var n, r := f + ps[f].size, Slid(ps, f);
    forall o | o in ps && ps[o].alloc && o != n ensures 0 <= o && o + ps[o].size <= |m0| && Kept(m0, m3, ps, o) {
      assert o < f || n + ps[n].size <= o;
      assert o in r && r[o] == ps[o];
      assert Kept(m0, m1, ps, o) && Kept(m1, m2, ps, o) && Kept(m2, m3, r, o);
    }
    assert Kept(m0, m1, ps, n) && f in r && r[f] == ps[n] && f != NIL && Kept(m2, m3, r, f);
  }

  // ---------------------------------------------------------------------------- about allocating

  /** Some free piece has at least the given size. */
  ghost predicate Fits(ps: Pieces, size: int) {
    exists o :: o in ps && !ps[o].alloc && size <= ps[o].size
  }

  /** The head of the list tells whether any free piece is large enough. */
  lemma FirstDecides(m: Mem, head: int, ps: Pieces, order: seq<int>, size: int)
    requires WF(m, head, ps, order, NIL, {})
    ensures head == NIL ==> !Fits(ps, size)
    ensures head != NIL ==> 0 <= head - 8 < |m| && m[head - 8].Tag? && (Fits(ps, size) <==> size <= m[head - 8].size)
    ensures head != NIL && size <= m[head - 8].size ==> forall o :: IsBiggest(ps, o) ==> size <= ps[o].size
  {
    if head == NIL {
      assert order == [];
    } else {
      BiggestIsFirst(m, head, ps, order);
      assert TagAt(m, ps, order[0]);
    }
  }

  lemma OpenedRoom(m: Mem, ps: Pieces, big: int)
    requires Opened(m, ps, big)
    ensures big in ps && 0 <= big && big + 24 <= |m|
  {
  }

  lemma CarvedPieces(ps: Pieces, qs: Pieces, rs: Pieces, cap: int, big: int, min: int, v: Vaddr)
    requires Tiling(ps, cap) && Coalesced(qs) && AllEven(ps) && min % 2 == 0 && MP_MIN_SIZE <= min
    requires IsBiggest(ps, big) && min <= ps[big].size && qs == Allotted(ps, big, min, NULL_VADDR) && big in qs
    requires rs == qs[big := Piece(qs[big].size, true, v)]
    ensures Coalesced(rs) && AllEven(rs) && big in ps && rs == Allotted(ps, big, min, v)
    ensures !ps[big].alloc && big in rs && rs[big].alloc && rs[big].v == v && min <= rs[big].size
    ensures forall o :: o in ps && ps[o].alloc ==> o in qs && qs[o] == ps[o] && rs[o] == ps[o]
    ensures forall o :: o != big ==> ((o in ps && ps[o].alloc) <==> (o in rs && rs[o].alloc))
  {
    SealedCoalesced(qs, rs, big, v);
    CarvedSame(ps, qs, cap, big, min);
    assert rs == Allotted(ps, big, min, v);
  }

  lemma SealedCoalesced(qs: Pieces, rs: Pieces, big: int, v: Vaddr)
    requires Coalesced(qs) && big in qs && qs[big].alloc && rs == qs[big := Piece(qs[big].size, true, v)]
    ensures Coalesced(rs)
  {
    forall o | o in rs ensures SplitOk(rs, o) {
      assert SplitOk(qs, o);
    }
  }

  lemma CarvedSame(ps: Pieces, qs: Pieces, cap: int, big: int, min: int)
    requires Tiling(ps, cap) && AllEven(ps) && min % 2 == 0 && MP_MIN_SIZE <= min
    requires IsBiggest(ps, big) && min <= ps[big].size && qs == Allotted(ps, big, min, NULL_VADDR)
    ensures AllEven(qs) && big in qs && qs[big].alloc && min <= qs[big].size
    ensures forall o :: o in ps && ps[o].alloc ==> o in qs && qs[o] == ps[o]
    ensures forall o :: o != big ==> ((o in ps && ps[o].alloc) <==> (o in qs && qs[o].alloc))
  {
    NothingInside(ps, cap, big);
  }

  lemma MallocBody(m: Mem, ps: Pieces, id: nat, cells: Cells, big: int, v: Vaddr, min: int)
    requires Tiling(ps, |m|) && big in ps && min <= ps[big].size && v in cells && cells[v] == Paddr(id, big + 24)
    ensures v in Bodies(m, ps, id, cells) && Bodies(m, ps, id, cells)[v] == BodyAt(m, ps, big)
    ensures min - MAP_PADDING <= |BodyAt(m, ps, big)|
  {
  }

  /**
   mb_free_space promises that a request succeeds if and only if it is at most the space. That holds for every request
   unless it is so large that its padding wraps around, and there is a free piece.
   */
  lemma SpaceIsExact(m: Mem, head: int, ps: Pieces, order: seq<int>, space: int)
    requires WF(m, head, ps, order, NIL, {}) && AllEven(ps) && |m| < TWO_64
    requires head == NIL ==> space == 0
    requires head != NIL ==> order != [] && IsBiggest(ps, order[0]) && space == ps[order[0]].size - MAP_PADDING
    ensures space == 0 <==> !Fits(ps, 0)
    ensures forall n :: 1 <= n < TWO_64 ==>
              ((n <= space <==> Fits(ps, PadNumBytes(n))) <==> (n <= MAX_REQUEST || space == 0))
  {
    if head == NIL {
      assert order == [];
      assert forall o :: o in ps ==> ps[o].alloc;
    } else {
      var big := order[0];
      forall n | 1 <= n < TWO_64 ensures (n <= space <==> Fits(ps, PadNumBytes(n))) <==> n <= MAX_REQUEST {
        PadFitsUnlessItWraps(n);
        if n <= MAX_REQUEST {
          PadIsExact(n, ps[big].size);
        }
        assert PadNumBytes(n) <= ps[big].size ==> Fits(ps, PadNumBytes(n));
      }
      assert 0 <= ps[big].size && Fits(ps, 0);
    }
  }

  ghost function From(ps: Pieces, lo: int): set<int> {
    set o | o in ps && lo <= o
  }

  ghost function SizeOf(ps: Pieces): int -> nat {
    (o: int) => if o in ps && ps[o].size > 0 then ps[o].size else 0
  }

  lemma {:induction false} SizesFrom(ps: Pieces, cap: int, lo: int)
    requires Tiling(ps, cap) && (lo in ps || lo == cap)
    ensures Sum(From(ps, lo), SizeOf(ps)) == cap - lo
    decreases cap - lo
  {
    if lo == cap {
      assert From(ps, lo) == {};
    } else {
      assert NextOk(ps, cap, lo);
      var next := lo + ps[lo].size;
      SizesFrom(ps, cap, next);
      NothingInside(ps, cap, lo);
      assert From(ps, lo) == From(ps, next) + {lo};
      SumAdd(From(ps, next), SizeOf(ps), lo);
    }
  }

  /** The pieces of a block use up all of it. */
  lemma SizesSumToCap(ps: Pieces, cap: int)
    requires Tiling(ps, cap)
    ensures Sum(ps.Keys, SizeOf(ps)) == cap
  {
    SizesFrom(ps, cap, 0);
    assert From(ps, 0) == ps.Keys;
  }

  ghost function AllocatedBelow(ps: Pieces, hi: int): set<int> {
    set o | o in ps && o < hi && ps[o].alloc
  }

  lemma CountStart(ps: Pieces, cap: int)
    requires Tiling(ps, cap)
    ensures 0 in ps && 0 < cap && AllocatedBelow(ps, 0) == {}
  {
  }

  lemma CountStep(m: Mem, head: int, ps: Pieces, order: seq<int>, o: int)
    requires WF(m, head, ps, order, NIL, {}) && o in ps
    ensures 0 <= o < |m| && m[o] == Tag(ps[o].size, ps[o].alloc) && 0 < ps[o].size && o + ps[o].size <= |m|
    ensures var next := o + ps[o].size;
            && (next == |m| || next in ps)
            && |AllocatedBelow(ps, next)| == |AllocatedBelow(ps, o)| + if ps[o].alloc then 1 else 0
  {
    assert NextOk(ps, |m|, o) && TagAt(m, ps, o);
    NothingInside(ps, |m|, o);
    var next := o + ps[o].size;
    assert AllocatedBelow(ps, next) == AllocatedBelow(ps, o) + if ps[o].alloc then {o} else {};
  }

  lemma CountIsAllocated(ps: Pieces, cap: int)
    requires Tiling(ps, cap)
    ensures AllocatedBelow(ps, cap) == AllocatedIn(ps)
  {
  }

  lemma CellLeadsToPiece(ps: Pieces, id: nat, cells: Cells, v: Vaddr)
    requires Agree(ps, id, cells) && v in cells && cells[v].mb == id
    ensures var o := cells[v].off - 24; o in ps && ps[o].alloc && ps[o].v == v
  {
    assert CellAgrees(ps, id, cells, v);
  }

  lemma FreedPieces(ps: Pieces, ps': Pieces, cap: int, mp: int, lo: int, hi: int)
    requires Tiling(ps, cap) && AllEven(ps) && mp in ps && ps[mp].alloc
    requires Freed(ps, mp, lo, hi) && ps' == Merge(ps, lo, hi)
    requires hi == cap || hi in ps
    ensures AllEven(ps') && (mp in ps' ==> !ps'[mp].alloc)
    ensures forall o :: o != mp ==> ((o in ps && ps[o].alloc) <==> (o in ps' && ps'[o].alloc))
    ensures forall o :: o in ps && ps[o].alloc && o != mp ==> ps'[o] == ps[o]
  {
    EvenDistance(ps, cap, lo, hi);
  }

  /** The distance between two ends of pieces is even. */
  lemma {:induction false} EvenDistance(ps: Pieces, cap: int, lo: int, hi: int)
    requires Tiling(ps, cap) && AllEven(ps) && lo in ps && lo <= hi && (hi == cap || hi in ps)
    ensures (hi - lo) % 2 == 0
    decreases hi - lo
  {
    if lo < hi {
      assert NextOk(ps, cap, lo);
      var next := lo + ps[lo].size;
      assert next <= hi;
      if next < hi {
        EvenDistance(ps, cap, next, hi);
      }
    }
  }

  // ---------------------------------------------------------------------------- about compaction

  /** All free space is in one piece at the end. */
  ghost predicate Packed(ps: Pieces, cap: int) {
    forall o :: o in ps && !ps[o].alloc ==> o + ps[o].size == cap
  }

  ghost predicate BlockedAt(ps: Pieces, held: set<Vaddr>, o: int) {
    o in ps && !ps[o].alloc && o + ps[o].size in ps ==> ps[o + ps[o].size].v in held
  }

  /** Every allocated piece behind a free one is locked. */
  ghost predicate Blocked(ps: Pieces, held: set<Vaddr>) {
    forall o {:trigger BlockedAt(ps, held, o)} :: BlockedAt(ps, held, o)
  }

  /** One piece, not locked, has moved to the free piece f before it, and its cell says so. */
  ghost predicate ShiftStep(ps: Pieces, ps': Pieces, cells: Cells, cells': Cells, held: set<Vaddr>, id: nat, cap: int,
                            f: int) {
    && Slidable(ps, cap, f) && ps' == Shifted(ps, f)
    && var n := f + ps[f].size;
       && ps[n].v !in held
       && ps[n].v in cells && cells[ps[n].v] == Paddr(id, n + 24) && cells' == cells[ps[n].v := Paddr(id, f + 24)]
  }

  /** The same addresses in the same blocks and in the same order, none higher. */
  ghost predicate Lowered(cells: Cells, cells': Cells) {
    && cells'.Keys == cells.Keys
    && (forall v :: v in cells ==> cells'[v].mb == cells[v].mb && cells'[v].off <= cells[v].off)
    && (forall v, w :: v in cells && w in cells && cells[v].mb == cells[w].mb && cells[v].off < cells[w].off ==>
          cells'[v].off < cells'[w].off)
  }

  /** Only addresses of the block have become lower. */
  ghost predicate Compacted(id: nat, cells: Cells, cells': Cells) {
    Lowered(cells, cells') && forall v :: v in cells && cells[v].mb != id ==> cells'[v] == cells[v]
  }

  /** Packed blocks have one free piece at most, and behind the start no gap between allocated pieces. */
  lemma PackedHasNoGaps(ps: Pieces, cap: int)
    requires Tiling(ps, cap) && Packed(ps, cap)
    ensures forall o, q :: o in ps && q in ps && !ps[o].alloc && !ps[q].alloc ==> o == q
    ensures forall o :: o in ps && o > 0 ==> exists q :: q in ps && ps[q].alloc && q + ps[q].size == o
  {
    forall o | o in ps && o > 0 ensures exists q :: q in ps && ps[q].alloc && q + ps[q].size == o {
      var q := PieceBefore(ps, cap, o, 0);
      assert q in ps && ps[q].alloc && q + ps[q].size == o;
    }
  }

  function LinkOf(order: seq<int>, k: int): int {
    if 0 <= k < |order| then order[k] + 8 else NIL
  }

  lemma HeadLink(m: Mem, head: int, ps: Pieces, order: seq<int>)
    requires WF(m, head, ps, order, NIL, {})
    ensures head == LinkOf(order, 0)
  {
  }

  lemma ListStep(m: Mem, head: int, ps: Pieces, order: seq<int>, id: nat, cells: Cells, k: int)
    requires WF(m, head, ps, order, NIL, {}) && Coalesced(ps) && Agree(ps, id, cells) && 0 <= k && LinkOf(order, k) != NIL
    ensures k < |order| && LinkOf(order, k) == order[k] + 8
    ensures var o := order[k];
            && o in ps && !ps[o].alloc && 0 <= o && o + 34 <= |m|
            && m[o] == Tag(ps[o].size, false) && m[o + 16] == Link(LinkOf(order, k + 1))
            && var n := o + ps[o].size;
               && 0 <= n && (n < |m| <==> n in ps)
               && (n in ps ==>
                     && n + 34 <= |m| && ps[n].alloc && m[n] == Tag(ps[n].size, true) && m[n + 8] == Va(ps[n].v)
                     && ps[n].v in cells && Slidable(ps, |m|, o))
  {
    var o := order[k];
    assert TagAt(m, ps, o) && LinksAt(m, order, k) && NextOk(ps, |m|, o) && SplitOk(ps, o);
    var n := o + ps[o].size;
    if n in ps {
      assert TagAt(m, ps, n) && PieceAgrees(ps, id, cells, n);
    }
  }

  lemma HeldAlready(held: set<Vaddr>, was: set<Vaddr>, v: Vaddr)
    requires v in was && held == was + {v}
    ensures held == was
  {
  }

  lemma HeldAgain(was: set<Vaddr>, v: Vaddr)
    requires v !in was
    ensures was + {v} - {v} == was
  {
  }

  lemma BlockedHere(ps: Pieces, held: set<Vaddr>, cap: int, o: int)
    requires o in ps ==> (o + ps[o].size !in ps || ps[o + ps[o].size].v in held)
    ensures BlockedAt(ps, held, o)
  {
  }

  lemma HeadPieces(m: Mem, head: int, ps: Pieces, order: seq<int>)
    requires WF(m, head, ps, order, NIL, {})
    ensures forall j :: 0 <= j < |order| ==> 0 <= order[j]
  {
  }

  lemma AllBlocked(m: Mem, head: int, ps: Pieces, order: seq<int>, held: set<Vaddr>, k: int)
    requires WF(m, head, ps, order, NIL, {}) && 0 <= k <= |order| && LinkOf(order, k) == NIL
    requires forall j :: 0 <= j < k ==> BlockedAt(ps, held, order[j])
    ensures Blocked(ps, held)
  {
    HeadPieces(m, head, ps, order);
    forall o ensures BlockedAt(ps, held, o) {
      if o in ps && !ps[o].alloc {
        var j :| 0 <= j < |order| && order[j] == o;
        assert BlockedAt(ps, held, order[j]);
      }
    }
  }

  /** The first look of mb_try_shift at the list tells whether the block is packed. */
  lemma PackedShows(m: Mem, head: int, ps: Pieces, order: seq<int>)
    requires WF(m, head, ps, order, NIL, {})
    ensures head == NIL ==> Packed(ps, |m|)
    ensures head != NIL ==>
              && 8 <= head && head + 26 <= |m| && m[head - 8].Tag? && m[head + 8].Link?
              && (Packed(ps, |m|) <==> m[head + 8].to == NIL && head - 8 + m[head - 8].size >= |m|)
  {
    if head != NIL {
      var o := order[0];
      assert TagAt(m, ps, o) && LinksAt(m, order, 0);
      if |order| > 1 {
        assert order[1] in ps && Apart(order[0], order[1]);
        assert ps[order[0]].size > 0 && ps[order[1]].size > 0;
      } else {
        forall q | q in ps && !ps[q].alloc ensures q == o {
        }
      }
    } else {
      assert order == [];
    }
  }

  /** f is the first free piece of the list behind which a piece can be locked. */
  ghost predicate FirstToMove(ps: Pieces, order: seq<int>, held: set<Vaddr>, f: int) {
    exists k :: 0 <= k < |order| && order[k] == f && forall j :: 0 <= j < k ==> BlockedAt(ps, held, order[j])
  }

  lemma IsFirstToMove(ps: Pieces, order: seq<int>, held: set<Vaddr>, k: int)
    requires 0 <= k < |order| && forall j :: 0 <= j < k ==> BlockedAt(ps, held, order[j])
    ensures FirstToMove(ps, order, held, order[k])
  {
  }

  lemma NotBlocked(ps: Pieces, cap: int, held: set<Vaddr>, f: int)
    requires Slidable(ps, cap, f) && ps[f + ps[f].size].v !in held
    ensures !Blocked(ps, held) && !Packed(ps, cap)
  {
    assert !BlockedAt(ps, held, f);
    SlideSizes(ps, cap, f);
  }

  /** ps' has the piece behind f moved to f, and free space from g up to e, where the next allocated piece starts. */
  ghost predicate ShiftShape(ps: Pieces, ps': Pieces, f: int, g: int, e: int) {
    && f in ps && f + ps[f].size in ps
    && var n := f + ps[f].size;
       var t := n + ps[n].size;
       && f in ps' && ps'[f] == ps[n] && g in ps' && ps'[g] == FreePiece(e - g)
       && g == f + ps[n].size && f < g < e && n < t
       && e == (if t in ps && !ps[t].alloc then t + ps[t].size else t)
       && (forall o :: o != f && o != g ==>
             (o in ps' <==> o in ps && (o < f || e <= o)) && (o in ps' ==> ps'[o] == ps[o]))
       && (forall o :: o in ps && f <= o < e ==> o == f || o == n || (o == t && !ps[t].alloc))
  }

  lemma ShiftedIs(ps: Pieces, cap: int, f: int) returns (g: int, e: int)
    requires Slidable(ps, cap, f)
    ensures ShiftShape(ps, Shifted(ps, f), f, g, e)
  {
    hide Tiling;
    SlideSizes(ps, cap, f);
    var n := f + ps[f].size;
    var t := n + ps[n].size;
    g, e := f + ps[n].size, t;
    if t in ps && !ps[t].alloc {
      NothingBeyond(ps, cap, f, t);
      e := t + ps[t].size;
    }
  }

  lemma NothingBeyond(ps: Pieces, cap: int, f: int, t: int)
    requires Slidable(ps, cap, f) && t in ps
    ensures MP_MIN_SIZE <= ps[t].size && forall o :: o in ps && t <= o < t + ps[t].size ==> o == t
  {
    NothingInside(ps, cap, t);
  }

  lemma ShiftedPieces(m: Mem, m': Mem, ps: Pieces, cap: int, f: int)
    requires Slidable(ps, cap, f) && |m| == cap && Moved(m, m', ps, f) && AllEven(ps)
    ensures AllEven(Shifted(ps, f)) && f in ps && Relocated(m, m', ps, Shifted(ps, f), f, f + ps[f].size)
  {
    hide Shifted, Slid;
    SlideSizes(ps, cap, f);
    var g, e := ShiftedIs(ps, cap, f);
    ShiftedEven(ps, cap, f);
  }

  lemma ShiftedEven(ps: Pieces, cap: int, f: int)
    requires Slidable(ps, cap, f) && AllEven(ps)
    ensures AllEven(Shifted(ps, f))
  {
    hide Shifted, Slid, Tiling;
    SlideSizes(ps, cap, f);
    var g, e := ShiftedIs(ps, cap, f);
  }

  lemma StepIsShift(ps: Pieces, cells: Cells, cells': Cells, held: set<Vaddr>, id: nat, cap: int, f: int)
    requires Slidable(ps, cap, f) && Agree(ps, id, cells) && ps[f + ps[f].size].v !in held
    requires cells' == cells[ps[f + ps[f].size].v := Paddr(id, f + 24)]
    ensures ShiftStep(ps, Shifted(ps, f), cells, cells', held, id, cap, f)
  {
    assert PieceAgrees(ps, id, cells, f + ps[f].size);
  }

  ghost function AllocatedIn(ps: Pieces): set<int> {
    set o | o in ps && ps[o].alloc
  }

  ghost function Height(): int -> nat {
    (o: int) => if o < 0 then 0 else o
  }

  /** The sum of the offsets of the allocated pieces. */
  ghost function OffsetSum(ps: Pieces): nat {
    Sum(AllocatedIn(ps), Height())
  }

  lemma ShiftLowers(ps: Pieces, ps': Pieces, cells: Cells, cells': Cells, held: set<Vaddr>, id: nat, cap: int, f: int)
    requires ShiftStep(ps, ps', cells, cells', held, id, cap, f)
    ensures OffsetSum(ps') < OffsetSum(ps)
  {
    hide Sum, Shifted, Slid, Tiling;
    SlideSizes(ps, cap, f);
    var n := f + ps[f].size;
    ShiftedAllocated(ps, cap, f);
    assert n in AllocatedIn(ps) && f !in AllocatedIn(ps);
    forall o ensures o in AllocatedIn(ps') <==> o in AllocatedIn(ps) - {n} + {f} {
    }
    assert AllocatedIn(ps') == AllocatedIn(ps) - {n} + {f};
    SumRemove(AllocatedIn(ps), Height(), n);
    SumAdd(AllocatedIn(ps) - {n}, Height(), f);
  }

  lemma ShiftedAllocated(ps: Pieces, cap: int, f: int)
    requires Slidable(ps, cap, f)
    ensures var n, ps' := f + ps[f].size, Shifted(ps, f);
            forall o :: (o in ps' && ps'[o].alloc) <==> ((o in ps && ps[o].alloc && o != n) || o == f)
  {
    hide Shifted, Slid, Tiling;
    SlideSizes(ps, cap, f);
    var g, e := ShiftedIs(ps, cap, f);
  }

  lemma CompactedItself(id: nat, cells: Cells)
    ensures Compacted(id, cells, cells)
  {
  }

  lemma CompactedOn(id: nat, c0: Cells, c1: Cells, c2: Cells)
    requires Compacted(id, c0, c1) && Compacted(id, c1, c2)
    ensures Compacted(id, c0, c2)
  {
  }

  /** The piece that moves passes no other. */
  lemma ShiftKeepsOrder(ps: Pieces, ps': Pieces, cells: Cells, cells': Cells, held: set<Vaddr>, id: nat, cap: int, f: int)
    requires ShiftStep(ps, ps', cells, cells', held, id, cap, f) && Agree(ps, id, cells)
    ensures Compacted(id, cells, cells')
  {
    SlideSizes(ps, cap, f);
    var n := f + ps[f].size;
    forall v | v in cells && cells[v].mb == id && v != ps[n].v
      ensures cells[v].off - 24 < f || n < cells[v].off - 24
    {
      assert CellAgrees(ps, id, cells, v);
    }
  }

  lemma UnlockedIsPacked(m: Mem, ps: Pieces, cap: int, id: nat, cells: Cells, held: set<Vaddr>)
    requires Tiling(ps, cap) && Coalesced(ps) && Agree(ps, id, cells)
    ensures Blocked(ps, held) && (forall v :: v in held ==> v !in Bodies(m, ps, id, cells)) ==> Packed(ps, cap)
  {
    if Blocked(ps, held) && forall v :: v in held ==> v !in Bodies(m, ps, id, cells) {
      forall o | o in ps && !ps[o].alloc ensures o + ps[o].size == cap {
        assert NextOk(ps, cap, o) && BlockedAt(ps, held, o) && SplitOk(ps, o);
        var n := o + ps[o].size;
        if n in ps {
          assert PieceAgrees(ps, id, cells, n);
        }
      }
    }
  }
}
