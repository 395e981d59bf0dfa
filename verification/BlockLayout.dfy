/** The layout of a memory block: pieces with boundary tags, and the list of the free ones by size. */
module BlockLayout {
  import opened Common

  type Mem = seq<Cell>

  const MP_PADDING := 16
  const MAP_PADDING := 32
  const MP_MIN_SIZE := 34

  const TWO_64: int := 0x1_0000_0000_0000_0000

  /** A size in bytes: what fits in 64 bits. */
  type Size = n: int | 0 <= n < TWO_64

  /** round_num_bytes, with the wrap-around of a 64-bit sum. */
  function RoundNumBytes(n: int): int {
    if n % 2 != 0 then (n + 1) % TWO_64 else n
  }

  /** pad_num_bytes: the size of the piece for a request of n bytes. */
  function PadNumBytes(n: int): (r: int)
    requires 0 <= n < TWO_64
    ensures r % 2 == 0 && MP_MIN_SIZE <= r < TWO_64
  {
    var size := (RoundNumBytes(n) + MAP_PADDING) % TWO_64;
    if size < MP_MIN_SIZE then MP_MIN_SIZE else size
  }

  /** The largest request that does not wrap around. */
  const MAX_REQUEST: int := TWO_64 - 34

  /** A piece is large enough for its request exactly when the request does not wrap around. */
  lemma PadFitsUnlessItWraps(n: int)
    requires 0 <= n < TWO_64
    ensures PadNumBytes(n) >= n + MAP_PADDING <==> n <= MAX_REQUEST
    ensures n > MAX_REQUEST ==> PadNumBytes(n) == MP_MIN_SIZE
  {
  }

  /** size is the least even one, and at least the minimum, with room for n bytes and the padding. */
  predicate SizedFor(size: int, n: int) {
    && size % 2 == 0 && MP_MIN_SIZE <= size && n + MAP_PADDING <= size
    && (size < n + MAP_PADDING + 2 || size == MP_MIN_SIZE)
  }

  /** The padded size is that, unless the request wraps around. */
  lemma PadIsLeast(n: int)
    requires 0 <= n < TWO_64
    ensures SizedFor(PadNumBytes(n), n) <==> n <= MAX_REQUEST
    ensures n > MAX_REQUEST ==> PadNumBytes(n) == MP_MIN_SIZE
  {
    PadFitsUnlessItWraps(n);
  }

  /** A piece of even size s can serve a request of n bytes if and only if n is at most s less the padding. */
  lemma PadIsExact(n: int, s: int)
    requires 1 <= n <= MAX_REQUEST && s % 2 == 0 && MP_MIN_SIZE <= s
    ensures PadNumBytes(n) <= s <==> n <= s - MAP_PADDING
  {
    assert n % 2 != 0 ==> (n <= s - MAP_PADDING <==> n + 1 <= s - MAP_PADDING);
  }

  /** The null pointer. */
  const NIL: int := -1

  function Store(m: Mem, p: int, n: int, c: Cell): (r: Mem)
    requires 0 <= p && 0 < n && p + n <= |m|
    ensures |r| == |m| && r[p] == c
    ensures forall i :: 0 <= i < p || p + n <= i < |m| ==> r[i] == m[i]
  {
    seq(|m|, i requires 0 <= i < |m| => if i == p then c else if p < i < p + n then Rest else m[i])
  }

  /** mp_init. */
  function Init(m: Mem, p: int, size: int, alloc: bool): (r: Mem)
    requires 0 <= p && MP_PADDING <= size && p + size <= |m|
    ensures |r| == |m| && r[p] == Tag(size, alloc) && r[p + size - 8] == Tag(size, alloc)
    ensures forall i :: (0 <= i < p || p + 8 <= i < p + size - 8 || p + size <= i < |m|) ==> r[i] == m[i]
  {
    Store(Store(m, p, 8, Tag(size, alloc)), p + size - 8, 8, Tag(size, alloc))
  }

  // ---------------------------------------------------------------------------- pieces

  /** v is meaningful in an allocated piece. */
  datatype Piece = Piece(size: int, alloc: bool, v: Vaddr)

  function FreePiece(size: int): Piece {
    Piece(size, false, NULL_VADDR)
  }

  /** The pieces by the offset of their header. */
  type Pieces = map<int, Piece>

  ghost predicate NextOk(ps: Pieces, cap: int, o: int)
    requires o in ps
  {
    o + ps[o].size == cap || o + ps[o].size in ps
  }

  /** The pieces tile the block. */
  ghost predicate Tiling(ps: Pieces, cap: int) {
    && 0 in ps
    && (forall o :: o in ps ==> 0 <= o && MP_MIN_SIZE <= ps[o].size && o + ps[o].size <= cap)
    && (forall o {:trigger NextOk(ps, cap, o)} :: o in ps ==> NextOk(ps, cap, o))
    && (forall o, q {:trigger o in ps, q in ps} :: o in ps && q in ps && o < q ==> o + ps[o].size <= q)
  }

  ghost predicate SplitOk(ps: Pieces, o: int)
    requires o in ps
  {
    !ps[o].alloc && o + ps[o].size in ps ==> ps[o + ps[o].size].alloc
  }

  /** No two free pieces are adjacent. */
  ghost predicate Coalesced(ps: Pieces) {
    forall o {:trigger SplitOk(ps, o)} :: o in ps ==> SplitOk(ps, o)
  }

  ghost predicate AllEven(ps: Pieces) {
    forall o :: o in ps ==> ps[o].size % 2 == 0
  }

  /** Every piece but the first has one right before it. */
  lemma {:induction false} PieceBefore(ps: Pieces, cap: int, o: int, from: int) returns (q: int)
    requires Tiling(ps, cap) && o in ps && from in ps && from < o
    ensures q in ps && from <= q && q + ps[q].size == o
    decreases o - from
  {
    assert NextOk(ps, cap, from);
    if from + ps[from].size == o {
      q := from;
    } else {
      q := PieceBefore(ps, cap, o, from + ps[from].size);
    }
  }

  ghost predicate SameOutside(ps: Pieces, ps': Pieces, lo: int, hi: int) {
    forall o :: o < lo || hi <= o ==> (o in ps <==> o in ps') && (o in ps ==> ps'[o] == ps[o])
  }

  /** o is a piece of ps' between lo and hi, and its end is hi or the start of another. */
  ghost predicate InnerOk(ps': Pieces, lo: int, hi: int, o: int)
    requires o in ps'
  {
    && MP_MIN_SIZE <= ps'[o].size
    && (o + ps'[o].size == hi || (o + ps'[o].size < hi && o + ps'[o].size in ps'))
  }

  /** ps' has the pieces of ps outside of lo..hi, and others that tile that stretch. */
  ghost predicate Retiled(ps: Pieces, ps': Pieces, lo: int, hi: int) {
    && SameOutside(ps, ps', lo, hi)
    && lo in ps'
    && (forall o {:trigger InnerOk(ps', lo, hi, o)} :: o in ps' && lo <= o < hi ==> InnerOk(ps', lo, hi, o))
    && (forall o, q {:trigger o in ps', q in ps'} :: o in ps' && q in ps' && lo <= o < q < hi ==> o + ps'[o].size <= q)
  }

  lemma RetiledApart(ps: Pieces, ps': Pieces, cap: int, lo: int, hi: int, o: int, q: int)
    requires Tiling(ps, cap) && lo < hi && lo in ps && (hi == cap || hi in ps) && Retiled(ps, ps', lo, hi)
    requires o in ps' && q in ps' && o < q
    ensures o + ps'[o].size <= q
  {
    if o < lo {
      assert o in ps && o + ps[o].size <= lo;
    } else if o < hi {
      assert InnerOk(ps', lo, hi, o);
    }
  }

  lemma RetiledNext(ps: Pieces, ps': Pieces, cap: int, lo: int, hi: int, o: int)
    requires Tiling(ps, cap) && lo < hi && lo in ps && (hi == cap || hi in ps) && Retiled(ps, ps', lo, hi)
    requires o in ps'
    ensures NextOk(ps', cap, o) && 0 <= o && MP_MIN_SIZE <= ps'[o].size && o + ps'[o].size <= cap
  {
    assert lo + ps[lo].size <= cap;
    if lo <= o < hi {
      assert InnerOk(ps', lo, hi, o);
    } else {
      assert o in ps && ps'[o] == ps[o] && NextOk(ps, cap, o);
      var n := o + ps[o].size;
      if o < lo {
        assert n <= lo;
      }
      if n != cap {
        assert n in ps;
        assert n == lo || n < lo || hi <= n;
      }
    }
  }

  lemma RetiledTiles(ps: Pieces, ps': Pieces, cap: int, lo: int, hi: int)
    requires Tiling(ps, cap) && lo < hi && lo in ps && (hi == cap || hi in ps) && Retiled(ps, ps', lo, hi)
    ensures Tiling(ps', cap)
  {
    forall o | o in ps'
      ensures NextOk(ps', cap, o) && 0 <= o && MP_MIN_SIZE <= ps'[o].size && o + ps'[o].size <= cap
    {
      RetiledNext(ps, ps', cap, lo, hi, o);
    }
    forall o, q {:trigger o in ps', q in ps'} | o in ps' && q in ps' && o < q ensures o + ps'[o].size <= q {
      RetiledApart(ps, ps', cap, lo, hi, o, q);
    }
    assert 0 in ps;
  }

  // ---------------------------------------------------------------------------- tags

  ghost predicate TagAt(m: Mem, ps: Pieces, o: int)
    requires o in ps && 0 <= o && MP_MIN_SIZE <= ps[o].size && o + ps[o].size <= |m|
  {
    && m[o] == Tag(ps[o].size, ps[o].alloc)
    && m[o + ps[o].size - 8] == Tag(ps[o].size, ps[o].alloc)
    && (ps[o].alloc ==> m[o + 8] == Va(ps[o].v))
  }

  /** Header and footer of every piece, and the address in every allocated one; skip is exempt. */
  ghost predicate Tagged(m: Mem, ps: Pieces, skip: int)
    requires Tiling(ps, |m|)
  {
    forall o :: o in ps && o != skip ==> TagAt(m, ps, o)
  }

  // ---------------------------------------------------------------------------- the list of free pieces

  function PrevLink(order: seq<int>, k: int): int
    requires 0 <= k < |order|
  {
    if k == 0 then NIL else order[k-1] + 8
  }

  function NextLink(order: seq<int>, k: int): int
    requires 0 <= k < |order|
  {
    if k == |order| - 1 then NIL else order[k+1] + 8
  }

  ghost predicate LinksAt(m: Mem, order: seq<int>, k: int)
    requires 0 <= k < |order| && 0 <= order[k] && order[k] + MP_MIN_SIZE <= |m|
  {
    m[order[k] + 8] == Link(PrevLink(order, k)) && m[order[k] + 16] == Link(NextLink(order, k))
  }

  predicate Apart(o: int, q: int) {
    o + MP_MIN_SIZE <= q || q + MP_MIN_SIZE <= o
  }

  /** From head, the links lead through the offsets of order and back. */
  ghost predicate Listed(m: Mem, head: int, order: seq<int>) {
    && (forall k :: 0 <= k < |order| ==> 0 <= order[k] && order[k] + MP_MIN_SIZE <= |m|)
    && (forall j, k :: 0 <= j < k < |order| ==> Apart(order[j], order[k]))
    && head == (if order == [] then NIL else order[0] + 8)
    && (forall k {:trigger LinksAt(m, order, k)} :: 0 <= k < |order| ==> LinksAt(m, order, k))
  }

  /** p is in the link fields of a listed piece. */
  ghost predicate InLinks(order: seq<int>, p: int) {
    exists k :: 0 <= k < |order| && order[k] + 8 <= p < order[k] + 24
  }

  ghost predicate OnlyLinks(m: Mem, m': Mem, order: seq<int>) {
    |m'| == |m| && forall p :: 0 <= p < |m| && m'[p] != m[p] ==> InLinks(order, p)
  }

  function With<T>(order: seq<T>, k: int, x: T): (r: seq<T>)
    requires 0 <= k <= |order|
    ensures |r| == |order| + 1
    ensures forall j :: 0 <= j < |r| ==> r[j] == if j < k then order[j] else if j == k then x else order[j-1]
  {
    order[..k] + [x] + order[k..]
  }

  lemma WithoutRest<T>(order: seq<T>, k: int)
    requires 0 <= k < |order|
    ensures forall x :: x in order ==> x == order[k] || x in Without(order, k)
    ensures forall x :: x in Without(order, k) ==> x in order
  {
  }

  lemma WithRest<T>(order: seq<T>, k: int, x: T)
    requires 0 <= k <= |order|
    ensures forall y :: y in With(order, k, x) <==> y == x || y in order
  {
    var r := With(order, k, x);
    assert r[k] == x;
    forall y | y in order ensures y in r {
      var j :| 0 <= j < |order| && order[j] == y;
      assert r[if j < k then j else j + 1] == y;
    }
  }

  /** mb_remove_from_size_unsafe on the k-th free piece. */
  function Unlink(m: Mem, order: seq<int>, k: int): (r: Mem)
    requires forall j :: 0 <= j < |order| ==> 0 <= order[j] && order[j] + MP_MIN_SIZE <= |m|
    requires 0 <= k < |order|
    ensures |r| == |m|
  {
    var a := if k + 1 < |order| then Store(m, order[k+1] + 8, 8, Link(PrevLink(order, k))) else m;
    if k > 0 then Store(a, order[k-1] + 16, 8, Link(NextLink(order, k))) else a
  }

  lemma ApartFromOthers(m: Mem, head: int, order: seq<int>, k: int, l: int)
    requires Listed(m, head, order) && 0 <= k < |order| && 0 <= l < |order| && k != l
    ensures Apart(order[k], order[l])
  {
    assert Apart(order[k], order[l]) || Apart(order[l], order[k]);
  }

  /** What unlinking the k-th piece does to the links of the l-th. */
  lemma UnlinkCells(m: Mem, head: int, order: seq<int>, k: int, l: int)
    requires Listed(m, head, order) && 0 <= k < |order| && 0 <= l < |order| && k != l
    ensures var r, o := Unlink(m, order, k), order[l];
            && r[o + 8] == (if l == k + 1 then Link(PrevLink(order, k)) else m[o + 8])
            && r[o + 16] == (if l == k - 1 then Link(NextLink(order, k)) else m[o + 16])
  {
    if k + 1 < |order| && l != k + 1 {
      ApartFromOthers(m, head, order, k + 1, l);
    }
    if k > 0 && l != k - 1 {
      ApartFromOthers(m, head, order, k - 1, l);
    }
  }

  lemma UnlinkAt(m: Mem, head: int, order: seq<int>, k: int, j: int)
    requires Listed(m, head, order) && 0 <= k < |order| && 0 <= j < |order| - 1
    ensures LinksAt(Unlink(m, order, k), Without(order, k), j)
  {
    var l := if j < k then j else j + 1;
    UnlinkCells(m, head, order, k, l);
    assert LinksAt(m, order, l);
    WithoutNeighbours(order, k, j);
  }

  lemma WithoutNeighbours(order: seq<int>, k: int, j: int)
    requires 0 <= k < |order| && 0 <= j < |order| - 1
    ensures var l, o := if j < k then j else j + 1, Without(order, k);
            && o[j] == order[l]
            && PrevLink(o, j) == (if l == k + 1 then PrevLink(order, k) else PrevLink(order, l))
            && NextLink(o, j) == (if l == k - 1 then NextLink(order, k) else NextLink(order, l))
  {
  }

  lemma UnlinkListed(m: Mem, head: int, order: seq<int>, k: int)
    requires Listed(m, head, order) && 0 <= k < |order|
    ensures Listed(Unlink(m, order, k), if k == 0 then NextLink(order, 0) else head, Without(order, k))
    ensures OnlyLinks(m, Unlink(m, order, k), order)
  {
    forall j | 0 <= j < |order| - 1 ensures LinksAt(Unlink(m, order, k), Without(order, k), j) {
      UnlinkAt(m, head, order, k, j);
    }
  }

  /** mb_add_to_size_unsafe, inserting x as the k-th free piece. */
  function Relink(m: Mem, order: seq<int>, k: int, x: int): (r: Mem)
    requires forall j :: 0 <= j < |order| ==> 0 <= order[j] && order[j] + MP_MIN_SIZE <= |m|
    requires 0 <= k <= |order| && 0 <= x && x + MP_MIN_SIZE <= |m|
    ensures |r| == |m|
  {
    var w := With(order, k, x);
    var a := if k > 0 then Store(m, order[k-1] + 16, 8, Link(x + 8)) else m;
    var b := Store(Store(a, x + 16, 8, Link(NextLink(w, k))), x + 8, 8, Link(PrevLink(w, k)));
    if k < |order| then Store(b, order[k] + 8, 8, Link(x + 8)) else b
  }

  lemma RelinkCells(m: Mem, head: int, order: seq<int>, k: int, x: int, l: int)
    requires Listed(m, head, order) && 0 <= k <= |order| && 0 <= x && x + MP_MIN_SIZE <= |m| && 0 <= l < |order|
    requires forall i :: 0 <= i < |order| ==> Apart(order[i], x)
    ensures var r, o := Relink(m, order, k, x), order[l];
            && r[o + 8] == (if l == k then Link(x + 8) else m[o + 8])
            && r[o + 16] == (if l == k - 1 then Link(x + 8) else m[o + 16])
  {
    if k < |order| && l != k {
      ApartFromOthers(m, head, order, k, l);
    }
    if k > 0 && l != k - 1 {
      ApartFromOthers(m, head, order, k - 1, l);
    }
  }

  lemma WithNeighbours(order: seq<int>, k: int, x: int, j: int)
    requires 0 <= k <= |order| && 0 <= j <= |order| && j != k
    ensures var l, w := if j < k then j else j - 1, With(order, k, x);
            && w[j] == order[l]
            && PrevLink(w, j) == (if l == k then x + 8 else PrevLink(order, l))
            && NextLink(w, j) == (if l == k - 1 then x + 8 else NextLink(order, l))
  {
  }

  lemma RelinkAt(m: Mem, head: int, order: seq<int>, k: int, x: int, j: int)
    requires Listed(m, head, order) && 0 <= k <= |order| && 0 <= x && x + MP_MIN_SIZE <= |m| && 0 <= j <= |order|
    requires forall i :: 0 <= i < |order| ==> Apart(order[i], x)
    ensures LinksAt(Relink(m, order, k, x), With(order, k, x), j)
  {
    hide Relink, PrevLink, NextLink, With;
    if j != k {
      var l := if j < k then j else j - 1;
      RelinkCells(m, head, order, k, x, l);
      WithNeighbours(order, k, x, j);
      assert LinksAt(m, order, l);
    } else {
      RelinkNew(m, head, order, k, x);
    }
  }

  /** The links of the new piece itself. */
  lemma RelinkNew(m: Mem, head: int, order: seq<int>, k: int, x: int)
    requires Listed(m, head, order) && 0 <= k <= |order| && 0 <= x && x + MP_MIN_SIZE <= |m|
    requires forall i :: 0 <= i < |order| ==> Apart(order[i], x)
    ensures LinksAt(Relink(m, order, k, x), With(order, k, x), k)
  {
    assert With(order, k, x)[k] == x;
    assert k > 0 ==> Apart(order[k-1], x);
    assert k < |order| ==> Apart(order[k], x);
  }

  lemma RelinkListed(m: Mem, head: int, order: seq<int>, k: int, x: int)
    requires Listed(m, head, order) && 0 <= k <= |order| && 0 <= x && x + MP_MIN_SIZE <= |m|
    requires forall i :: 0 <= i < |order| ==> Apart(order[i], x)
    ensures Listed(Relink(m, order, k, x), if k == 0 then x + 8 else head, With(order, k, x))
    ensures OnlyLinks(m, Relink(m, order, k, x), With(order, k, x))
  {
    hide Relink, With, LinksAt;
    var w := With(order, k, x);
    WithApart(m, head, order, k, x);
    forall j | 0 <= j < |w| ensures LinksAt(Relink(m, order, k, x), w, j) {
      RelinkAt(m, head, order, k, x, j);
    }
    RelinkOnly(m, order, k, x);
  }

  lemma WithApart(m: Mem, head: int, order: seq<int>, k: int, x: int)
    requires Listed(m, head, order) && 0 <= k <= |order| && 0 <= x && x + MP_MIN_SIZE <= |m|
    requires forall i :: 0 <= i < |order| ==> Apart(order[i], x)
    ensures var w := With(order, k, x);
            && (forall j :: 0 <= j < |w| ==> 0 <= w[j] && w[j] + MP_MIN_SIZE <= |m|)
            && (forall i, j :: 0 <= i < j < |w| ==> Apart(w[i], w[j]))
            && w[0] == if k == 0 then x else order[0]
  {
    hide LinksAt;
    var w := With(order, k, x);
    forall i, j | 0 <= i < j < |w| ensures Apart(w[i], w[j]) {
      var a, b := if i < k then i else i - 1, if j < k then j else j - 1;
      if i != k && j != k {
        assert w[i] == order[a] && w[j] == order[b] && Apart(order[a], order[b]);
      } else if i == k {
        assert w[j] == order[b] && Apart(order[b], x);
      } else {
        assert w[i] == order[a] && Apart(order[a], x);
      }
    }
  }

  lemma RelinkOnly(m: Mem, order: seq<int>, k: int, x: int)
    requires forall j :: 0 <= j < |order| ==> 0 <= order[j] && order[j] + MP_MIN_SIZE <= |m|
    requires 0 <= k <= |order| && 0 <= x && x + MP_MIN_SIZE <= |m|
    ensures OnlyLinks(m, Relink(m, order, k, x), With(order, k, x))
  {
    var w, m' := With(order, k, x), Relink(m, order, k, x);
    forall p | 0 <= p < |m| && m'[p] != m[p] ensures InLinks(w, p) {
      assert w[k] == x;
      assert k > 0 ==> w[k-1] == order[k-1];
      assert k < |order| ==> w[k+1] == order[k];
    }
  }
}
