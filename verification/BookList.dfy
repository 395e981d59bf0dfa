/** The doubly linked, index-based list of the tables of an address book that have space. */
module BookList {
  import opened Common

  /** ADB_NULL_INDEX. */
  const NIL: int := -1

  /** An entry of the book; A is what stands for its address table. */
  datatype Entry<A> = Entry(inFreeList: bool, next: int, prev: int, adt: A)

  /** head and the entries' links hold exactly the indices in order, front first; other entries have no links. */
  ghost predicate Linked<A>(book: seq<Entry<A>>, head: int, order: seq<int>) {
    && (forall k :: 0 <= k < |order| ==> 0 <= order[k] < |book|)
    && (forall k, l :: 0 <= k < l < |order| ==> order[k] != order[l])
    && head == (if order == [] then NIL else order[0])
    && (forall k {:trigger LinkedAt(book, order, k)} :: 0 <= k < |order| ==> LinkedAt(book, order, k))
    && (forall i :: 0 <= i < |book| ==> (book[i].inFreeList <==> i in order))
    && (forall i :: 0 <= i < |book| && !book[i].inFreeList ==> book[i].prev == NIL && book[i].next == NIL)
  }

  /** The k-th listed entry points to its neighbours. */
  ghost predicate LinkedAt<A>(book: seq<Entry<A>>, order: seq<int>, k: int)
    requires 0 <= k < |order| && 0 <= order[k] < |book|
  {
    && book[order[k]].prev == (if k == 0 then NIL else order[k-1])
    && book[order[k]].next == (if k == |order|-1 then NIL else order[k+1])
  }

  ghost predicate SameTables<A>(book: seq<Entry<A>>, book': seq<Entry<A>>) {
    |book'| == |book| && forall i :: 0 <= i < |book| ==> book'[i].adt == book[i].adt
  }

  /** unsafe_adb_push_free_list: the book with entry i pushed; the new head is i. */
  function Push<A>(book: seq<Entry<A>>, head: int, i: int): (r: seq<Entry<A>>)
    requires 0 <= i < |book| && (head == NIL || 0 <= head < |book|)
    ensures |r| == |book|
  {
    var b := if head != NIL then book[head := book[head].(prev := i)] else book;
    b[i := b[i].(prev := NIL, next := head, inFreeList := true)]
  }

  /** The unlinking half of adb_try_removal. */
  function Unlink<A>(book: seq<Entry<A>>, i: int): (r: seq<Entry<A>>)
    requires 0 <= i < |book|
    requires book[i].prev == NIL || 0 <= book[i].prev < |book|
    requires book[i].next == NIL || 0 <= book[i].next < |book|
    ensures |r| == |book|
  {
    var e := book[i];
    var b := if e.prev != NIL then book[e.prev := book[e.prev].(next := e.next)] else book;
    var c := if e.next != NIL then b[e.next := b[e.next].(prev := e.prev)] else b;
    c[i := c[i].(prev := NIL, next := NIL, inFreeList := false)]
  }

  function HeadAfterUnlink<A>(book: seq<Entry<A>>, head: int, i: int): int
    requires 0 <= i < |book|
  {
    if book[i].prev != NIL then head else book[i].next
  }

  /** An entry that is not listed may join the book. */
  lemma GrownLinks<A>(book: seq<Entry<A>>, head: int, order: seq<int>, x: Entry<A>)
    requires Linked(book, head, order) && !x.inFreeList && x.prev == NIL && x.next == NIL
    ensures Linked(book + [x], head, order) && |book| !in order
  {
    var b := book + [x];
    forall k | 0 <= k < |order| ensures LinkedAt(b, order, k) {
      assert LinkedAt(book, order, k);
    }
  }

  lemma PushLinks<A>(book: seq<Entry<A>>, head: int, order: seq<int>, i: int)
    requires Linked(book, head, order) && 0 <= i < |book| && i !in order
    ensures Linked(Push(book, head, i), i, [i] + order)
    ensures SameTables(book, Push(book, head, i))
  {
    var b, o := Push(book, head, i), [i] + order;
    forall k | 0 <= k < |o| ensures LinkedAt(b, o, k) {
      if k > 0 {
        assert o[k] == order[k-1] && LinkedAt(book, order, k-1);
      }
    }
    forall x | 0 <= x < |b| ensures b[x].inFreeList <==> x in o {
      assert x in o <==> x == i || x in order;
    }
  }

  lemma NeighboursExist<A>(book: seq<Entry<A>>, head: int, order: seq<int>, k: nat)
    requires Linked(book, head, order) && k < |order|
    ensures var e := book[order[k]];
            && e.prev == (if k == 0 then NIL else order[k-1]) && (e.prev == NIL || 0 <= e.prev < |book|)
            && e.next == (if k == |order|-1 then NIL else order[k+1]) && (e.next == NIL || 0 <= e.next < |book|)
  {
    assert LinkedAt(book, order, k);
  }

  /** What unlinking the k-th entry does to the l-th. */
  lemma UnlinkAt<A>(book: seq<Entry<A>>, head: int, order: seq<int>, k: nat, l: nat)
    requires Linked(book, head, order) && k < |order| && l < |order| && k != l
    requires (book[order[k]].prev == NIL || 0 <= book[order[k]].prev < |book|)
    requires (book[order[k]].next == NIL || 0 <= book[order[k]].next < |book|)
    ensures var b, e := Unlink(book, order[k]), book[order[l]];
            b[order[l]] == e.(prev := if l == k + 1 then book[order[k]].prev else e.prev,
                              next := if l + 1 == k then book[order[k]].next else e.next)
  {
    NeighboursExist(book, head, order, k);
    assert order[k] != order[l];
    assert l < k - 1 ==> order[l] != order[k-1];
    assert l > k + 1 ==> order[l] != order[k+1];
    assert l > k ==> k > 0 ==> order[k-1] != order[l];
    assert l < k ==> k + 1 < |order| ==> order[k+1] != order[l];
  }

  lemma UnlinkedLinks<A>(book: seq<Entry<A>>, head: int, order: seq<int>, k: nat, j: nat)
    requires Linked(book, head, order) && k < |order| && j < |order| - 1
    requires (book[order[k]].prev == NIL || 0 <= book[order[k]].prev < |book|)
    requires (book[order[k]].next == NIL || 0 <= book[order[k]].next < |book|)
    ensures var b, o := Unlink(book, order[k]), Without(order, k);
            0 <= o[j] < |b| && LinkedAt(b, o, j)
  {
    var l := if j < k then j else j + 1;
    NeighboursExist(book, head, order, k);
    NeighboursExist(book, head, order, l);
    UnlinkAt(book, head, order, k, l);
  }

  lemma ListedSomewhere<A>(book: seq<Entry<A>>, head: int, order: seq<int>, e: nat) returns (k: nat)
    requires Linked(book, head, order) && e < |book| && book[e].inFreeList
    ensures k < |order| && order[k] == e
  {
    k :| 0 <= k < |order| && order[k] == e;
  }

  lemma UnlinkFlags<A>(book: seq<Entry<A>>, head: int, order: seq<int>, k: nat)
    requires Linked(book, head, order) && k < |order|
    requires (book[order[k]].prev == NIL || 0 <= book[order[k]].prev < |book|)
    requires (book[order[k]].next == NIL || 0 <= book[order[k]].next < |book|)
    ensures var i, b := order[k], Unlink(book, order[k]);
            && SameTables(book, b) && b[i].prev == NIL && b[i].next == NIL
            && forall x :: 0 <= x < |book| ==> b[x].inFreeList == (x != i && book[x].inFreeList)
  {
  }

  lemma UnlinkLinks<A>(book: seq<Entry<A>>, head: int, order: seq<int>, k: nat)
    requires Linked(book, head, order) && k < |order|
    ensures var i := order[k];
            && (book[i].prev == NIL || 0 <= book[i].prev < |book|)
            && (book[i].next == NIL || 0 <= book[i].next < |book|)
            && SameTables(book, Unlink(book, i))
            && Linked(Unlink(book, i), HeadAfterUnlink(book, head, i), Without(order, k))
  {
    NeighboursExist(book, head, order, k);
    var o, b := Without(order, k), Unlink(book, order[k]);
    UnlinkFlags(book, head, order, k);
    WithoutIsRest(order, k);
    forall j | 0 <= j < |o| ensures LinkedAt(b, o, j) {
      UnlinkedLinks(book, head, order, k, j);
    }
  }

  lemma WithoutIsRest<T>(order: seq<T>, k: nat)
    requires k < |order|
    requires forall i, j :: 0 <= i < j < |order| ==> order[i] != order[j]
    ensures forall x :: x in Without(order, k) <==> x in order && x != order[k]
    ensures forall i, j :: 0 <= i < j < |order| - 1 ==> Without(order, k)[i] != Without(order, k)[j]
  {
    forall x | x in order && x != order[k] ensures x in Without(order, k) {
      var l :| 0 <= l < |order| && order[l] == x;
      assert Without(order, k)[if l < k then l else l - 1] == x;
    }
  }
}
