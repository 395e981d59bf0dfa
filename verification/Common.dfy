/** Virtual addresses, bytes of memory, and sums over finite sets, shared by every layer. */
module Common {
  datatype Option<+T> = None | Some(value: T)

  newtype byte = x | 0 <= x < 256

  /** A virtual address: a table of the address book and a cell of that table. */
  datatype Vaddr = Vaddr(table: nat, cell: nat)

  const UINT64_MAX: nat := 0xFFFF_FFFF_FFFF_FFFF
  const NULL_VADDR: Vaddr := Vaddr(UINT64_MAX, UINT64_MAX)

  /**
   One byte of memory. A value wider than a byte is kept in the first byte it covers, and Rest in the others, so
   that writing over any part of it destroys it.
   */
  datatype Cell =
    | Raw(b: byte)
    | Tag(size: int, alloc: bool)  // a header or footer, 8 bytes
    | Link(to: int)                // a pointer to the body of a free piece, 8 bytes
    | Va(v: Vaddr)                 // the virtual address stored in an allocated piece, 16 bytes
    | Owner(mb: nat)               // a pointer to a memory block, 8 bytes
    | Rest

  /** The references that cs_visit_obj pushes: those that are not null, in order. */
  function NonNull(refs: seq<Vaddr>): (r: seq<Vaddr>)
    ensures forall b :: b in r <==> b in refs && b != NULL_VADDR
    ensures |r| <= |refs|
  {
    if refs == [] then []
    else if refs[0] == NULL_VADDR then NonNull(refs[1..])
    else [refs[0]] + NonNull(refs[1..])
  }

  /** gc_status_code: what the collector knows of an object. */
  datatype Status = NewlyAdded | Unvisited | InProgress | Visited

  ghost function Elems(q: seq<Vaddr>): set<Vaddr> {
    set v | v in q
  }

  ghost predicate NoRepeats<T>(q: seq<T>) {
    forall i, j :: 0 <= i < j < |q| ==> q[i] != q[j]
  }

  /** q without its k-th element. */
  function Without<T>(q: seq<T>, k: int): (r: seq<T>)
    requires 0 <= k < |q|
    ensures |r| == |q| - 1
    ensures forall j :: 0 <= j < |r| ==> r[j] == q[if j < k then j else j + 1]
  {
    q[..k] + q[k+1..]
  }

  lemma SomeOf<T>(s: set<T>) returns (x: T)
    requires s != {}
    ensures x in s
  {
    x :| x in s;
  }

  /** The sum of w over s. */
  ghost function Sum<T(!new)>(s: set<T>, w: T -> nat): nat {
    if s == {} then 0 else var x :| x in s; w(x) + Sum(s - {x}, w)
  }

  lemma {:induction false} SumRemove<T(!new)>(s: set<T>, w: T -> nat, y: T)
    requires y in s
    ensures Sum(s, w) == w(y) + Sum(s - {y}, w)
    decreases |s|
  {
    var x :| x in s && Sum(s, w) == w(x) + Sum(s - {x}, w);
    if x != y {
      SumRemove(s - {x}, w, y);
      SumRemove(s - {y}, w, x);
      assert s - {x} - {y} == s - {y} - {x};
    }
  }

  lemma SumAdd<T(!new)>(s: set<T>, w: T -> nat, y: T)
    requires y !in s
    ensures Sum(s + {y}, w) == w(y) + Sum(s, w)
  {
    SumRemove(s + {y}, w, y);
    assert s + {y} - {y} == s;
  }

  lemma {:induction false} SumSame<T(!new)>(s: set<T>, w: T -> nat, u: T -> nat)
    requires forall x :: x in s ==> w(x) == u(x)
    ensures Sum(s, w) == Sum(s, u)
    decreases |s|
  {
    if s != {} {
      var x :| x in s;
      SumRemove(s, w, x);
      SumRemove(s, u, x);
      SumSame(s - {x}, w, u);
    }
  }

  // Division, of numbers whose product with the divisor is all that matters.

  lemma Quotient(y: nat, d: nat, n: nat)
    requires d > 0 && n * d <= y < n * d + d
    ensures y / d == n
  {
    var q := y / d;
    assert y == q * d + y % d;
    NextMultiple(q, n, d);
    NextMultiple(n, q, d);
  }

  lemma NextMultiple(a: nat, b: nat, d: nat)
    ensures a < b ==> a * d + d <= b * d
  {
    if a < b {
      Multiple(a + 1, b, d);
      assert (a + 1) * d == a * d + d;
    }
  }

  lemma {:induction false} Multiple(a: nat, b: nat, d: nat)
    requires a <= b
    ensures a * d <= b * d
    decreases b - a
  {
    if a < b {
      Multiple(a, b - 1, d);
      assert b * d == (b - 1) * d + d;
    }
  }
}
