/** The broken collection: a deque in a chain of tables of equal size. */
module BrokenCollection {
  import opened Common

  /** One table of the chain. */
  class BcTable<T(0)> {
    const cells: array<T>
    var next: BcTable?<T>
    var prev: BcTable?<T>

    constructor (size: nat)
      ensures next == null && prev == null && fresh(cells) && cells.Length == size
    {
      cells := new T[size];
      next, prev := null, null;
    }
  }

  // ---------------------------------------------------------------------------- the sequence a chain stands for

  ghost function Flat<T>(tabs: seq<seq<T>>): seq<T> {
    if tabs == [] then [] else tabs[0] + Flat(tabs[1..])
  }

  lemma {:induction false} FlatAppend<T>(a: seq<seq<T>>, b: seq<seq<T>>)
    ensures Flat(a + b) == Flat(a) + Flat(b)
  {
    if a == [] {
      assert a + b == b;
    } else {
      FlatAppend(a[1..], b);
      assert (a + b)[0] == a[0] && (a + b)[1..] == a[1..] + b;
      Associative(a[0], Flat(a[1..]), Flat(b));
    }
  }

  lemma Associative<T>(x: seq<T>, y: seq<T>, z: seq<T>)
    ensures x + (y + z) == (x + y) + z
  {
  }

  lemma {:induction false} FlatLength<T>(tabs: seq<seq<T>>, size: nat)
    requires forall i :: 0 <= i < |tabs| ==> |tabs[i]| == size
    ensures |Flat(tabs)| == |tabs| * size
  {
    if tabs != [] {
      FlatLength(tabs[1..], size);
      assert |tabs| * size == (|tabs| - 1) * size + size;
    }
  }

  /** The cells from index start of the first table to index end of the last. */
  ghost function Window<T>(tabs: seq<seq<T>>, start: nat, end: nat): seq<T>
    requires tabs != [] && end <= |tabs[|tabs|-1]|
    requires start <= |Flat(tabs[..|tabs|-1])| + end
  {
    (Flat(tabs[..|tabs|-1]) + tabs[|tabs|-1][..end])[start..]
  }

  ghost predicate InWindow<T>(tabs: seq<seq<T>>, start: nat, end: nat) {
    tabs != [] && end <= |tabs[|tabs|-1]| && start <= |Flat(tabs[..|tabs|-1])| + end
  }

  ghost predicate Sized<T>(tabs: seq<seq<T>>, size: nat) {
    forall i :: 0 <= i < |tabs| ==> |tabs[i]| == size
  }

  /** Where the window stands empty. */
  lemma EmptyWindow<T>(tabs: seq<seq<T>>, start: nat, end: nat, size: nat)
    requires Sized(tabs, size) && InWindow(tabs, start, end) && start < size && end < size
    ensures Window(tabs, start, end) == [] <==> |tabs| == 1 && start == end
  {
    FlatLength(tabs[..|tabs|-1], size);
    if |tabs| > 1 {
      assert (|tabs| - 1) * size >= size;
    }
  }

  /** Writing the cell behind the window makes it longer. */
  lemma WriteBack<T>(tabs: seq<seq<T>>, start: nat, end: nat, x: T)
    requires InWindow(tabs, start, end) && end < |tabs[|tabs|-1]|
    ensures var n := |tabs| - 1; var tabs' := tabs[n := tabs[n][end := x]];
            InWindow(tabs', start, end + 1) && Window(tabs', start, end + 1) == Window(tabs, start, end) + [x]
  {
    var n := |tabs| - 1;
    var tabs' := tabs[n := tabs[n][end := x]];
    assert tabs'[..n] == tabs[..n];
    assert tabs'[n][..end + 1] == tabs[n][..end] + [x];
  }

  /** A full last table followed by a table of which nothing is used. */
  lemma NextTable<T>(tabs: seq<seq<T>>, start: nat, t: seq<T>)
    requires tabs != [] && InWindow(tabs, start, |tabs[|tabs|-1]|)
    ensures InWindow(tabs + [t], start, 0) && Window(tabs + [t], start, 0) == Window(tabs, start, |tabs[|tabs|-1]|)
  {
    var n := |tabs| - 1;
    assert (tabs + [t])[..n + 1] == tabs[..n] + [tabs[n]];
    FlatAppend(tabs[..n], [tabs[n]]);
    assert Flat([tabs[n]]) == tabs[n] + Flat([]);
    assert tabs[n][..|tabs[n]|] == tabs[n];
  }

  /** A first table of which nothing is used. */
  lemma PrevTable<T>(tabs: seq<seq<T>>, end: nat, t: seq<T>)
    requires InWindow(tabs, 0, end)
    ensures InWindow([t] + tabs, |t|, end) && Window([t] + tabs, |t|, end) == Window(tabs, 0, end)
  {
    var n := |tabs| - 1;
    assert ([t] + tabs)[..n + 1] == [t] + tabs[..n];
    assert ([t] + tabs)[n + 1] == tabs[n];
  }

  /** Writing the cell in front of the window. */
  lemma WriteFront<T>(tabs: seq<seq<T>>, start: nat, end: nat, x: T)
    requires InWindow(tabs, start, end) && 0 < start <= |tabs[0]| && (|tabs| == 1 ==> start <= end)
    ensures var tabs' := tabs[0 := tabs[0][start - 1 := x]];
            InWindow(tabs', start - 1, end) && Window(tabs', start - 1, end) == [x] + Window(tabs, start, end)
  {
    var n := |tabs| - 1;
    var tabs' := tabs[0 := tabs[0][start - 1 := x]];
    if n == 0 {
      assert Flat(tabs[..0]) == [] == Flat(tabs'[..0]);
    } else {
      assert tabs[..n][1..] == tabs'[..n][1..];
      assert Flat(tabs[..n]) == tabs[0] + Flat(tabs[..n][1..]);
      assert Flat(tabs'[..n]) == tabs'[0] + Flat(tabs[..n][1..]);
    }
    var f, f' := Flat(tabs[..n]) + tabs[n][..end], Flat(tabs'[..n]) + tabs'[n][..end];
    assert f' == f[start - 1 := x];
    assert f'[start - 1..] == [x] + f[start..];
  }

  /** The first element of the window. */
  lemma ReadFront<T>(tabs: seq<seq<T>>, start: nat, end: nat)
    requires InWindow(tabs, start, end) && start < |tabs[0]| && (|tabs| == 1 ==> start < end)
    requires Window(tabs, start, end) != []
    ensures Window(tabs, start, end)[0] == tabs[0][start]
    ensures InWindow(tabs, start + 1, end) && Window(tabs, start + 1, end) == Window(tabs, start, end)[1..]
  {
    var n := |tabs| - 1;
    if n > 0 {
      assert Flat(tabs[..n]) == tabs[0] + Flat(tabs[..n][1..]);
    } else {
      assert Flat(tabs[..0]) == [];
    }
  }

  /** The last element of the window. */
  lemma ReadBack<T>(tabs: seq<seq<T>>, start: nat, end: nat)
    requires InWindow(tabs, start, end) && end > 0 && Window(tabs, start, end) != []
    ensures var w := Window(tabs, start, end);
            && InWindow(tabs, start, end - 1)
            && Window(tabs, start, end - 1) == w[..|w|-1] && w[|w|-1] == tabs[|tabs|-1][end - 1]
  {
    var n := |tabs| - 1;
    assert tabs[n][..end] == tabs[n][..end - 1] + [tabs[n][end - 1]];
  }

  /** Dropping a last table of which nothing is used. */
  lemma DropLast<T>(tabs: seq<seq<T>>, start: nat)
    requires |tabs| > 1 && InWindow(tabs, start, 0)
    ensures var r := tabs[..|tabs|-1];
            InWindow(r, start, |r[|r|-1]|) && Window(r, start, |r[|r|-1]|) == Window(tabs, start, 0)
  {
    var r := tabs[..|tabs|-1];
    var n := |r| - 1;
    assert r == r[..n] + [r[n]];
    FlatAppend(r[..n], [r[n]]);
    assert Flat([r[n]]) == r[n] + Flat([]);
    assert r[n][..|r[n]|] == r[n];
  }

  /** Dropping a first table of which nothing is used. */
  lemma DropFirst<T>(tabs: seq<seq<T>>, end: nat)
    requires |tabs| > 1 && InWindow(tabs, |tabs[0]|, end)
    ensures InWindow(tabs[1..], 0, end) && Window(tabs[1..], 0, end) == Window(tabs, |tabs[0]|, end)
  {
    var n := |tabs| - 1;
    assert tabs[..n][1..] == tabs[1..][..n - 1];
    assert Flat(tabs[..n]) == tabs[0] + Flat(tabs[..n][1..]);
  }

  /** How many tables a window reaches over. */
  lemma WindowTables<T>(tabs: seq<seq<T>>, start: nat, end: nat, size: nat)
    requires Sized(tabs, size) && InWindow(tabs, start, end) && end < size
    ensures |tabs| == (start + |Window(tabs, start, end)|) / size + 1
  {
    var n := |tabs| - 1;
    FlatLength(tabs[..n], size);
    var y := start + |Window(tabs, start, end)|;
    assert y == n * size + end;
    Quotient(y, size, n);
  }

  // ---------------------------------------------------------------------------- a window into a longer chain

  ghost predicate InView<T>(vals: seq<seq<T>>, fi: nat, li: nat, start: nat, end: nat) {
    fi <= li < |vals| && InWindow(vals[fi..li + 1], start, end)
  }

  /** What the tables fi to li hold, from start of the first to end of the last. */
  ghost function View<T>(vals: seq<seq<T>>, fi: nat, li: nat, start: nat, end: nat): seq<T>
    requires InView(vals, fi, li, start, end)
  {
    Window(vals[fi..li + 1], start, end)
  }

  lemma ViewWriteBack<T>(vals: seq<seq<T>>, fi: nat, li: nat, start: nat, end: nat, x: T)
    requires InView(vals, fi, li, start, end) && end < |vals[li]|
    ensures var vals' := vals[li := vals[li][end := x]];
            InView(vals', fi, li, start, end + 1)
            && View(vals', fi, li, start, end + 1) == View(vals, fi, li, start, end) + [x]
  {
    var tabs := vals[fi..li + 1];
    WriteBack(tabs, start, end, x);
    assert vals[li := vals[li][end := x]][fi..li + 1] == tabs[|tabs| - 1 := tabs[|tabs| - 1][end := x]];
  }

  lemma ViewNext<T>(vals: seq<seq<T>>, fi: nat, li: nat, start: nat)
    requires li + 1 < |vals| && InView(vals, fi, li, start, |vals[li]|)
    ensures InView(vals, fi, li + 1, start, 0)
            && View(vals, fi, li + 1, start, 0) == View(vals, fi, li, start, |vals[li]|)
  {
    NextTable(vals[fi..li + 1], start, vals[li + 1]);
    assert vals[fi..li + 2] == vals[fi..li + 1] + [vals[li + 1]];
  }

  lemma ViewWriteFront<T>(vals: seq<seq<T>>, fi: nat, li: nat, start: nat, end: nat, x: T)
    requires InView(vals, fi, li, start, end) && 0 < start <= |vals[fi]| && (fi == li ==> start <= end)
    ensures var vals' := vals[fi := vals[fi][start - 1 := x]];
            InView(vals', fi, li, start - 1, end)
            && View(vals', fi, li, start - 1, end) == [x] + View(vals, fi, li, start, end)
  {
    var tabs := vals[fi..li + 1];
    WriteFront(tabs, start, end, x);
    assert vals[fi := vals[fi][start - 1 := x]][fi..li + 1] == tabs[0 := tabs[0][start - 1 := x]];
  }

  lemma ViewPrev<T>(vals: seq<seq<T>>, fi: nat, li: nat, end: nat)
    requires InView(vals, fi, li, 0, end) && fi > 0
    ensures InView(vals, fi - 1, li, |vals[fi - 1]|, end)
            && View(vals, fi - 1, li, |vals[fi - 1]|, end) == View(vals, fi, li, 0, end)
  {
    PrevTable(vals[fi..li + 1], end, vals[fi - 1]);
    assert vals[fi - 1..li + 1] == [vals[fi - 1]] + vals[fi..li + 1];
  }

  lemma ViewReadFront<T>(vals: seq<seq<T>>, fi: nat, li: nat, start: nat, end: nat)
    requires InView(vals, fi, li, start, end) && start < |vals[fi]| && (fi == li ==> start < end)
    requires View(vals, fi, li, start, end) != []
    ensures View(vals, fi, li, start, end)[0] == vals[fi][start]
    ensures InView(vals, fi, li, start + 1, end)
            && View(vals, fi, li, start + 1, end) == View(vals, fi, li, start, end)[1..]
  {
    ReadFront(vals[fi..li + 1], start, end);
  }

  lemma ViewReadBack<T>(vals: seq<seq<T>>, fi: nat, li: nat, start: nat, end: nat)
    requires InView(vals, fi, li, start, end) && end > 0 && View(vals, fi, li, start, end) != []
    ensures end <= |vals[li]| && InView(vals, fi, li, start, end - 1)
    ensures View(vals, fi, li, start, end) == View(vals, fi, li, start, end - 1) + [vals[li][end - 1]]
  {
    ReadBack(vals[fi..li + 1], start, end);
  }

  lemma ViewDropLast<T>(vals: seq<seq<T>>, fi: nat, li: nat, start: nat)
    requires fi < li && InView(vals, fi, li, start, 0)
    ensures InView(vals, fi, li - 1, start, |vals[li - 1]|)
            && View(vals, fi, li - 1, start, |vals[li - 1]|) == View(vals, fi, li, start, 0)
  {
    var tabs := vals[fi..li + 1];
    DropLast(tabs, start);
    assert vals[fi..li] == tabs[..|tabs| - 1];
  }

  lemma ViewDropFirst<T>(vals: seq<seq<T>>, fi: nat, li: nat, end: nat)
    requires fi < li < |vals| && InView(vals, fi, li, |vals[fi]|, end)
    ensures InView(vals, fi + 1, li, 0, end)
            && View(vals, fi + 1, li, 0, end) == View(vals, fi, li, |vals[fi]|, end)
  {
    var tabs := vals[fi..li + 1];
    DropFirst(tabs, end);
    assert vals[fi + 1..li + 1] == tabs[1..];
  }

  /** The table in front of a longer chain does not matter to a window behind it. */
  lemma ViewTail<T>(vals: seq<seq<T>>, fi: nat, li: nat, start: nat, end: nat)
    requires 0 < fi <= li < |vals|
    ensures InView(vals, fi, li, start, end) <==> InView(vals[1..], fi - 1, li - 1, start, end)
    ensures InView(vals, fi, li, start, end)
            ==> View(vals[1..], fi - 1, li - 1, start, end) == View(vals, fi, li, start, end)
  {
    assert vals[1..][fi - 1..li] == vals[fi..li + 1];
  }

  /** Tables outside the window do not matter. */
  lemma ViewSame<T>(vals: seq<seq<T>>, fi: nat, li: nat, vals': seq<seq<T>>, fi': nat, li': nat, start: nat, end: nat)
    requires InView(vals, fi, li, start, end) && fi' <= li' < |vals'| && vals'[fi'..li' + 1] == vals[fi..li + 1]
    ensures InView(vals', fi', li', start, end) && View(vals', fi', li', start, end) == View(vals, fi, li, start, end)
  {
  }

  /** A window that starts behind the cells in use of a table reaches into the next. */
  lemma PastEnd<T>(vals: seq<seq<T>>, fi: nat, li: nat, start: nat, end: nat)
    requires InView(vals, fi, li, start, end) && end < start
    ensures fi < li
  {
  }

  lemma ViewEmpty<T>(vals: seq<seq<T>>, fi: nat, li: nat, start: nat, end: nat, size: nat)
    requires InView(vals, fi, li, start, end) && Sized(vals, size) && start < size && end <= size
    ensures View(vals, fi, li, start, end) == [] ==> fi == li || (fi + 1 == li && end == 0)
    ensures end < size ==> (View(vals, fi, li, start, end) == [] <==> fi == li && start == end)
    ensures fi == li ==> start <= end
  {
    var tabs := vals[fi..li + 1];
    FlatLength(tabs[..|tabs|-1], size);
    if end < size {
      EmptyWindow(tabs, start, end, size);
    }
    assert |tabs| > 1 ==> (|tabs| - 1) * size >= size;
  }

  // ---------------------------------------------------------------------------- the collection

  class Collection<T(0)> {
    const tableSize: nat
    const deleteEmpty: bool
    var first: BcTable<T>
    var firstStart: nat
    var last: BcTable<T>
    var lastEnd: nat

    ghost var chain: seq<BcTable<T>>  // all tables, used or not
    ghost var vals: seq<seq<T>>       // what they hold
    ghost var fi: nat                 // the index of first in the chain
    ghost var li: nat                 // the index of last
    ghost var Repr: set<object>

    ghost predicate TableAt(i: int)
      requires 0 <= i < |chain| == |vals|
      reads this`chain, this`vals, this`Repr, Repr
    {
      && chain[i] in Repr && chain[i].cells in Repr
      && chain[i].cells.Length == tableSize && chain[i].cells[..] == vals[i]
      && chain[i].next == (if i + 1 < |chain| then chain[i+1] else null)
      && chain[i].prev == (if i > 0 then chain[i-1] else null)
    }

    ghost predicate Distinct()
      reads this`chain
    {
      forall i, j :: 0 <= i < j < |chain| ==> chain[i] != chain[j] && chain[i].cells != chain[j].cells
    }

    /** The tables form a chain of their own. */
    ghost predicate Chained()
      reads this`chain, this`vals, this`Repr, Repr
    {
      && this !in Repr && |vals| == |chain| && tableSize > 0
      && (forall i {:trigger TableAt(i)} :: 0 <= i < |chain| ==> TableAt(i))
      && Distinct()
      && Sized(vals, tableSize)
    }

    /** The window reaches from first to last. */
    ghost predicate Spanned()
      reads this
    {
      && fi <= li < |chain| && |vals| == |chain| && first == chain[fi] && last == chain[li]
      && InView(vals, fi, li, firstStart, lastEnd)
      && (deleteEmpty ==> fi == 0 && li == |chain| - 1)
    }

    ghost predicate InPlace()
      reads this
    {
      Spanned() && firstStart < tableSize && lastEnd < tableSize
    }

    ghost predicate Valid()
      reads this, Repr
    {
      Chained() && InPlace()
    }

    /** The elements, front first. */
    ghost function Contents(): seq<T>
      reads this
    {
      if Spanned() then View(vals, fi, li, firstStart, lastEnd) else []
    }

    constructor (tableSize: nat, deleteEmpty: bool)
      requires tableSize > 0
      ensures Valid() && fresh(Repr) && this.tableSize == tableSize && this.deleteEmpty == deleteEmpty
      ensures Contents() == [] && |chain| == 1
    {
      var table := new BcTable<T>(tableSize);
      this.tableSize, this.deleteEmpty := tableSize, deleteEmpty;
      first, firstStart, last, lastEnd := table, 0, table, 0;
      chain, vals, fi, li := [table], [table.cells[..]], 0, 0;
      Repr := {table, table.cells};
      new;
      assert TableAt(0);
      assert vals[0..1] == vals;
    }

    /** Writes a cell of table k of the chain. */
    method WriteCell(t: BcTable<T>, i: nat, x: T, ghost k: nat)
      requires Chained() && k < |chain| && t == chain[k] && i < tableSize
      modifies t.cells, this`vals
      ensures Chained() && vals == old(vals)[k := old(vals)[k][i := x]]
    {
      assert TableAt(k);
      t.cells[i] := x;
      vals := vals[k := vals[k][i := x]];
      forall j | 0 <= j < |chain| ensures TableAt(j) {
        assert old(TableAt(j));
      }
    }

    /** A new table behind the last of the chain. */
    method Extend(t: BcTable<T>)
      requires Chained() && |chain| > 0 && t == chain[|chain|-1]
      modifies t, this`chain, this`vals, this`Repr
      ensures Chained() && fresh(Repr - old(Repr)) && old(Repr) <= Repr
      ensures |chain| == old(|chain|) + 1 && chain[..old(|chain|)] == old(chain)
      ensures vals[..old(|chain|)] == old(vals)
    {
      var table := new BcTable<T>(tableSize);
      assert TableAt(|chain| - 1);
      t.next := table;
      table.prev := t;
      chain, vals := chain + [table], vals + [table.cells[..]];
      Repr := Repr + {table, table.cells};
      forall j | 0 <= j < |chain| ensures TableAt(j) {
        assert j < |chain| - 1 ==> old(TableAt(j));
      }
    }

    /** A new table before the first of the chain. */
    method ExtendFront(t: BcTable<T>)
      requires Chained() && |chain| > 0 && t == chain[0]
      modifies t, this`chain, this`vals, this`Repr
      ensures Chained() && fresh(Repr - old(Repr)) && old(Repr) <= Repr
      ensures |chain| == old(|chain|) + 1 && chain[1..] == old(chain) && vals[1..] == old(vals)
    {
      var table := new BcTable<T>(tableSize);
      assert TableAt(0);
      t.prev := table;
      table.next := t;
      chain, vals := [table] + chain, [table.cells[..]] + vals;
      Repr := Repr + {table, table.cells};
      forall j | 0 <= j < |chain| ensures TableAt(j) {
        assert j > 0 ==> old(TableAt(j - 1));
      }
    }

    /** The last table of the chain is given back. */
    method CutLast(t: BcTable<T>)
      requires Chained() && |chain| > 1 && t == chain[|chain|-2]
      modifies t, this`chain, this`vals
      ensures Chained() && chain == old(chain)[..old(|chain|)-1] && vals == old(vals)[..old(|chain|)-1]
    {
      assert TableAt(|chain| - 2);
      t.next := null;
      chain, vals := chain[..|chain|-1], vals[..|vals|-1];
      forall j | 0 <= j < |chain| ensures TableAt(j) {
        assert old(TableAt(j));
      }
    }

    /** The first table of the chain is given back. */
    method CutFirst(t: BcTable<T>)
      requires Chained() && |chain| > 1 && t == chain[1]
      modifies t, this`chain, this`vals
      ensures Chained() && chain == old(chain)[1..] && vals == old(vals)[1..]
    {
      assert TableAt(1);
      t.prev := null;
      chain, vals := chain[1..], vals[1..];
      forall j | 0 <= j < |chain| ensures TableAt(j) {
        assert old(TableAt(j + 1));
      }
    }

    lemma TableFacts(i: nat)
      requires Chained() && i < |chain|
      ensures |vals| == |chain| && |vals[i]| == tableSize > 0 && chain[i] in Repr && chain[i].cells in Repr
      ensures chain[i].cells.Length == tableSize && chain[i].cells[..] == vals[i]
      ensures chain[i].next == (if i + 1 < |chain| then chain[i+1] else null)
      ensures chain[i].prev == (if i > 0 then chain[i-1] else null)
    {
      assert TableAt(i);
    }

    lemma PlaceFacts()
      requires InPlace()
      ensures Spanned() && firstStart < tableSize && lastEnd < tableSize
    {
    }

    lemma SpanFacts()
      requires Spanned()
      ensures fi <= li < |chain| && |vals| == |chain| && first == chain[fi] && last == chain[li]
      ensures InView(vals, fi, li, firstStart, lastEnd) && Contents() == View(vals, fi, li, firstStart, lastEnd)
      ensures deleteEmpty ==> fi == 0 && li == |chain| - 1
    {
    }

    lemma FactsSpan()
      requires fi <= li < |chain| && |vals| == |chain| && first == chain[fi] && last == chain[li]
      requires InView(vals, fi, li, firstStart, lastEnd)
      requires deleteEmpty ==> fi == 0 && li == |chain| - 1
      ensures Spanned() && Contents() == View(vals, fi, li, firstStart, lastEnd)
    {
    }

    lemma ValidFacts()
      requires Valid()
      ensures Chained() && InPlace() && this !in Repr && tableSize > 0
    {
    }

    lemma FactsValid()
      requires Chained() && Spanned() && firstStart < tableSize && lastEnd < tableSize
      ensures Valid()
    {
    }

    lemma WhenEmpty()
      requires Valid()
      ensures Contents() == [] <==> fi == li && firstStart == lastEnd
      ensures Contents() == [] <==> first == last && firstStart == lastEnd
      ensures fi == li ==> firstStart <= lastEnd
    {
      ViewEmpty(vals, fi, li, firstStart, lastEnd, tableSize);
      assert fi < li ==> chain[fi] != chain[li];
    }

    /** With deletion, the chain is as long as the elements need; bc_get_num_tables then gives this number. */
    lemma TablesAreNeeded()
      requires Valid() && deleteEmpty
      ensures |chain| == (firstStart + |Contents()|) / tableSize + 1
    {
      WindowTables(vals[fi..li + 1], firstStart, lastEnd, tableSize);
    }

    /** bc_empty. */
    method Empty() returns (r: bool)
      requires Valid()
      ensures r <==> Contents() == []
    {
      WhenEmpty();
      r := first == last && firstStart == lastEnd;
    }

    /** bc_push_back. A table is added only where the chain ends. */
    method PushBack(x: T)
      requires Valid()
      modifies this, Repr
      ensures Valid() && fresh(Repr - old(Repr)) && old(Repr) <= Repr
      ensures Contents() == old(Contents()) + [x]
      ensures |chain| == old(|chain|) + if old(lastEnd) + 1 == tableSize && old(li) + 1 == old(|chain|) then 1 else 0
    {
      hide *;
      ValidFacts();
      PlaceFacts();
      SpanFacts();
      TableFacts(li);
      ViewWriteBack(vals, fi, li, firstStart, lastEnd, x);
      WriteCell(last, lastEnd, x, li);
      lastEnd := lastEnd + 1;
      FactsSpan();
      if lastEnd == tableSize {
        StepOn();
      }
      FactsValid();
    }

    /** Last moves to the table behind it, of which nothing is used yet. */
    method StepOn()
      requires Chained() && Spanned() && this !in Repr && lastEnd == tableSize > 0
      modifies this, Repr
      ensures Chained() && Spanned() && fresh(Repr - old(Repr)) && old(Repr) <= Repr
      ensures Contents() == old(Contents()) && firstStart == old(firstStart) && lastEnd == 0
      ensures |chain| == old(|chain|) + if old(li) + 1 == old(|chain|) then 1 else 0
    {
      hide *;
      SpanFacts();
      TableFacts(li);
      if last.next == null {
        ghost var was := vals;
        Extend(last);
        assert vals[fi..li + 1] == vals[..|was|][fi..li + 1];
        ViewSame(was, fi, li, vals, fi, li, firstStart, lastEnd);
      }
      TableFacts(li);
      ViewNext(vals, fi, li, firstStart);
      last, lastEnd, li := last.next, 0, li + 1;
      FactsSpan();
    }

    /** bc_push_front. A table is added only where the chain starts. */
    method PushFront(x: T)
      requires Valid()
      modifies this, Repr
      ensures Valid() && fresh(Repr - old(Repr)) && old(Repr) <= Repr
      ensures Contents() == [x] + old(Contents())
      ensures |chain| == old(|chain|) + if old(firstStart) == 0 && old(fi) == 0 then 1 else 0
    {
      hide *;
      ValidFacts();
      PlaceFacts();
      SpanFacts();
      WhenEmpty();
      if firstStart == 0 {
        StepBack();
      }
      TableFacts(fi);
      ViewWriteFront(vals, fi, li, firstStart, lastEnd, x);
      firstStart := firstStart - 1;
      WriteCell(first, firstStart, x, fi);
      FactsSpan();
      FactsValid();
    }

    /** First moves to the table before it, of which nothing is used yet. */
    method StepBack()
      requires Chained() && InPlace() && this !in Repr && firstStart == 0
      modifies this, Repr
      ensures Chained() && fresh(Repr - old(Repr)) && old(Repr) <= Repr
      ensures fi < li < |chain| == |vals| && first == chain[fi] && last == chain[li] && lastEnd == old(lastEnd)
      ensures firstStart == tableSize && deleteEmpty ==> fi == 0 && li == |chain| - 1
      ensures firstStart == tableSize && InView(vals, fi, li, firstStart, lastEnd)
      ensures View(vals, fi, li, firstStart, lastEnd) == old(Contents())
      ensures |chain| == old(|chain|) + if old(fi) == 0 then 1 else 0
    {
      hide *;
      PlaceFacts();
      SpanFacts();
      TableFacts(fi);
      if first.prev == null {
        FirstTable();
      }
      TableFacts(fi);
      TableFacts(fi - 1);
      ViewPrev(vals, fi, li, lastEnd);
      first, firstStart, fi := first.prev, tableSize, fi - 1;
    }

    /** A table in front of the first, which becomes the second of the chain. */
    method FirstTable()
      requires Chained() && InPlace() && fi == 0
      modifies this`chain, this`vals, this`Repr, this`fi, this`li, Repr
      ensures Chained() && fresh(Repr - old(Repr)) && old(Repr) <= Repr
      ensures fi == old(fi) + 1 && li == old(li) + 1 && li < |chain| == |vals| == old(|chain|) + 1
      ensures chain[fi] == old(chain)[0] && chain[li] == old(chain)[li - 1]
      ensures deleteEmpty ==> li == |chain| - 1
      ensures InView(vals, fi, li, firstStart, lastEnd) && View(vals, fi, li, firstStart, lastEnd) == old(Contents())
    {
      hide *;
      PlaceFacts();
      SpanFacts();
      TableFacts(0);
      ghost var was := vals;
      ExtendFront(first);
      TableFacts(0);
      fi, li := fi + 1, li + 1;
      ViewTail(vals, fi, li, firstStart, lastEnd);
      assert chain[li] == chain[1..][li - 1];
    }

    /** bc_pop_back. With deletion, the table that it leaves is given back. */
    method PopBack() returns (x: T)
      requires Valid() && Contents() != []
      modifies this, Repr
      ensures Valid() && Repr == old(Repr)
      ensures old(Contents()) == Contents() + [x]
      ensures |chain| == old(|chain|) - if deleteEmpty && old(lastEnd) == 0 then 1 else 0
    {
      hide *;
      ValidFacts();
      PlaceFacts();
      WhenEmpty();
      if lastEnd == 0 {
        StepDown();
      }
      SpanFacts();
      TableFacts(li);
      ViewReadBack(vals, fi, li, firstStart, lastEnd);
      lastEnd := lastEnd - 1;
      x := last.cells[lastEnd];
      FactsSpan();
      FactsValid();
    }

    /** Last moves to the table before it, all of which is used. */
    method StepDown()
      requires Chained() && Spanned() && this !in Repr && lastEnd == 0 && fi < li
      modifies this, Repr
      ensures Chained() && Spanned() && Repr == old(Repr)
      ensures Contents() == old(Contents()) && firstStart == old(firstStart) && lastEnd == tableSize > 0
      ensures |chain| == old(|chain|) - if deleteEmpty then 1 else 0
    {
      hide *;
      SpanFacts();
      TableFacts(li);
      TableFacts(li - 1);
      ViewDropLast(vals, fi, li, firstStart);
      last, lastEnd, li := last.prev, tableSize, li - 1;
      if deleteEmpty {
        ghost var was := vals;
        CutLast(last);
        assert vals[fi..li + 1] == was[fi..li + 1];
        ViewSame(was, fi, li, vals, fi, li, firstStart, lastEnd);
      }
      FactsSpan();
    }

    /** bc_pop_front. With deletion, the table that it leaves is given back. */
    method PopFront() returns (x: T)
      requires Valid() && Contents() != []
      modifies this, Repr
      ensures Valid() && Repr == old(Repr)
      ensures old(Contents()) == [x] + Contents()
      ensures |chain| == old(|chain|) - if deleteEmpty && old(firstStart) + 1 == tableSize then 1 else 0
    {
      hide *;
      ValidFacts();
      PlaceFacts();
      SpanFacts();
      WhenEmpty();
      TableFacts(fi);
      ViewReadFront(vals, fi, li, firstStart, lastEnd);
      x := first.cells[firstStart];
      firstStart := firstStart + 1;
      FactsSpan();
      if firstStart == tableSize {
        StepForth();
      }
      FactsValid();
    }

    /** First moves to the table behind it, none of which has been taken yet. */
    method StepForth()
      requires Chained() && Spanned() && this !in Repr && firstStart == tableSize > 0 && lastEnd < tableSize
      modifies this, Repr
      ensures Chained() && Spanned() && Repr == old(Repr)
      ensures Contents() == old(Contents()) && firstStart == 0 && lastEnd == old(lastEnd)
      ensures |chain| == old(|chain|) - if deleteEmpty then 1 else 0
    {
      hide *;
      SpanFacts();
      TableFacts(fi);
      PastEnd(vals, fi, li, firstStart, lastEnd);
      TableFacts(fi + 1);
      ViewDropFirst(vals, fi, li, lastEnd);
      firstStart, first, fi := 0, first.next, fi + 1;
      if deleteEmpty {
        ghost var was := vals;
        CutFirst(first);
        fi, li := fi - 1, li - 1;
        ViewTail(was, fi + 1, li + 1, firstStart, lastEnd);
      }
      FactsSpan();
    }

    /** bc_foreach: the elements in the order in which they are visited. */
    method ForEach() returns (out: seq<T>)
      requires Valid()
      ensures out == Contents()
    {
      hide *;
      ValidFacts();
      PlaceFacts();
      SpanFacts();
      var iter: BcTable<T>, i: nat := first, firstStart;
      ghost var t := fi;
      out := [];
      ViewLeft(t, i);
      while !(iter == last && i == lastEnd)
        invariant fi <= t <= li && iter == chain[t] && i < tableSize
        invariant InView(vals, t, li, i, lastEnd)
        invariant out + View(vals, t, li, i, lastEnd) == Contents()
        invariant iter == last && i == lastEnd <==> View(vals, t, li, i, lastEnd) == []
        decreases li - t, tableSize - i
      {
        Advanced(t, i, out);
        out := out + [iter.cells[i]];
        i := i + 1;
        if i == tableSize {
          i, iter, t := 0, iter.next, t + 1;
        }
        ViewLeft(t, i);
      }
    }

    /** One element on, which may be in the next table. */
    lemma Advanced(t: nat, i: nat, out: seq<T>)
      requires Valid() && fi <= t <= li && i < tableSize && InView(vals, t, li, i, lastEnd)
      requires View(vals, t, li, i, lastEnd) != []
      ensures i < chain[t].cells.Length
      ensures i + 1 == tableSize ==> t < li && chain[t].next == chain[t + 1]
      ensures var t', i' := if i + 1 == tableSize then t + 1 else t, if i + 1 == tableSize then 0 else i + 1;
              && InView(vals, t', li, i', lastEnd)
              && out + View(vals, t, li, i, lastEnd) == (out + [chain[t].cells[i]]) + View(vals, t', li, i', lastEnd)
    {
      hide *;
      ValidFacts();
      PlaceFacts();
      SpanFacts();
      TableFacts(t);
      ViewLeft(t, i);
      ViewReadFront(vals, t, li, i, lastEnd);
      var rest := View(vals, t, li, i + 1, lastEnd);
      assert View(vals, t, li, i, lastEnd) == [chain[t].cells[..][i]] + rest;
      Associative(out, [chain[t].cells[i]], rest);
      if i + 1 == tableSize {
        PastEnd(vals, t, li, i + 1, lastEnd);
        ViewDropFirst(vals, t, li, lastEnd);
      }
    }

    lemma ViewLeft(t: nat, i: nat)
      requires Valid() && fi <= t <= li && i < tableSize && InView(vals, t, li, i, lastEnd)
      ensures (chain[t] == last && i == lastEnd) <==> View(vals, t, li, i, lastEnd) == []
      ensures t == li ==> i <= lastEnd
      ensures View(vals, t, li, i, lastEnd) != [] && t == li ==> i < lastEnd
    {
      ViewEmpty(vals, t, li, i, lastEnd, tableSize);
      assert t < li ==> chain[t] != chain[li];
    }

    /** bc_len. */
    method Len() returns (n: nat)
      requires Valid()
      ensures n == |Contents()|
    {
      var all := ForEach();
      n := |all|;
    }

    /** bc_get_num_tables. */
    method NumTables() returns (n: nat)
      requires Valid()
      ensures n == |chain|
    {
      assert TableAt(fi);
      n := 0;
      var iter: BcTable?<T> := first.prev;
      ghost var k := fi;
      while iter != null
        invariant 0 <= k <= fi && n == fi - k && iter == (if k > 0 then chain[k-1] else null)
        decreases k
      {
        assert TableAt(k - 1);
        n, iter, k := n + 1, iter.prev, k - 1;
      }
      iter, k := first, fi;
      while iter != null
        invariant fi <= k <= |chain| && n == k && iter == (if k < |chain| then chain[k] else null)
        decreases |chain| - k
      {
        assert TableAt(k);
        n, iter, k := n + 1, iter.next, k + 1;
      }
    }
  }

  /** With deletion on, a chain may become shorter: here each push adds a table, and the pop gives it back. */
  method ChainMayShrink() returns (before: nat, after: nat)
    ensures before == 2 && after == 1
  {
    var c := new Collection<nat>(1, true);
    c.PushBack(0);
    before := c.NumTables();
    var _ := c.PopBack();
    after := c.NumTables();
  }
}
