/** How objects lie in the bodies of a memory space. */
module ObjectBytes {
  import opened Common
  import opened Graph
  import opened BlockLayout
  import opened MemSpaceModule

  // ---------------------------------------------------------------------------- numbers

  function Power(width: nat): nat {
    if width == 0 then 1 else 256 * Power(width - 1)
  }

  /** A number in the given number of bytes, the lowest first. */
  function Number(n: nat, width: nat): (r: seq<Cell>)
    ensures |r| == width
  {
    if width == 0 then [] else [Raw((n % 256) as byte)] + Number(n / 256, width - 1)
  }

  /** The number in the given bytes; None when some other value lies there. */
  function Value(s: seq<Cell>): Option<nat> {
    if s == [] then Some(0)
    else
      match (s[0], Value(s[1..]))
      case (Raw(b), Some(n)) => Some(b as nat + 256 * n)
      case _ => None
  }

  lemma {:induction false} ValueOfNumber(n: nat, width: nat)
    requires n < Power(width)
    ensures Value(Number(n, width)) == Some(n)
  {
    if width > 0 {
      ValueOfNumber(n / 256, width - 1);
      assert Number(n, width)[1..] == Number(n / 256, width - 1);
    }
  }

  lemma WordPower()
    ensures Power(4) == 0x1_0000_0000 && Power(8) == TWO_64
  {
    assert Power(2) == 0x1_0000 && Power(3) == 0x100_0000 && Power(4) == 0x1_0000_0000;
    assert Power(5) == 0x100_0000_0000 && Power(6) == 0x1_0000_0000_0000 && Power(7) == 0x100_0000_0000_0000;
  }

  // ---------------------------------------------------------------------------- references

  function Rests(n: nat): (r: seq<Cell>)
    ensures |r| == n
  {
    if n == 0 then [] else [Rest] + Rests(n - 1)
  }

  /** A virtual address takes 16 bytes. */
  function RefCell(v: Vaddr): (r: seq<Cell>)
    ensures |r| == 16 && r[0] == Va(v) && r[1..] == Rests(15)
  {
    [Va(v)] + Rests(15)
  }

  function RefCells(refs: seq<Vaddr>): (r: seq<Cell>)
    ensures |r| == 16 * |refs|
  {
    if refs == [] then [] else RefCell(refs[0]) + RefCells(refs[1..])
  }

  /** The n references that s starts with; None when one of them is not whole. */
  function RefsOf(s: seq<Cell>, n: nat): (r: Option<seq<Vaddr>>)
    requires 16 * n <= |s|
    ensures r.Some? ==> |r.value| == n
  {
    if n == 0 then Some([])
    else if s[1..16] != Rests(15) then None
    else
      match (s[0], RefsOf(s[16..], n - 1))
      case (Va(v), Some(vs)) => Some([v] + vs)
      case _ => None
  }

  lemma RefsOfMore(v: Vaddr, s: seq<Cell>, n: nat)
    requires 16 * n <= |s| && RefsOf(s, n).Some?
    ensures RefsOf(RefCell(v) + s, n + 1) == Some([v] + RefsOf(s, n).value)
  {
    hide RefCell, Rests;
    var s' := RefCell(v) + s;
    assert s'[1..16] == RefCell(v)[1..] && s'[16..] == s && s'[0] == Va(v);
  }

  lemma {:induction false} RefsOfCells(refs: seq<Vaddr>, more: seq<Cell>)
    ensures RefsOf(RefCells(refs) + more, |refs|) == Some(refs)
  {
    hide RefsOf, RefCell;
    if refs == [] {
      NoRefs(more);
    } else {
      var s := RefCells(refs[1..]) + more;
      RefsOfCells(refs[1..], more);
      RefsOfMore(refs[0], s, |refs| - 1);
      assert RefCells(refs) + more == RefCell(refs[0]) + s;
      assert [refs[0]] + refs[1..] == refs;
    }
  }

  lemma NoRefs(more: seq<Cell>)
    ensures RefsOf(RefCells([]) + more, 0) == Some([])
  {
  }

  // ---------------------------------------------------------------------------- objects

  /** gc_status_code as a number. */
  function Code(st: Status): nat {
    match st
    case NewlyAdded => 0
    case Unvisited => 1
    case InProgress => 2
    case Visited => 3
  }

  function StatusOf(n: nat): Option<Status> {
    if n == 0 then Some(NewlyAdded) else if n == 1 then Some(Unvisited)
    else if n == 2 then Some(InProgress) else if n == 3 then Some(Visited) else None
  }

  /** What cs_malloc_p lays out: the status, the lengths of the reference table and the data, and these two. */
  function Encode(o: Obj): seq<Cell> {
    Number(Code(o.status), 4) + (Number(|o.refs|, 8) + (Number(|o.data|, 8) + (RefCells(o.refs) + o.data)))
  }

  /** The references and the data behind the lengths. */
  function DecodeTables(s: seq<Cell>, st: Status, n: nat, d: nat): Option<Obj> {
    if |s| < 16 * n + d then None
    else
      match RefsOf(s, n)
      case Some(refs) => Some(Obj(st, refs, s[16 * n..16 * n + d]))
      case None => None
  }

  function Decode(s: seq<Cell>): Option<Obj> {
    if |s| < 20 then None
    else
      match (Value(s[..4]), Value(s[4..12]), Value(s[12..20]))
      case (Some(c), Some(n), Some(d)) =>
        (match StatusOf(c)
         case Some(st) => DecodeTables(s[20..], st, n, d)
         case None => None)
      case _ => None
  }

  lemma TablesRoundTrip(o: Obj, more: seq<Cell>)
    ensures DecodeTables(RefCells(o.refs) + o.data + more, o.status, |o.refs|, |o.data|) == Some(o)
  {
    var s, n := RefCells(o.refs) + o.data + more, 16 * |o.refs|;
    RefsOfCells(o.refs, o.data + more);
    assert s == RefCells(o.refs) + (o.data + more);
    assert s[n..n + |o.data|] == o.data;
  }

  /** An object whose tables have lengths of 64 bits is read back from its bytes, whatever lies behind them. */
  lemma RoundTrip(o: Obj, more: seq<Cell>)
    requires |o.refs| < TWO_64 && |o.data| < TWO_64
    ensures Decode(Encode(o) + more) == Some(o)
  {
    hide Value, Number, RefsOf, RefCells;
    var s := Encode(o) + more;
    WordPower();
    ValueOfNumber(Code(o.status), 4);
    ValueOfNumber(|o.refs|, 8);
    ValueOfNumber(|o.data|, 8);
    assert s[..4] == Number(Code(o.status), 4);
    assert s[4..12] == Number(|o.refs|, 8);
    assert s[12..20] == Number(|o.data|, 8);
    assert s[20..] == RefCells(o.refs) + o.data + more;
    TablesRoundTrip(o, more);
  }

  /** The parts of an object are found where cs.c looks for them. */
  lemma Layout(s: seq<Cell>, o: Obj)
    requires Decode(s) == Some(o)
    ensures |s| >= 20 + 16 * |o.refs| + |o.data| && o.data == s[20 + 16 * |o.refs|..20 + 16 * |o.refs| + |o.data|]
    ensures Value(s[..4]) == Some(Code(o.status)) && Value(s[4..12]) == Some(|o.refs|)
    ensures RefsOf(s[20..], |o.refs|) == Some(o.refs)
  {
    hide Value, RefsOf;
  }

  lemma {:induction false} RefsOfAt(s: seq<Cell>, n: nat, k: nat)
    requires 16 * n <= |s| && RefsOf(s, n).Some? && k < n
    ensures s[16 * k] == Va(RefsOf(s, n).value[k])
  {
    if k > 0 {
      RefsOfAt(s[16..], n - 1, k - 1);
    }
  }

  // ---------------------------------------------------------------------------- writing

  /** s with t written over it from p on. */
  function Spliced(s: seq<Cell>, p: nat, t: seq<Cell>): (r: seq<Cell>)
    requires p + |t| <= |s|
    ensures |r| == |s|
  {
    s[..p] + t + s[p + |t|..]
  }

  /** Writing the status changes the status. */
  lemma PaintsStatus(s: seq<Cell>, o: Obj, st: Status)
    requires Decode(s) == Some(o)
    ensures Decode(Spliced(s, 0, Number(Code(st), 4))) == Some(o.(status := st))
  {
    hide Value, Number, RefsOf;
    var s' := Spliced(s, 0, Number(Code(st), 4));
    WordPower();
    ValueOfNumber(Code(st), 4);
    assert s'[..4] == Number(Code(st), 4) && s'[4..12] == s[4..12] && s'[12..20] == s[12..20] && s'[20..] == s[20..];
  }

  /** Parts of s before it, behind it and around it. */
  lemma SplicedPart(s: seq<Cell>, p: nat, t: seq<Cell>, i: nat, j: nat)
    requires p + |t| <= |s| && i <= j <= |s|
    ensures j <= p || p + |t| <= i ==> Spliced(s, p, t)[i..j] == s[i..j]
    ensures i <= p && p + |t| <= j ==> Spliced(s, p, t)[i..j] == Spliced(s[i..j], p - i, t)
  {
  }

  lemma SplicedAtStart(s: seq<Cell>, t: seq<Cell>)
    requires |t| <= |s|
    ensures Spliced(s, 0, t) == t + s[|t|..]
  {
  }

  lemma SplicedBehind(a: seq<Cell>, s: seq<Cell>, p: nat, t: seq<Cell>)
    requires p + |t| <= |s|
    ensures Spliced(a + s, |a| + p, t) == a + Spliced(s, p, t)
  {
  }

  lemma RefsOfStep(s: seq<Cell>, n: nat)
    requires 0 < n && 16 * n <= |s| && RefsOf(s, n).Some?
    ensures RefsOf(s[16..], n - 1).Some? && s[..16] == RefCell(RefsOf(s, n).value[0])
    ensures RefsOf(s, n).value == [RefsOf(s, n).value[0]] + RefsOf(s[16..], n - 1).value
  {
    assert s[..16] == [s[0]] + s[1..16];
  }

  lemma {:induction false} RefsOfSpliced(s: seq<Cell>, n: nat, k: nat, b: Vaddr)
    requires 16 * n <= |s| && RefsOf(s, n).Some? && k < n
    ensures RefsOf(Spliced(s, 16 * k, RefCell(b)), n) == Some(RefsOf(s, n).value[k := b])
  {
    hide RefCell, RefsOf, Spliced;
    RefsOfStep(s, n);
    var t := s[16..];
    var vs, a := RefsOf(t, n - 1).value, RefsOf(s, n).value[0];
    if k == 0 {
      RefsOfMore(b, t, n - 1);
      SplicedAtStart(s, RefCell(b));
      assert ([a] + vs)[0 := b] == [b] + vs;
    } else {
      RefsOfSpliced(t, n - 1, k - 1, b);
      RefsOfMore(a, Spliced(t, 16 * (k - 1), RefCell(b)), n - 1);
      assert s == RefCell(a) + t;
      SplicedBehind(RefCell(a), t, 16 * (k - 1), RefCell(b));
      assert ([a] + vs)[k := b] == [a] + vs[k - 1 := b];
    }
  }

  /** Writing a reference changes the reference. */
  lemma StoresRef(s: seq<Cell>, o: Obj, k: nat, b: Vaddr)
    requires Decode(s) == Some(o) && k < |o.refs|
    ensures 20 + 16 * k + 16 <= |s|
    ensures Decode(Spliced(s, 20 + 16 * k, RefCell(b))) == Some(o.(refs := o.refs[k := b]))
  {
    hide Value, RefsOf, RefCell, Spliced;
    var p, t, n := 20 + 16 * k, RefCell(b), 20 + 16 * |o.refs|;
    var s' := Spliced(s, p, t);
    SplicedPart(s, p, t, 0, 4);
    SplicedPart(s, p, t, 4, 12);
    SplicedPart(s, p, t, 12, 20);
    SplicedPart(s, p, t, 20, |s|);
    assert s'[..4] == s'[0..4] && s[..4] == s[0..4] && s'[20..] == s'[20..|s|] && s[20..] == s[20..|s|];
    SplicedPart(s, p, t, n, n + |o.data|);
    RefsOfSpliced(s[20..], |o.refs|, k, b);
    assert s'[20..][n - 20..n - 20 + |o.data|] == s'[n..n + |o.data|];
    assert s[20..][n - 20..n - 20 + |o.data|] == s[n..n + |o.data|];
  }

  // ---------------------------------------------------------------------------- the heap in a space

  /** The user's bytes behind each address are those of an object. */
  ghost predicate Represents(content: Content, objs: Heap) {
    && content.Keys == objs.Keys
    && (forall v :: v in objs ==> |content[v]| >= 8 && Decode(content[v][8..]) == Some(objs[v]))
  }

  /** obj_reachable: reads the status only. */
  predicate ObjReachable(v: Vaddr, bytes: seq<Cell>) {
    |bytes| < 4 || Value(bytes[..4]) != Some(Code(Unvisited))
  }

  lemma ReachableIsNotWhite(v: Vaddr, bytes: seq<Cell>, o: Obj)
    requires Decode(bytes) == Some(o)
    ensures ObjReachable(v, bytes) <==> o.status != Unvisited
  {
    hide Value, RefsOf;
  }

  lemma RejectedIsWhite(content: Content, objs: Heap)
    requires Represents(content, objs)
    ensures forall v :: v in objs ==> (Rejected(content, ObjReachable, v) <==> objs[v].status == Unvisited)
  {
    hide Decode, ObjReachable;
    forall v | v in objs ensures Rejected(content, ObjReachable, v) <==> objs[v].status == Unvisited {
      ReachableIsNotWhite(v, content[v][8..], objs[v]);
    }
  }

  /** Filtering the space by the status in the bytes is sweeping the heap that the bytes stand for. */
  lemma FilterIsSweep(content: Content, objs: Heap)
    requires Represents(content, objs)
    ensures Represents(Passing(content, ObjReachable), Kept(objs))
    ensures |content| == |objs| && |Passing(content, ObjReachable)| == |Kept(objs)|
  {
    hide Decode, ObjReachable, Rejected;
    RejectedIsWhite(content, objs);
    var content', objs' := Passing(content, ObjReachable), Kept(objs);
    assert content'.Keys == objs'.Keys;
    assert |content| == |content.Keys| && |objs| == |objs.Keys|;
    assert |content'| == |content'.Keys| && |objs'| == |objs'.Keys|;
  }
}
