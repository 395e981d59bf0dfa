/** The objects of a memory space: each access of cs.c to a header, a reference or a status, on the bytes. */
module ObjectSpace {
  import opened Common
  import opened Graph
  import opened BlockLayout
  import opened BlockView
  import opened MemSpaceModule
  import opened ObjectBytes

  // ---------------------------------------------------------------------------- values of several bytes

  lemma StoreByte(s: seq<Cell>, p: nat, c: Cell)
    requires p + 1 <= |s|
    ensures Store(s, p, 1, c) == Spliced(s, p, [c])
  {
  }

  lemma {:induction false} RestsAreRest(n: nat)
    ensures forall i :: 0 <= i < n ==> Rests(n)[i] == Rest
  {
    if n > 0 {
      RestsAreRest(n - 1);
    }
  }

  lemma StoreRef(s: seq<Cell>, p: nat, b: Vaddr)
    requires p + 16 <= |s|
    ensures Store(s, p, 16, Va(b)) == Spliced(s, p, RefCell(b))
  {
    hide Rests;
    RestsAreRest(15);
    var r := RefCell(b);
    assert forall i :: 1 <= i < 16 ==> r[i] == r[1..][i - 1] == Rest;
  }

  lemma SplicedTwice(s: seq<Cell>, p: nat, t: seq<Cell>, u: seq<Cell>)
    requires p + |t| + |u| <= |s|
    ensures Spliced(Spliced(s, p, t), p + |t|, u) == Spliced(s, p, t + u)
  {
  }

  lemma SplicedNothing(s: seq<Cell>, p: nat)
    requires p <= |s|
    ensures Spliced(s, p, []) == s
  {
  }

  lemma BehindHeader(body: seq<Cell>, p: nat, t: seq<Cell>)
    requires 8 + p + |t| <= |body|
    ensures Spliced(body, 8 + p, t)[8..] == Spliced(body[8..], p, t)
  {
    SplicedPart(body, 8 + p, t, 8, |body|);
    assert Spliced(body, 8 + p, t)[8..] == Spliced(body, 8 + p, t)[8..|body|] && body[8..] == body[8..|body|];
  }

  lemma NumberStep(n: nat, width: nat)
    ensures Number(n, 0) == []
    ensures width > 0 ==> Number(n, width) == [Raw((n % 256) as byte)] + Number(n / 256, width - 1)
  {
  }

  lemma ValueStep(s: seq<Cell>)
    requires Value(s).Some?
    ensures s == [] ==> Value(s) == Some(0)
    ensures s != [] ==> s[0].Raw? && Value(s[1..]).Some? && Value(s).value == s[0].b as nat + 256 * Value(s[1..]).value
  {
  }

  /** A number is stored with the lowest byte first. */
  method WriteNumber(ms: MemSpace, ghost v: Vaddr, at: Paddr, i: nat, width: nat, n: nat)
    requires ms.Valid() && ms.LockedAt(v, at) && 8 + i + width <= |ms.content[v]|
    modifies ms`content, ms.mbList, ms.Mems()
    ensures ms.Valid() && ms.LockedAt(v, at) && ms.mbList == old(ms.mbList) && unchanged(ms.adb)
    ensures ms.content == old(ms.content)[v := Spliced(old(ms.content)[v], 8 + i, Number(n, width))]
    decreases width
  {
    hide *;
    ms.LockedIs(v, at);
    ms.OwnMems();
    ghost var body := ms.content[v];
    NumberStep(n, width);
    if width == 0 {
      SplicedNothing(body, 8 + i);
    } else {
      var c := Raw((n % 256) as byte);
      ms.Write(v, at, i, 1, c);
      StoreByte(body, 8 + i, c);
      WriteNumber(ms, v, at, i + 1, width - 1, n / 256);
      SplicedTwice(body, 8 + i, [c], Number(n / 256, width - 1));
    }
  }

  method ReadNumber(ms: MemSpace, ghost v: Vaddr, at: Paddr, i: nat, width: nat) returns (n: nat)
    requires ms.Valid() && ms.LockedAt(v, at) && 8 + i + width <= |ms.content[v]|
    requires Value(ms.content[v][8 + i..8 + i + width]).Some?
    ensures Value(ms.content[v][8 + i..8 + i + width]) == Some(n)
    decreases width
  {
    hide *;
    ms.LockedIs(v, at);
    ms.OwnMems();
    ghost var s := ms.content[v][8 + i..8 + i + width];
    ValueStep(s);
    if width == 0 {
      n := 0;
    } else {
      var c := ms.Read(v, at, i);
      ghost var t := ms.content[v][8 + (i + 1)..8 + (i + 1) + (width - 1)];
      assert c == s[0] && s[1..] == t;
      var rest := ReadNumber(ms, v, at, i + 1, width - 1);
      n := c.b as nat + 256 * rest;
    }
  }

  // ---------------------------------------------------------------------------- the fields of an object

  lemma BytesOf(content: Content, objs: Heap, v: Vaddr)
    requires Represents(content, objs)
    ensures v in content <==> v in objs
    ensures v in objs ==> |content[v]| >= 8 && Decode(content[v][8..]) == Some(objs[v])
  {
  }

  lemma NowRepresents(content: Content, objs: Heap, v: Vaddr, body: seq<Cell>, o: Obj)
    requires Represents(content, objs) && |body| >= 8 && Decode(body[8..]) == Some(o)
    ensures Represents(content[v := body], objs[v := o])
  {
    hide Decode;
  }

  /** Where the fields of the object at v are, counted from the start of its body. */
  lemma FieldsOf(content: Content, objs: Heap, v: Vaddr)
    requires Represents(content, objs) && v in objs
    ensures v in content && |content[v]| >= 28 + 16 * |objs[v].refs| + |objs[v].data|
    ensures Value(content[v][8..12]) == Some(Code(objs[v].status))
    ensures Value(content[v][12..20]) == Some(|objs[v].refs|)
    ensures forall k :: 0 <= k < |objs[v].refs| ==> content[v][28 + 16 * k] == Va(objs[v].refs[k])
  {
    hide Value, Decode, RefsOf;
    BytesOf(content, objs, v);
    var body, o := content[v], objs[v];
    var s := body[8..];
    Layout(s, o);
    assert s[..4] == body[8..12] && s[4..12] == body[12..20];
    forall k | 0 <= k < |o.refs| ensures body[28 + 16 * k] == Va(o.refs[k]) {
      RefsOfAt(s[20..], |o.refs|, k);
      assert s[20..][16 * k] == body[28 + 16 * k];
    }
  }

  lemma CodeOfStatus(st: Status)
    ensures StatusOf(Code(st)) == Some(st)
  {
  }

  method GetStatus(ms: MemSpace, ghost objs: Heap, ghost v: Vaddr, at: Paddr) returns (st: Status)
    requires ms.Valid() && Represents(ms.content, objs) && ms.LockedAt(v, at) && v in objs
    ensures st == objs[v].status
  {
    hide *;
    ms.LockedIs(v, at);
    FieldsOf(ms.content, objs, v);
    var n := ReadNumber(ms, v, at, 0, 4);
    CodeOfStatus(objs[v].status);
    st := StatusOf(n).value;
  }

  method SetStatus(ms: MemSpace, ghost objs: Heap, ghost v: Vaddr, at: Paddr, st: Status)
    requires ms.Valid() && Represents(ms.content, objs) && ms.LockedAt(v, at) && v in objs
    modifies ms`content, ms.mbList, ms.Mems()
    ensures ms.Valid() && ms.LockedAt(v, at) && ms.mbList == old(ms.mbList) && unchanged(ms.adb)
    ensures Represents(ms.content, objs[v := objs[v].(status := st)])
  {
    hide *;
    ms.LockedIs(v, at);
    FieldsOf(ms.content, objs, v);
    BytesOf(ms.content, objs, v);
    ghost var body := ms.content[v];
    PaintsStatus(body[8..], objs[v], st);
    BehindHeader(body, 0, Number(Code(st), 4));
    WriteNumber(ms, v, at, 0, 4, Code(st));
    NowRepresents(old(ms.content), objs, v, ms.content[v], objs[v].(status := st));
  }

  /** obj_h->rt_len. */
  method GetRtLen(ms: MemSpace, ghost objs: Heap, ghost v: Vaddr, at: Paddr) returns (n: nat)
    requires ms.Valid() && Represents(ms.content, objs) && ms.LockedAt(v, at) && v in objs
    ensures n == |objs[v].refs|
  {
    hide *;
    ms.LockedIs(v, at);
    FieldsOf(ms.content, objs, v);
    n := ReadNumber(ms, v, at, 4, 8);
  }

  /** rt[k]. */
  method GetRef(ms: MemSpace, ghost objs: Heap, ghost v: Vaddr, at: Paddr, k: nat) returns (b: Vaddr)
    requires ms.Valid() && Represents(ms.content, objs) && ms.LockedAt(v, at) && v in objs && k < |objs[v].refs|
    ensures b == objs[v].refs[k]
  {
    hide *;
    ms.LockedIs(v, at);
    FieldsOf(ms.content, objs, v);
    var c := ms.Read(v, at, 20 + 16 * k);
    assert 28 + 16 * k == 8 + (20 + 16 * k);
    assert c == ms.content[v][28 + 16 * k] == Va(objs[v].refs[k]);
    b := c.v;
  }

  method SetRef(ms: MemSpace, ghost objs: Heap, ghost v: Vaddr, at: Paddr, k: nat, b: Vaddr)
    requires ms.Valid() && Represents(ms.content, objs) && ms.LockedAt(v, at) && v in objs && k < |objs[v].refs|
    modifies ms`content, ms.mbList, ms.Mems()
    ensures ms.Valid() && ms.LockedAt(v, at) && ms.mbList == old(ms.mbList) && unchanged(ms.adb)
    ensures Represents(ms.content, objs[v := objs[v].(refs := objs[v].refs[k := b])])
  {
    hide *;
    ms.LockedIs(v, at);
    FieldsOf(ms.content, objs, v);
    BytesOf(ms.content, objs, v);
    ghost var body := ms.content[v];
    StoresRef(body[8..], objs[v], k, b);
    BehindHeader(body, 20 + 16 * k, RefCell(b));
    StoreRef(body, 28 + 16 * k, b);
    ms.Write(v, at, 20 + 16 * k, 16, Va(b));
    NowRepresents(old(ms.content), objs, v, ms.content[v], objs[v].(refs := objs[v].refs[k := b]));
  }

  // ---------------------------------------------------------------------------- new objects

  /** The bytes that an object with such tables takes. */
  function SizeOf(rtLen: nat, daSize: nat): nat {
    20 + 16 * rtLen + daSize
  }

  /** The headers of an object. */
  function Headers(st: Status, rtLen: nat, daSize: nat): (r: seq<Cell>)
    ensures |r| == 20
  {
    Number(Code(st), 4) + Number(rtLen, 8) + Number(daSize, 8)
  }

  method WriteHeaders(ms: MemSpace, ghost v: Vaddr, at: Paddr, st: Status, rtLen: nat, daSize: nat)
    requires ms.Valid() && ms.LockedAt(v, at) && 28 <= |ms.content[v]|
    modifies ms`content, ms.mbList, ms.Mems()
    ensures ms.Valid() && ms.LockedAt(v, at) && ms.mbList == old(ms.mbList) && unchanged(ms.adb)
    ensures ms.content == old(ms.content)[v := Spliced(old(ms.content)[v], 8, Headers(st, rtLen, daSize))]
  {
    hide *;
    ms.LockedIs(v, at);
    ms.OwnMems();
    ghost var body := ms.content[v];
    ghost var a, b, c := Number(Code(st), 4), Number(rtLen, 8), Number(daSize, 8);
    WriteNumber(ms, v, at, 0, 4, Code(st));
    WriteNumber(ms, v, at, 4, 8, rtLen);
    SplicedTwice(body, 8, a, b);
    WriteNumber(ms, v, at, 12, 8, daSize);
    SplicedTwice(body, 8, a + b, c);
    HeadersAre(st, rtLen, daSize);
  }

  lemma HeadersAre(st: Status, rtLen: nat, daSize: nat)
    ensures Headers(st, rtLen, daSize) == Number(Code(st), 4) + Number(rtLen, 8) + Number(daSize, 8)
  {
  }

  lemma {:induction false} RefCellsAppend(a: seq<Vaddr>, b: Vaddr)
    ensures RefCells(a + [b]) == RefCells(a) + RefCell(b)
  {
    if a == [] {
      assert [] + [b] == [b];
      assert RefCells([b][1..]) == [];
    } else {
      RefCellsAppend(a[1..], b);
      assert (a + [b])[0] == a[0] && (a + [b])[1..] == a[1..] + [b];
    }
  }

  lemma NullsStep(n: nat)
    ensures RefCells(Nulls(0)) == [] && |RefCells(Nulls(n))| == 16 * n
    ensures RefCells(Nulls(n + 1)) == RefCells(Nulls(n)) + RefCell(NULL_VADDR)
  {
    RefCellsAppend(Nulls(n), NULL_VADDR);
    assert Nulls(n + 1) == Nulls(n) + [NULL_VADDR];
  }

  method WriteNulls(ms: MemSpace, ghost v: Vaddr, at: Paddr, rtLen: nat)
    requires ms.Valid() && ms.LockedAt(v, at) && 28 + 16 * rtLen <= |ms.content[v]|
    modifies ms`content, ms.mbList, ms.Mems()
    ensures ms.Valid() && ms.LockedAt(v, at) && ms.mbList == old(ms.mbList) && unchanged(ms.adb)
    ensures |RefCells(Nulls(rtLen))| == 16 * rtLen
    ensures ms.content == old(ms.content)[v := Spliced(old(ms.content)[v], 28, RefCells(Nulls(rtLen)))]
  {
    hide *;
    ms.LockedIs(v, at);
    ms.OwnMems();
    ghost var body := ms.content[v];
    NullsStep(0);
    SplicedNothing(body, 28);
    var i := 0;
    while i < rtLen
      invariant 0 <= i <= rtLen && |RefCells(Nulls(i))| == 16 * i
      invariant ms.Valid() && ms.LockedAt(v, at) && ms.mbList == old(ms.mbList) && unchanged(ms.adb)
      invariant ms.content == old(ms.content)[v := Spliced(body, 28, RefCells(Nulls(i)))]
    {
      NullsStep(i);
      StoreRef(ms.content[v], 28 + 16 * i, NULL_VADDR);
      SplicedTwice(body, 28, RefCells(Nulls(i)), RefCell(NULL_VADDR));
      ms.Write(v, at, 20 + 16 * i, 16, Va(NULL_VADDR));
      i := i + 1;
    }
    NullsStep(rtLen);
  }

  lemma NullsCount(n: nat)
    ensures |Nulls(n)| == n
  {
  }

  lemma EncodeIs(o: Obj)
    ensures Encode(o) == Headers(o.status, |o.refs|, |o.data|) + RefCells(o.refs) + o.data
  {
    hide Number, RefCells;
  }

  lemma Regroup<T>(h: seq<T>, r: seq<T>, data: seq<T>, more: seq<T>)
    ensures h + r + (data + more) == h + r + data + more
  {
  }

  /** The object that the headers and the references written into a body make of it. */
  lemma NewObjectIs(body: seq<Cell>, rtLen: nat, daSize: nat)
    requires 28 + 16 * rtLen + daSize <= |body| && rtLen < TWO_64 && daSize < TWO_64
    requires |RefCells(Nulls(rtLen))| == 16 * rtLen
    ensures var body' := Spliced(Spliced(body, 8, Headers(NewlyAdded, rtLen, daSize)), 28, RefCells(Nulls(rtLen)));
            |body'| == |body| && Decode(body'[8..])
                    == Some(Obj(NewlyAdded, Nulls(rtLen), body[28 + 16 * rtLen..28 + 16 * rtLen + daSize]))
  {
    hide *;
    var h, r, n := Headers(NewlyAdded, rtLen, daSize), RefCells(Nulls(rtLen)), 28 + 16 * rtLen;
    var o := Obj(NewlyAdded, Nulls(rtLen), body[n..n + daSize]);
    NullsCount(rtLen);
    SplicedTwice(body, 8, h, r);
    BehindHeader(body, 0, h + r);
    SplicedAtStart(body[8..], h + r);
    assert body[8..][n - 8..] == body[n..n + daSize] + body[n + daSize..];
    HeadersAre(NewlyAdded, rtLen, daSize);
    EncodeIs(o);
    RoundTrip(o, body[n + daSize..]);
    Regroup(h, r, o.data, body[n + daSize..]);
  }

  lemma GaveFacts(content: Content, content': Content, cells: Cells, cells': Cells, v: Vaddr, padded: int)
    requires Gave(content, content', cells, cells', v, padded)
    ensures v !in content && v in content' && v in cells' && content' == content[v := content'[v]]
    ensures padded <= |content'[v]|
  {
  }

  lemma HoldFacts(held: set<Vaddr>, held': set<Vaddr>, cells': Cells, v: Vaddr, paddr: Option<Paddr>)
    requires HoldGave(held, held', cells', v, paddr, true)
    ensures held' == held + {v} && v in cells' && paddr == Some(Paddr(cells'[v].mb, cells'[v].off + 8))
  {
  }

  /** cs_malloc_p. The data is what the memory held. */
  method NewObject(ms: MemSpace, ghost objs: Heap, rtLen: nat, daSize: nat, hold: bool)
      returns (v: Vaddr, paddr: Option<Paddr>, ghost data: seq<Cell>)
    requires ms.Valid() && Represents(ms.content, objs)
    requires SizeOf(rtLen, daSize) + 8 <= MAX_REQUEST && ms.mbMinBytes <= MAX_REQUEST
    modifies ms`seed, ms`mbList, ms`content, ms.adb, ms.mbList, ms.Mems()
    ensures ms.Valid() && v !in objs && v != NULL_VADDR && |data| == daSize
    ensures Represents(ms.content, objs[v := Obj(NewlyAdded, Nulls(rtLen), data)])
    ensures ms.adb.held == (if hold then old(ms.adb.held) + {v} else old(ms.adb.held) - {v})
    ensures if hold then paddr.Some? && ms.LockedAt(v, paddr.value) else paddr == None
    ensures fresh(ms.Own() - old(ms.Own())) && old(ms.Own()) <= ms.Own()
  {
    hide *;
    ghost var darts;
    SizeIsSize(rtLen, daSize);
    v, paddr, darts := ms.MallocP(SizeOf(rtLen, daSize), true);
    GaveFacts(old(ms.content), ms.content, old(ms.adb.cells), ms.adb.cells, v, SizeOf(rtLen, daSize) + 8);
    HoldFacts(old(ms.adb.held), ms.adb.held, ms.adb.cells, v, paddr);
    ms.OwnGrows();
    var at := paddr.value;
    ms.LockedIs(v, at);
    ms.OwnMems();
    ghost var body := ms.content[v];
    WriteHeaders(ms, v, at, NewlyAdded, rtLen, daSize);
    WriteNulls(ms, v, at, rtLen);
    NewObjectIs(body, rtLen, daSize);
    data := body[28 + 16 * rtLen..28 + 16 * rtLen + daSize];
    BytesOf(old(ms.content), objs, v);
    assert ms.content == old(ms.content)[v := ms.content[v]];
    NowRepresents(old(ms.content), objs, v, ms.content[v], Obj(NewlyAdded, Nulls(rtLen), data));
    if !hold {
      ms.Unlock(v);
      paddr := None;
    }
    ms.LockedIs(v, at);
  }

  lemma SizeIsSize(rtLen: nat, daSize: nat)
    ensures SizeOf(rtLen, daSize) == 20 + 16 * rtLen + daSize
    ensures TWO_64 == 0x1_0000_0000_0000_0000 && MAX_REQUEST == TWO_64 - 34
  {
  }

  // ---------------------------------------------------------------------------- the sweep

  /** The sweep of cs_collect_garbage; others may have read locks of objects that are not white. */
  method SweepSpace(ms: MemSpace, ghost objs: Heap) returns (filtered: nat)
    requires ms.Valid() && Represents(ms.content, objs)
    requires forall v :: v in ms.adb.held && v in objs ==> objs[v].status != Unvisited
    modifies ms`content, ms.adb, ms.mbList, ms.Mems()
    ensures ms.Valid() && ms.mbList == old(ms.mbList) && ms.adb.held == old(ms.adb.held)
    ensures Represents(ms.content, Kept(objs)) && filtered == |objs| - |Kept(objs)|
  {
    hide *;
    HeldPass(ms.content, objs, ms.adb.held);
    FilterIsSweep(ms.content, objs);
    filtered := ms.Filter(ObjReachable);
  }

  lemma HeldPass(content: Content, objs: Heap, held: set<Vaddr>)
    requires Represents(content, objs) && forall v :: v in held && v in objs ==> objs[v].status != Unvisited
    ensures forall v :: v in held ==> !Rejected(content, ObjReachable, v)
  {
    hide Decode, ObjReachable;
    RejectedIsWhite(content, objs);
  }
}
