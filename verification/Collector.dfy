/**
 The collected space with no mutator beside the collector: cs_collect_garbage from start to finish, on objects that are
 bytes in the blocks of a memory space.
 */
module Collector {
  import opened Common
  import opened Graph
  import opened Marking
  import opened BlockLayout
  import opened BlockView
  import opened MemSpaceModule
  import opened ObjectBytes
  import opened ObjectSpace
  import BC = BrokenCollection
  import RS = RootSetModule

  /** The addresses that the loop over the root set pushes, in its order. */
  function RootList(entries: seq<RS.Entry>): (r: seq<Vaddr>) {
    if entries == [] then []
    else
      var e := entries[|entries|-1];
      RootList(entries[..|entries|-1]) + if e.Allocated? then [e.vaddr] else []
  }

  lemma OneMore(m: map<nat, Vaddr>, k: nat, v: Vaddr)
    requires k !in m
    ensures |m[k := v]| == |m| + 1 && forall x :: x in m[k := v].Values <==> x in m.Values || x == v
  {
    var m' := m[k := v];
    assert m'.Keys == m.Keys + {k} && |m'.Keys| == |m.Keys| + 1;
    assert |m| == |m.Keys| && |m'| == |m'.Keys|;
    forall x ensures x in m'.Values <==> x in m.Values || x == v {
      if x in m.Values {
        var i :| i in m && m[i] == x;
        assert m'[i] == x;
      }
      assert m'[k] == v;
    }
  }

  lemma LiveStep(entries: seq<RS.Entry>)
    requires entries != []
    ensures var n := |entries| - 1;
            if entries[n].Allocated? then
              && n !in RS.LiveRoots(entries[..n])
              && RS.LiveRoots(entries) == RS.LiveRoots(entries[..n])[n := entries[n].vaddr]
            else RS.LiveRoots(entries) == RS.LiveRoots(entries[..n])
  {
  }

  lemma RootListStep(entries: seq<RS.Entry>)
    requires entries != []
    ensures var n := |entries| - 1;
            RootList(entries) == RootList(entries[..n]) + if entries[n].Allocated? then [entries[n].vaddr] else []
  {
  }

  /** They are the live roots, and as many as there are ids. */
  lemma {:induction false} RootListIsLive(entries: seq<RS.Entry>)
    ensures forall v :: v in RootList(entries) <==> v in RS.LiveRoots(entries).Values
    ensures |RootList(entries)| == |RS.LiveRoots(entries)|
    decreases |entries|, 1
  {
    if entries == [] {
      assert RS.LiveRoots(entries) == map[];
    } else {
      NextRootIsLive(entries);
    }
  }

  lemma NextRootIsLive(entries: seq<RS.Entry>)
    requires entries != []
    ensures forall v :: v in RootList(entries) <==> v in RS.LiveRoots(entries).Values
    ensures |RootList(entries)| == |RS.LiveRoots(entries)|
    decreases |entries|, 0
  {
    hide *;
    var n := |entries| - 1;
    LiveStep(entries);
    RootListStep(entries);
    RootListIsLive(entries[..n]);
    if entries[n].Allocated? {
      var x := entries[n].vaddr;
      OneMore(RS.LiveRoots(entries[..n]), n, x);
      assert forall v :: v in RootList(entries) <==> v in RootList(entries[..n]) || v == x;
    } else {
      assert RootList(entries) == RootList(entries[..n]);
    }
  }

  lemma NonNullStep(refs: seq<Vaddr>)
    requires refs != []
    ensures NonNull(refs) == (if refs[0] == NULL_VADDR then [] else [refs[0]]) + NonNull(refs[1..])
  {
  }

  lemma {:induction false} NonNullAppend(a: seq<Vaddr>, b: seq<Vaddr>)
    ensures NonNull(a + b) == NonNull(a) + NonNull(b)
  {
    hide NonNull;
    if a == [] {
      assert a + b == b;
      NonNullOfNone();
    } else {
      NonNullAppend(a[1..], b);
      NonNullStep(a);
      NonNullStep(a + b);
      assert (a + b)[0] == a[0] && (a + b)[1..] == a[1..] + b;
    }
  }

  lemma NonNullOfNone()
    ensures NonNull([]) == []
  {
  }

  lemma NonNullNext(refs: seq<Vaddr>, i: nat)
    requires i < |refs|
    ensures NonNull(refs[..i + 1]) == NonNull(refs[..i]) + if refs[i] == NULL_VADDR then [] else [refs[i]]
  {
    NonNullAppend(refs[..i], [refs[i]]);
    assert refs[..i + 1] == refs[..i] + [refs[i]];
  }

  /** The objects that references lead to from the live roots. */
  ghost function InUse(objs: Heap, roots: map<nat, Vaddr>): set<Vaddr> {
    Reach(RefGraph(objs), roots.Values)
  }

  /** Live roots are allocated, and objects in use refer to allocated objects. */
  ghost predicate Sane(objs: Heap, roots: map<nat, Vaddr>) {
    && NULL_VADDR !in objs
    && (forall v :: v in roots.Values ==> v in objs)
    && (forall v, b :: v in InUse(objs, roots) && v in objs && b in objs[v].refs ==> b == NULL_VADDR || b in objs)
  }

  lemma RootsAreRoots(objs: Heap, entries: seq<RS.Entry>)
    ensures InUse(objs, RS.LiveRoots(entries)) == Used(objs, RootList(entries))
    ensures Sane(objs, RS.LiveRoots(entries)) <==> Rooted(objs, RootList(entries))
  {
    RootListIsLive(entries);
    assert Elems(RootList(entries)) == RS.LiveRoots(entries).Values;
  }

  /** The heap with every object painted white. */
  ghost function White(objs: Heap): Heap {
    map v | v in objs :: objs[v].(status := Unvisited)
  }

  lemma WhiteIsSane(objs: Heap, roots: map<nat, Vaddr>)
    ensures SameHeap(objs, White(objs)) && InUse(White(objs), roots) == InUse(objs, roots)
    ensures Sane(objs, roots) <==> Sane(White(objs), roots)
  {
    assert RefGraph(White(objs)) == RefGraph(objs);
  }

  /** The objects in use, marked. */
  ghost function Survivors(objs: Heap, used: set<Vaddr>): Heap {
    map v | v in objs && v in used :: objs[v].(status := Visited)
  }

  lemma SurvivorGraph(objs: Heap, used: set<Vaddr>)
    ensures RefGraph(Survivors(objs, used)) == Restrict(RefGraph(objs), used)
  {
  }

  lemma InUseIsAllocated(objs: Heap, roots: map<nat, Vaddr>)
    requires Sane(objs, roots)
    ensures roots.Values <= InUse(objs, roots) <= objs.Keys
    ensures forall v, b :: v in InUse(objs, roots) && b in objs[v].refs && b != NULL_VADDR ==> b in InUse(objs, roots)
  {
    ReachIsClosed(RefGraph(objs), roots.Values);
  }

  /** What survives a cycle is what was in use, and all of it is still in use. */
  lemma SurvivorsStayInUse(objs: Heap, roots: map<nat, Vaddr>)
    requires Sane(objs, roots)
    ensures var objs' := Survivors(objs, InUse(objs, roots));
            Sane(objs', roots) && InUse(objs', roots) == InUse(objs, roots) == objs'.Keys
  {
    hide Reach, Restrict;
    var used := InUse(objs, roots);
    InUseIsAllocated(objs, roots);
    ReachNeedsNoMore(RefGraph(objs), roots.Values);
    SurvivorGraph(objs, used);
    assert Survivors(objs, used).Keys == used;
  }

  class CollectedSpace {
    const ms: MemSpace
    var gcInProgress: bool
    var paintBlackInProgress: bool
    const inProgress: BC.Collection<Vaddr>
    const visit: BC.Collection<Vaddr>
    const roots: RS.RootSet

    /** The objects that the bytes of the space stand for. */
    ghost var objs: Heap

    /** The two stacks, the root set and the memory space share no storage. */
    ghost predicate Apart()
      reads inProgress`Repr, visit`Repr, roots`entries, ms`mbList
    {
      && {inProgress} + inProgress.Repr !! {visit} + visit.Repr
      && {inProgress, visit} + inProgress.Repr + visit.Repr !! {roots, roots.entries}
      && this !in inProgress.Repr + visit.Repr
      && ms.Own() !! {this, inProgress, visit, roots, roots.entries} + inProgress.Repr + visit.Repr
    }

    ghost predicate Laid()
      reads this`objs, ms, ms.Own()
    {
      ms.Valid() && Represents(ms.content, objs) && NULL_VADDR !in objs
    }

    ghost predicate Valid()
      reads this, inProgress, inProgress.Repr, visit, visit.Repr, roots, roots.entries
      reads ms, ms.Own()
    {
      Apart() && inProgress.Valid() && visit.Valid() && roots.Valid() && Laid()
    }

    constructor (seed: nat, adbTCap: nat, mbMBytes: int)
      requires 0 < adbTCap <= UINT64_MAX && 0 < mbMBytes < TWO_64
      ensures Valid() && objs == map[] && !gcInProgress && !paintBlackInProgress
      ensures inProgress.Contents() == [] && visit.Contents() == [] && roots.Roots() == map[]
      ensures ms.adb.held == {} && ms.mbMinBytes == mbMBytes && ms.adb.tableCap == adbTCap
      ensures inProgress.tableSize == visit.tableSize == 100 && !inProgress.deleteEmpty && !visit.deleteEmpty
    {
      hide *;
      objs, gcInProgress, paintBlackInProgress := map[], false, false;
      var space := new MemSpace(seed, adbTCap, mbMBytes);
      space.OwnMems();
      ghost var own := space.Own();
      assert allocated(own);
      ms := space;
      var ip := new BC.Collection<Vaddr>(100, false);
      inProgress := ip;
      visit := new BC.Collection(100, false);
      roots := new RS.RootSet();
      new;
      assert ms.Own() == own;
      NothingLaid();
      NowApart();
      Whole();
    }

    lemma NothingLaid()
      requires ms.Valid() && ms.content == map[] && objs == map[]
      ensures Laid()
    {
    }

    lemma NowApart()
      requires {inProgress} + inProgress.Repr !! {visit} + visit.Repr
      requires {inProgress, visit} + inProgress.Repr + visit.Repr !! {roots, roots.entries}
      requires this !in inProgress.Repr + visit.Repr
      requires ms.Own() !! {this, inProgress, visit, roots, roots.entries} + inProgress.Repr + visit.Repr
      ensures Apart()
    {
    }

    /** Between cycles: the stacks are empty, no phase is running, and what is in use is allocated. */
    ghost predicate Tidy()
      requires Valid()
      reads this, inProgress, inProgress.Repr, visit, visit.Repr, roots, roots.entries
      reads ms, ms.Own()
    {
      && inProgress.Contents() == [] && visit.Contents() == []
      && !gcInProgress && !paintBlackInProgress
      && Sane(objs, roots.Roots())
    }

    lemma Parts()
      requires Valid()
      ensures Apart() && inProgress.Valid() && visit.Valid() && roots.Valid() && Laid()
      ensures roots.Roots() == RS.LiveRoots(roots.entries[..])
    {
    }

    lemma Whole()
      requires Apart() && inProgress.Valid() && visit.Valid() && roots.Valid() && Laid()
      ensures Valid()
    {
    }

    lemma LaidParts()
      requires Laid()
      ensures ms.Valid() && Represents(ms.content, objs) && NULL_VADDR !in objs
      ensures ms.content.Keys == objs.Keys
    {
    }

    lemma LaidAgain()
      requires ms.Valid() && Represents(ms.content, objs) && NULL_VADDR !in objs
      ensures Laid()
    {
    }

    lemma Disjoint()
      requires Apart()
      ensures {inProgress} + inProgress.Repr !! {visit} + visit.Repr
      ensures {inProgress, visit} + inProgress.Repr + visit.Repr !! {roots, roots.entries}
      ensures this !in inProgress.Repr + visit.Repr
      ensures ms.Own() !! {this, inProgress, visit, roots, roots.entries} + inProgress.Repr + visit.Repr
      ensures ms in ms.Own() && ms.adb in ms.Own() && ms.Mems() <= ms.Own()
      ensures forall b :: b in ms.mbList ==> b in ms.Own()
      ensures allocated(ms.Own())
    {
    }

    twostate lemma StillApart()
      requires old(Apart()) && ms.Own() == old(ms.Own())
      requires fresh(inProgress.Repr - old(inProgress.Repr)) && fresh(visit.Repr - old(visit.Repr))
      requires inProgress.Repr - old(inProgress.Repr) !! visit.Repr - old(visit.Repr)
      requires roots.entries == old(roots.entries)
      ensures Apart()
    {
      ghost var a, b := old(inProgress.Repr), old(visit.Repr);
      assert a !! b;
      forall o | o in inProgress.Repr ensures o !in visit.Repr {
        assert o in a || o in inProgress.Repr - a;
        assert o in visit.Repr - b || o in b || o !in visit.Repr;
      }
      assert allocated(ms.Own());
    }

    /** cs_visit_obj: pushes the references that are not null, in order, and sets the status. */
    method VisitObj(ghost v: Vaddr, at: Paddr)
      requires Apart() && inProgress.Valid() && Laid() && v in objs && ms.LockedAt(v, at)
      modifies this`objs, ms.Own(), inProgress, inProgress.Repr
      ensures Apart() && inProgress.Valid() && Laid() && ms.LockedAt(v, at)
      ensures fresh(inProgress.Repr - old(inProgress.Repr))
      ensures ms.Own() == old(ms.Own()) && ms.adb.held == old(ms.adb.held)
      ensures inProgress.Contents() == old(inProgress.Contents()) + NonNull(old(objs)[v].refs)
      ensures objs == Blackened(old(objs), v)
    {
      hide *;
      Disjoint();
      PushRefs(v, at);
      Disjoint();
      LaidParts();
      SetStatus(ms, objs, v, at, Visited);
      objs := objs[v := objs[v].(status := Visited)];
      BlackenedIs(old(objs), v);
      SameNull(old(objs), objs, v);
      StillApart();
      LaidAgain();
    }

    method PushRefs(ghost v: Vaddr, at: Paddr)
      requires Apart() && inProgress.Valid() && Laid() && v in objs && ms.LockedAt(v, at)
      modifies inProgress, inProgress.Repr
      ensures Apart() && inProgress.Valid() && Laid() && ms.LockedAt(v, at)
      ensures fresh(inProgress.Repr - old(inProgress.Repr))
      ensures inProgress.Contents() == old(inProgress.Contents()) + NonNull(objs[v].refs)
    {
      hide *;
      Disjoint();
      LaidParts();
      ghost var refs := objs[v].refs;
      var rtLen := GetRtLen(ms, objs, v, at);
      var i := 0;
      NonNullOfNone();
      assert refs[..0] == [];
      while i < rtLen
        invariant 0 <= i <= rtLen == |refs| && visit.Repr == old(visit.Repr)
        invariant Laid() && ms.Valid() && Represents(ms.content, objs) && ms.LockedAt(v, at) && ms.Own() == old(ms.Own())
        invariant inProgress.Valid() && fresh(inProgress.Repr - old(inProgress.Repr))
        invariant inProgress.Contents() == old(inProgress.Contents()) + NonNull(refs[..i])
      {
        NonNullNext(refs, i);
        var b := GetRef(ms, objs, v, at, i);
        if b != NULL_VADDR {
          inProgress.PushBack(b);
        }
        i := i + 1;
      }
      assert refs[..i] == refs;
      StillApart();
    }

    /** One pop of the in-progress stack: a white object turns grey and moves to the visit stack. */
    method PopProgress(ghost objs0: Heap, ghost rs: seq<Vaddr>, ghost popped: nat, ghost visits: nat)
      requires Apart() && inProgress.Valid() && visit.Valid() && Laid() && inProgress.Contents() != []
      requires ms.adb.held == {}
      requires Rooted(objs0, rs) && MarkInv(objs0, rs, objs, inProgress.Contents(), visit.Contents(), popped, visits)
      modifies this`objs, ms.Own(), inProgress, inProgress.Repr, visit, visit.Repr
      ensures Apart() && inProgress.Valid() && visit.Valid() && Laid()
      ensures ms.Own() == old(ms.Own()) && ms.adb.held == {}
      ensures fresh(inProgress.Repr - old(inProgress.Repr)) && fresh(visit.Repr - old(visit.Repr))
      ensures MarkInv(objs0, rs, objs, inProgress.Contents(), visit.Contents(), popped + 1, visits)
      ensures |inProgress.Contents()| < |old(inProgress.Contents())| && Whites(objs) <= old(Whites(objs))
      ensures Whites(objs) == old(Whites(objs)) ==> visit.Contents() == old(visit.Contents())
    {
      hide *;
      Disjoint();
      LaidParts();
      var v := inProgress.PopBack();
      LastOfSnoc(inProgress.Contents(), v);
      PopGreys(objs0, rs, objs, old(inProgress.Contents()), visit.Contents(), popped, visits);
      HasStatus(objs, v, Unvisited);
      var at := ms.GetWrite(v);
      LaidAgain();
      var white := Shade(v, at);
      if white {
        visit.PushBack(v);
      }
      StillApart();
      Release(v, at);
    }

    /** A white object turns grey. */
    method Shade(ghost v: Vaddr, at: Paddr) returns (white: bool)
      requires Apart() && Laid() && v in objs && ms.LockedAt(v, at)
      modifies this`objs, ms.Own()
      ensures Laid() && ms.LockedAt(v, at) && ms.Own() == old(ms.Own()) && ms.adb.held == old(ms.adb.held)
      ensures white == (old(objs)[v].status == Unvisited) && objs == Greyed(old(objs), v)
    {
      hide *;
      Disjoint();
      LaidParts();
      GreyedIs(objs, v);
      var status := GetStatus(ms, objs, v, at);
      white := status == Unvisited;
      if white {
        SetStatus(ms, objs, v, at, InProgress);
        objs := objs[v := objs[v].(status := InProgress)];
        SameNull(old(objs), objs, v);
      }
      LaidAgain();
    }

    /** ms_unlock. */
    method Release(v: Vaddr, ghost at: Paddr)
      requires Apart() && Laid() && ms.LockedAt(v, at)
      modifies ms.Own()
      ensures Apart() && Laid() && ms.Own() == old(ms.Own()) && ms.adb.held == old(ms.adb.held) - {v}
    {
      hide *;
      Disjoint();
      LaidParts();
      ms.LockedIs(v, at);
      ms.Unlock(v);
      StillApart();
      LaidAgain();
    }

    /** One pop of the visit stack: the references of a grey object are pushed and it turns black. */
    method PopVisit(ghost objs0: Heap, ghost rs: seq<Vaddr>, ghost popped: nat, ghost visits: nat)
      requires Apart() && inProgress.Valid() && visit.Valid() && Laid() && visit.Contents() != []
      requires ms.adb.held == {}
      requires Rooted(objs0, rs) && MarkInv(objs0, rs, objs, inProgress.Contents(), visit.Contents(), popped, visits)
      modifies this`objs, ms.Own(), inProgress, inProgress.Repr, visit, visit.Repr
      ensures Apart() && inProgress.Valid() && visit.Valid() && Laid()
      ensures ms.Own() == old(ms.Own()) && ms.adb.held == {}
      ensures fresh(inProgress.Repr - old(inProgress.Repr)) && fresh(visit.Repr - old(visit.Repr))
      ensures MarkInv(objs0, rs, objs, inProgress.Contents(), visit.Contents(), popped, visits + 1)
      ensures |visit.Contents()| < |old(visit.Contents())| && Whites(objs) == old(Whites(objs))
    {
      hide *;
      Disjoint();
      LaidParts();
      var v := visit.PopBack();
      LastOfSnoc(visit.Contents(), v);
      PopVisits(objs0, rs, objs, inProgress.Contents(), old(visit.Contents()), popped, visits);
      HasStatus(objs, v, InProgress);
      var at := ms.GetWrite(v);
      var status := GetStatus(ms, objs, v, at);
      StillApart();
      LaidAgain();
      if status == InProgress {
        VisitObj(v, at);
      }
      Release(v, at);
    }

    /** The first inner loop. */
    method DrainProgress(ghost objs0: Heap, ghost rs: seq<Vaddr>, ghost popped: nat, ghost visits: nat)
        returns (productive: bool, ghost popped': nat)
      requires Apart() && inProgress.Valid() && visit.Valid() && Laid() && ms.adb.held == {}
      requires visit.Contents() == []
      requires Rooted(objs0, rs) && MarkInv(objs0, rs, objs, inProgress.Contents(), visit.Contents(), popped, visits)
      modifies this`objs, ms.Own(), inProgress, inProgress.Repr, visit, visit.Repr
      ensures Apart() && inProgress.Valid() && visit.Valid() && Laid()
      ensures ms.Own() == old(ms.Own()) && ms.adb.held == {}
      ensures fresh(inProgress.Repr - old(inProgress.Repr)) && fresh(visit.Repr - old(visit.Repr))
      ensures MarkInv(objs0, rs, objs, inProgress.Contents(), visit.Contents(), popped', visits)
      ensures inProgress.Contents() == [] && (productive <==> old(inProgress.Contents()) != [])
      ensures Whites(objs) <= old(Whites(objs))
      ensures Whites(objs) == old(Whites(objs)) ==> visit.Contents() == []
      ensures !productive ==> Whites(objs) == old(Whites(objs))
    {
      hide *;
      Disjoint();
      productive, popped' := false, popped;
      var empty := inProgress.Empty();
      while !empty
        invariant Apart() && inProgress.Valid() && visit.Valid() && Laid()
        invariant ms.Own() == old(ms.Own()) && ms.adb.held == {}
        invariant fresh(inProgress.Repr - old(inProgress.Repr)) && fresh(visit.Repr - old(visit.Repr))
        invariant MarkInv(objs0, rs, objs, inProgress.Contents(), visit.Contents(), popped', visits)
        invariant empty <==> inProgress.Contents() == []
        invariant Whites(objs) <= old(Whites(objs))
        invariant Whites(objs) == old(Whites(objs)) ==> visit.Contents() == []
        invariant productive ==> old(inProgress.Contents()) != []
        invariant !productive ==> inProgress.Contents() == old(inProgress.Contents()) && Whites(objs) == old(Whites(objs))
        decreases |inProgress.Contents()|
      {
        PopProgress(objs0, rs, popped', visits);
        popped', productive := popped' + 1, true;
        Disjoint();
        empty := inProgress.Empty();
      }
    }

    /** The second. */
    method DrainVisit(ghost objs0: Heap, ghost rs: seq<Vaddr>, ghost popped: nat, ghost visits: nat)
        returns (productive: bool, ghost visits': nat)
      requires Apart() && inProgress.Valid() && visit.Valid() && Laid() && ms.adb.held == {}
      requires inProgress.Contents() == []
      requires Rooted(objs0, rs) && MarkInv(objs0, rs, objs, inProgress.Contents(), visit.Contents(), popped, visits)
      modifies this`objs, ms.Own(), inProgress, inProgress.Repr, visit, visit.Repr
      ensures Apart() && inProgress.Valid() && visit.Valid() && Laid()
      ensures ms.Own() == old(ms.Own()) && ms.adb.held == {}
      ensures fresh(inProgress.Repr - old(inProgress.Repr)) && fresh(visit.Repr - old(visit.Repr))
      ensures MarkInv(objs0, rs, objs, inProgress.Contents(), visit.Contents(), popped, visits')
      ensures visit.Contents() == [] && (productive <==> old(visit.Contents()) != [])
      ensures Whites(objs) == old(Whites(objs)) && (!productive ==> inProgress.Contents() == [])
    {
      hide *;
      Disjoint();
      productive, visits' := false, visits;
      var empty := visit.Empty();
      while !empty
        invariant Apart() && inProgress.Valid() && visit.Valid() && Laid()
        invariant ms.Own() == old(ms.Own()) && ms.adb.held == {}
        invariant fresh(inProgress.Repr - old(inProgress.Repr)) && fresh(visit.Repr - old(visit.Repr))
        invariant MarkInv(objs0, rs, objs, inProgress.Contents(), visit.Contents(), popped, visits')
        invariant empty <==> visit.Contents() == []
        invariant Whites(objs) == old(Whites(objs))
        invariant productive ==> old(visit.Contents()) != []
        invariant !productive ==> inProgress.Contents() == [] && visit.Contents() == old(visit.Contents())
        decreases |visit.Contents()|
      {
        PopVisit(objs0, rs, popped, visits');
        visits', productive := visits' + 1, true;
        Disjoint();
        empty := visit.Empty();
      }
    }

    /** One iteration of the outer loop. */
    method Iterate(ghost objs0: Heap, ghost rs: seq<Vaddr>, ghost popped: nat, ghost visits: nat)
        returns (productive: bool, ghost popped': nat, ghost visits': nat)
      requires Apart() && inProgress.Valid() && visit.Valid() && Laid() && ms.adb.held == {}
      requires visit.Contents() == []
      requires Rooted(objs0, rs) && MarkInv(objs0, rs, objs, inProgress.Contents(), visit.Contents(), popped, visits)
      modifies this`objs, ms.Own(), inProgress, inProgress.Repr, visit, visit.Repr
      ensures Apart() && inProgress.Valid() && visit.Valid() && Laid()
      ensures ms.Own() == old(ms.Own()) && ms.adb.held == {}
      ensures fresh(inProgress.Repr - old(inProgress.Repr)) && fresh(visit.Repr - old(visit.Repr))
      ensures MarkInv(objs0, rs, objs, inProgress.Contents(), visit.Contents(), popped', visits')
      ensures visit.Contents() == [] && (!productive ==> inProgress.Contents() == [])
      ensures Whites(objs) < old(Whites(objs)) || !productive
              || (Whites(objs) == old(Whites(objs)) && inProgress.Contents() == [] && old(inProgress.Contents()) != [])
      ensures !productive ==> Whites(objs) == old(Whites(objs)) && old(inProgress.Contents()) == []
    {
      hide *;
      var found, visited;
      found, popped' := DrainProgress(objs0, rs, popped, visits);
      ghost var a, b := inProgress.Repr, visit.Repr;
      assert fresh(a - old(inProgress.Repr)) && fresh(b - old(visit.Repr));
      visited, visits' := DrainVisit(objs0, rs, popped', visits);
      assert fresh(inProgress.Repr - a) && fresh(visit.Repr - b);
      Increments(old(inProgress.Repr), a, inProgress.Repr);
      Increments(old(visit.Repr), b, visit.Repr);
      productive := found || visited;
    }

    /** The outer loop. The visit stack is empty whenever an iteration starts. */
    method Mark(ghost objs0: Heap, ghost rs: seq<Vaddr>) returns (ghost popped: nat, ghost visits: nat)
      requires gcInProgress && paintBlackInProgress
      requires Apart() && inProgress.Valid() && visit.Valid() && Laid() && Rooted(objs0, rs) && ms.adb.held == {}
      requires MarkInv(objs0, rs, objs, inProgress.Contents(), visit.Contents(), 0, 0)
      requires visit.Contents() == []
      modifies this`objs, ms.Own(), inProgress, inProgress.Repr, visit, visit.Repr
      ensures Apart() && inProgress.Valid() && visit.Valid() && Laid()
      ensures ms.Own() == old(ms.Own()) && ms.adb.held == {}
      ensures fresh(inProgress.Repr - old(inProgress.Repr)) && fresh(visit.Repr - old(visit.Repr))
      ensures inProgress.Contents() == [] && visit.Contents() == []
      ensures MarkInv(objs0, rs, objs, [], [], popped, visits)
    {
      hide *;
      var productive := true;
      popped, visits := 0, 0;
      while productive
        invariant Apart() && inProgress.Valid() && visit.Valid() && Laid()
        invariant ms.Own() == old(ms.Own()) && ms.adb.held == {}
        invariant fresh(inProgress.Repr - old(inProgress.Repr)) && fresh(visit.Repr - old(visit.Repr))
        invariant visit.Contents() == [] && (!productive ==> inProgress.Contents() == [])
        invariant MarkInv(objs0, rs, objs, inProgress.Contents(), visit.Contents(), popped, visits)
        decreases Whites(objs), |inProgress.Contents()|, productive
      {
        productive, popped, visits := Iterate(objs0, rs, popped, visits);
      }
    }

    /** obj_unvisit, with the lock of the object. */
    method Unvisit(v: Vaddr)
      requires Apart() && Laid() && v in objs && ms.adb.held == {}
      modifies this`objs, ms.Own()
      ensures Apart() && Laid() && ms.Own() == old(ms.Own()) && ms.adb.held == {}
      ensures objs == old(objs)[v := old(objs)[v].(status := Unvisited)]
    {
      hide *;
      Disjoint();
      LaidParts();
      BytesOf(ms.content, objs, v);
      var at := ms.GetWrite(v);
      SetStatus(ms, objs, v, at, Unvisited);
      objs := objs[v := objs[v].(status := Unvisited)];
      SameNull(old(objs), objs, v);
      LaidAgain();
      StillApart();
      Release(v, at);
    }

    /** The paint white phase: ms_foreach over obj_unvisit. */
    method PaintWhite()
      requires Apart() && inProgress.Valid() && visit.Valid() && Laid() && ms.adb.held == {}
      modifies this`objs, ms.Own()
      ensures Apart() && inProgress.Valid() && visit.Valid() && Laid() && ms.Own() == old(ms.Own()) && ms.adb.held == {}
      ensures inProgress.Contents() == old(inProgress.Contents()) && visit.Contents() == old(visit.Contents())
      ensures objs == White(old(objs)) && unchanged(roots, roots.entries)
    {
      hide *;
      Disjoint();
      var q := Addresses();
      NonePainted(objs, q);
      for k := 0 to |q|
        invariant Apart() && Laid() && ms.Own() == old(ms.Own()) && ms.adb.held == {}
        invariant Painted(old(objs), objs, q[..k])
      {
        PaintedKeys(old(objs), objs, q[..k]);
        PaintNext(old(objs), objs, q, k);
        Unvisit(q[k]);
      }
      AllPainted(old(objs), objs, q);
    }

    /** The addresses of the objects, as ms_foreach goes through them. */
    method Addresses() returns (q: seq<Vaddr>)
      requires Laid()
      ensures forall v :: v in q <==> v in objs
    {
      LaidParts();
      ms.PiecesAreCells();
      q := ms.adb.ForEach();
    }

    /** The loop that pushes the live roots. */
    method PushRoots()
      requires Apart() && inProgress.Valid()
      modifies inProgress, inProgress.Repr
      ensures Apart() && inProgress.Valid() && fresh(inProgress.Repr - old(inProgress.Repr))
      ensures inProgress.Contents() == old(inProgress.Contents()) + RootList(roots.entries[..])
    {
      hide *;
      Disjoint();
      var i := 0;
      RootListOfNone();
      assert roots.entries[..0] == [];
      while i < roots.entries.Length
        invariant 0 <= i <= roots.entries.Length && visit.Repr == old(visit.Repr)
        invariant inProgress.Valid() && fresh(inProgress.Repr - old(inProgress.Repr))
        invariant inProgress.Contents() == old(inProgress.Contents()) + RootList(roots.entries[..i])
      {
        var entry := roots.entries[i];
        RootListStep(roots.entries[..i + 1]);
        assert roots.entries[..i + 1][..i] == roots.entries[..i];
        if entry.Allocated? {
          inProgress.PushBack(entry.vaddr);
        }
        i := i + 1;
      }
      assert roots.entries[..i] == roots.entries[..];
      StillApart();
    }

    /** The sweep: ms_filter with obj_reachable. */
    method Sweep() returns (filtered: nat)
      requires gcInProgress && !paintBlackInProgress
      requires Apart() && inProgress.Valid() && visit.Valid() && Laid() && ms.adb.held == {}
      modifies this`objs, ms.Own()
      ensures Apart() && inProgress.Valid() && visit.Valid() && Laid() && ms.Own() == old(ms.Own()) && ms.adb.held == {}
      ensures inProgress.Contents() == old(inProgress.Contents()) && visit.Contents() == old(visit.Contents())
      ensures unchanged(roots, roots.entries)
      ensures objs == Kept(old(objs)) && filtered == |old(objs)| - |objs|
    {
      hide *;
      Disjoint();
      LaidParts();
      filtered := SweepSpace(ms, objs);
      KeptHasNoNull(objs);
      objs := Kept(objs);
      LaidAgain();
    }

    /**
     cs_collect_garbage. It frees exactly the objects that no path of references leads to from a live root and
     returns their number; the others keep their references and their data. Marking pops the in-progress stack
     once for each live root entry and once for each reference that is not null of an object in use, and
     the visit stack once for each object in use.
     */
    method CollectGarbage() returns (filtered: nat, ghost popped: nat, ghost visits: nat)
      requires Valid() && (gcInProgress || (Tidy() && ms.adb.held == {}))
      modifies this`objs, this`gcInProgress, this`paintBlackInProgress, ms.Own()
      modifies inProgress, inProgress.Repr, visit, visit.Repr
      ensures Valid() && fresh(inProgress.Repr - old(inProgress.Repr)) && fresh(visit.Repr - old(visit.Repr))
      ensures ms.Own() == old(ms.Own()) && ms.adb.held == old(ms.adb.held)
      ensures old(gcInProgress) ==> filtered == popped == visits == 0 && objs == old(objs) && unchanged(ms)
      ensures gcInProgress == old(gcInProgress)
      ensures !old(gcInProgress) ==>
                var used := old(InUse(objs, roots.Roots()));
                && Tidy() && objs == Survivors(old(objs), used) && objs.Keys == used
                && filtered == |old(objs).Keys - used| && InUse(objs, roots.Roots()) == used
                && popped == |old(roots.Roots())| + Sum(used, Pushes(old(objs))) && visits == |used|
    {
      hide *;
      if gcInProgress {
        return 0, 0, 0;
      }
      TidyParts();
      Parts();
      filtered, popped, visits := Cycle(objs, roots.entries[..]);
      Whole();
      PartsTidy();
    }

    /** The phases, and the two critical sections on the progress flag. */
    method Cycle(ghost objs0: Heap, ghost entries: seq<RS.Entry>)
        returns (filtered: nat, ghost popped: nat, ghost visits: nat)
      requires !gcInProgress && !paintBlackInProgress
      requires Apart() && inProgress.Valid() && visit.Valid() && Laid() && ms.adb.held == {}
      requires inProgress.Contents() == [] && visit.Contents() == []
      requires objs == objs0 && roots.entries[..] == entries && Sane(objs0, RS.LiveRoots(entries))
      modifies this`objs, this`gcInProgress, this`paintBlackInProgress, ms.Own()
      modifies inProgress, inProgress.Repr, visit, visit.Repr
      ensures Apart() && inProgress.Valid() && visit.Valid() && Laid() && !paintBlackInProgress && !gcInProgress
      ensures ms.Own() == old(ms.Own()) && ms.adb.held == {}
      ensures fresh(inProgress.Repr - old(inProgress.Repr)) && fresh(visit.Repr - old(visit.Repr))
      ensures inProgress.Contents() == [] && visit.Contents() == [] && unchanged(roots, roots.entries)
      ensures var (roots, used) := (RS.LiveRoots(entries), InUse(objs0, RS.LiveRoots(entries)));
              && objs == Survivors(objs0, used) && objs.Keys == used && InUse(objs, roots) == used && Sane(objs, roots)
              && filtered == |objs0.Keys - used|
              && popped == |roots| + Sum(used, Pushes(objs0)) && visits == |used|
    {
      hide *;
      Disjoint();
      gcInProgress := true;
      popped, visits := FindUsed(objs0, entries);
      filtered := Sweep();
      gcInProgress := false;
      SurvivorsStayInUse(objs0, RS.LiveRoots(entries));
    }

    /** The paint white and the paint black phase. */
    method FindUsed(ghost objs0: Heap, ghost entries: seq<RS.Entry>) returns (ghost popped: nat, ghost visits: nat)
      requires gcInProgress && !paintBlackInProgress
      requires Apart() && inProgress.Valid() && visit.Valid() && Laid() && ms.adb.held == {}
      requires inProgress.Contents() == [] && visit.Contents() == []
      requires objs == objs0 && roots.entries[..] == entries && Sane(objs0, RS.LiveRoots(entries))
      modifies this`objs, this`paintBlackInProgress, ms.Own()
      modifies inProgress, inProgress.Repr, visit, visit.Repr
      ensures Apart() && inProgress.Valid() && visit.Valid() && Laid() && !paintBlackInProgress
      ensures ms.Own() == old(ms.Own()) && ms.adb.held == {} && unchanged(roots, roots.entries)
      ensures fresh(inProgress.Repr - old(inProgress.Repr)) && fresh(visit.Repr - old(visit.Repr))
      ensures inProgress.Contents() == [] && visit.Contents() == []
      ensures var (roots, used) := (RS.LiveRoots(entries), InUse(objs0, RS.LiveRoots(entries)));
              && Kept(objs) == Survivors(objs0, used) && |objs| - |Kept(objs)| == |objs0.Keys - used|
              && popped == |roots| + Sum(used, Pushes(objs0)) && visits == |used|
    {
      hide *;
      StartMarking();
      Disjoint();
      ghost var a := inProgress.Repr;
      assert fresh(a - old(inProgress.Repr)) && visit.Repr == old(visit.Repr);
      assert roots.entries[..] == entries;
      WhiteIsReady(objs0, entries);
      popped, visits := Mark(White(objs0), RootList(entries));
      assert fresh(inProgress.Repr - a) && fresh(visit.Repr - old(visit.Repr));
      Increments(old(inProgress.Repr), a, inProgress.Repr);
      paintBlackInProgress := false;
      CycleEnds(objs0, entries, objs, popped, visits);
    }

    /** All objects turn white, the flag is set, and the roots are pushed. */
    method StartMarking()
      requires gcInProgress && !paintBlackInProgress
      requires Apart() && inProgress.Valid() && visit.Valid() && Laid() && ms.adb.held == {}
      requires inProgress.Contents() == []
      modifies this`objs, this`paintBlackInProgress, ms.Own(), inProgress, inProgress.Repr
      ensures Apart() && inProgress.Valid() && visit.Valid() && Laid() && ms.Own() == old(ms.Own()) && ms.adb.held == {}
      ensures fresh(inProgress.Repr - old(inProgress.Repr)) && visit.Repr == old(visit.Repr)
      ensures unchanged(roots, roots.entries)
      ensures inProgress.Contents() == RootList(roots.entries[..]) && visit.Contents() == old(visit.Contents())
      ensures objs == White(old(objs)) && paintBlackInProgress && gcInProgress
    {
      hide *;
      Disjoint();
      PaintWhite();
      paintBlackInProgress := true;
      PushRoots();
      Nothing(RootList(roots.entries[..]));
    }

    lemma TidyParts()
      requires Valid() && Tidy()
      ensures inProgress.Contents() == [] && visit.Contents() == []
      ensures !gcInProgress && !paintBlackInProgress && Sane(objs, roots.Roots())
    {
    }

    lemma PartsTidy()
      requires Valid() && inProgress.Contents() == [] && visit.Contents() == []
      requires !gcInProgress && !paintBlackInProgress && Sane(objs, RS.LiveRoots(roots.entries[..]))
      ensures Tidy() && roots.Roots() == RS.LiveRoots(roots.entries[..])
    {
    }

    /** cs_malloc_p: a new object with null references, and its lock if the caller is to hold it. */
    method Malloc(rtLen: nat, daSize: nat, hold: bool) returns (v: Vaddr, paddr: Option<Paddr>, ghost data: seq<Cell>)
      requires Valid() && SizeOf(rtLen, daSize) + 8 <= MAX_REQUEST && ms.mbMinBytes <= MAX_REQUEST
      modifies this`objs, ms.Own()
      ensures Valid() && fresh(ms.Own() - old(ms.Own())) && v !in old(objs) && v != NULL_VADDR && |data| == daSize
      ensures objs == old(objs)[v := Obj(NewlyAdded, Nulls(rtLen), data)]
      ensures ms.adb.held == (if hold then old(ms.adb.held) + {v} else old(ms.adb.held) - {v})
      ensures if hold then paddr.Some? && ms.LockedAt(v, paddr.value) else paddr == None
      ensures unchanged(roots, roots.entries)
      ensures old(Tidy()) ==> Tidy() && InUse(objs, roots.Roots()) == old(InUse(objs, roots.Roots()))
    {
      hide *;
      Parts();
      Disjoint();
      LaidParts();
      ghost var tidy := Tidy();
      if tidy {
        TidyParts();
      }
      v, paddr, data := NewObject(ms, objs, rtLen, daSize, hold);
      if tidy {
        BirthKeepsInUse(objs, roots.Roots(), v, rtLen, data);
      }
      ApartGrows();
      Disjoint();
      objs := objs[v := Obj(NewlyAdded, Nulls(rtLen), data)];
      SameNull(old(objs), objs, v);
      LaidAgain();
      Whole();
      if tidy {
        Parts();
        PartsTidy();
      }
    }

    /** cs_root. */
    method Root(v: Vaddr) returns (id: nat)
      requires Valid() && (roots.freeHead == UINT64_MAX ==> 2 * roots.entries.Length < UINT64_MAX)
      modifies roots, roots.entries
      ensures Valid() && (roots.entries == old(roots.entries) || fresh(roots.entries))
      ensures id !in old(roots.Roots()) && roots.Roots() == old(roots.Roots())[id := v]
      ensures inProgress.Contents() == old(inProgress.Contents()) && visit.Contents() == old(visit.Contents())
    {
      hide *;
      Parts();
      Disjoint();
      id := roots.Root(v);
      ApartRooted();
      Whole();
    }

    twostate lemma ApartRooted()
      requires old(Apart()) && (roots.entries == old(roots.entries) || fresh(roots.entries))
      requires inProgress.Repr == old(inProgress.Repr) && visit.Repr == old(visit.Repr) && ms.Own() == old(ms.Own())
      ensures Apart()
    {
    }

    /** cs_malloc_root: the lock of the new object is given back when it is rooted. */
    method MallocRoot(rtLen: nat, daSize: nat) returns (id: nat, ghost v: Vaddr, ghost data: seq<Cell>)
      requires Valid() && SizeOf(rtLen, daSize) + 8 <= MAX_REQUEST && ms.mbMinBytes <= MAX_REQUEST
      requires Tidy() && (roots.freeHead == UINT64_MAX ==> 2 * roots.entries.Length < UINT64_MAX)
      modifies this`objs, ms.Own(), roots, roots.entries
      ensures Valid() && Tidy() && fresh(ms.Own() - old(ms.Own())) && v !in old(objs) && |data| == daSize
      ensures objs == old(objs)[v := Obj(NewlyAdded, Nulls(rtLen), data)] && ms.adb.held == old(ms.adb.held) - {v}
      ensures id !in old(roots.Roots()) && roots.Roots() == old(roots.Roots())[id := v]
      ensures InUse(objs, roots.Roots()) == old(InUse(objs, roots.Roots())) + {v}
    {
      hide *;
      var u, paddr;
      Parts();
      Disjoint();
      TidyParts();
      u, paddr, data := Malloc(rtLen, daSize, true);
      v := u;
      TidyParts();
      Parts();
      Disjoint();
      assert ms.LockedAt(u, paddr.value);  // nobody can free the object before it is rooted
      id := Root(u);
      Unlock(u);
      NewRoot(old(objs), old(roots.Roots()), v, rtLen, data, id);
      Parts();
      PartsTidy();
    }

    twostate lemma ApartGrows()
      requires old(Apart()) && fresh(ms.Own() - old(ms.Own()))
      requires inProgress.Repr == old(inProgress.Repr) && visit.Repr == old(visit.Repr)
      requires roots.entries == old(roots.entries)
      ensures Apart()
    {
    }

    /**
     cs_get_write. The guard of the source compares the address, not the status, with GC_NEWLY_ADDED, so a
     newly added object is visited as a white or a grey one is. The caller has the lock afterwards.
     */
    method GetWrite(v: Vaddr) returns (at: Paddr)
      requires Valid() && v in objs && v !in ms.adb.held
      modifies this`objs, ms.Own(), inProgress, inProgress.Repr
      ensures Valid() && fresh(inProgress.Repr - old(inProgress.Repr))
      ensures ms.LockedAt(v, at) && ms.Own() == old(ms.Own()) && ms.adb.held == old(ms.adb.held) + {v}
      ensures var visits := paintBlackInProgress && old(objs)[v].status != Visited;
              && objs == (if visits then Blackened(old(objs), v) else old(objs))
              && inProgress.Contents() == old(inProgress.Contents())
                                          + if visits then NonNull(old(objs)[v].refs) else []
    {
      hide *;
      Parts();
      Disjoint();
      LaidParts();
      at := ms.GetWrite(v);
      var status := GetStatus(ms, objs, v, at);
      LaidAgain();
      if status != Visited && paintBlackInProgress {
        VisitObj(v, at);
        BlackenedIs(old(objs), v);
      }
      Whole();
    }

    /** The owner of the lock stores a reference. */
    method StoreRef(ghost v: Vaddr, at: Paddr, k: nat, b: Vaddr)
      requires Valid() && v in objs && ms.LockedAt(v, at) && k < |objs[v].refs|
      modifies this`objs, ms.Own()
      ensures Valid() && ms.LockedAt(v, at) && ms.Own() == old(ms.Own()) && ms.adb.held == old(ms.adb.held)
      ensures objs == old(objs)[v := old(objs)[v].(refs := old(objs)[v].refs[k := b])]
    {
      hide *;
      Parts();
      Disjoint();
      LaidParts();
      SetRef(ms, objs, v, at, k, b);
      objs := objs[v := objs[v].(refs := objs[v].refs[k := b])];
      LaidAgain();
      Whole();
    }

    /** cs_unlock. */
    method Unlock(v: Vaddr)
      requires Valid() && v in objs
      modifies ms.Own()
      ensures Valid() && ms.Own() == old(ms.Own()) && ms.adb.held == old(ms.adb.held) - {v}
      ensures inProgress.Contents() == old(inProgress.Contents()) && visit.Contents() == old(visit.Contents())
      ensures unchanged(roots, roots.entries)
    {
      hide *;
      Parts();
      Disjoint();
      LaidParts();
      ms.Unlock(v);
      LaidAgain();
      Whole();
    }
  }

  lemma BirthKeepsInUse(objs: Heap, roots: map<nat, Vaddr>, v: Vaddr, n: nat, data: seq<Cell>)
    requires Sane(objs, roots) && v !in objs && v != NULL_VADDR
    ensures var objs' := objs[v := Obj(NewlyAdded, Nulls(n), data)];
            Sane(objs', roots) && InUse(objs', roots) == InUse(objs, roots)
  {
    hide Reach;
    var objs' := objs[v := Obj(NewlyAdded, Nulls(n), data)];
    InUseIsAllocated(objs, roots);
    AddUnreached(RefGraph(objs), roots.Values, v, Elems(Nulls(n)));
    assert RefGraph(objs') == RefGraph(objs)[v := Elems(Nulls(n))];
  }

  /** A new object that is rooted is in use, and nothing else is for that. */
  lemma NewRoot(objs: Heap, roots: map<nat, Vaddr>, v: Vaddr, n: nat, data: seq<Cell>, id: nat)
    requires Sane(objs, roots) && v !in objs && v != NULL_VADDR && id !in roots
    ensures var objs' := objs[v := Obj(NewlyAdded, Nulls(n), data)];
            Sane(objs', roots[id := v]) && InUse(objs', roots[id := v]) == InUse(objs, roots) + {v}
  {
    hide Reach;
    var objs', roots', used := objs[v := Obj(NewlyAdded, Nulls(n), data)], roots[id := v], InUse(objs, roots);
    BirthKeepsInUse(objs, roots, v, n, data);
    OneMore(roots, id, v);
    InUseIsAllocated(objs, roots);
    var g := RefGraph(objs');
    ReachIsClosed(g, roots.Values);
    ReachIsClosed(g, roots'.Values);
    assert g[v] == Elems(Nulls(n));
    ReachIsLeast(g, roots'.Values, used + {v});
    ReachIsLeast(g, roots.Values, InUse(objs', roots'));
  }

  lemma Nothing(q: seq<Vaddr>)
    ensures [] + q == q
  {
  }

  /** Painted white, with the roots pushed, marking may start. */
  lemma WhiteIsReady(objs: Heap, entries: seq<RS.Entry>)
    requires Sane(objs, RS.LiveRoots(entries))
    ensures Rooted(White(objs), RootList(entries))
    ensures MarkInv(White(objs), RootList(entries), White(objs), RootList(entries), [], 0, 0)
  {
    RootsAreRoots(White(objs), entries);
    WhiteIsSane(objs, RS.LiveRoots(entries));
    MarkStarts(White(objs), RootList(entries));
  }

  lemma CycleEnds(objs0: Heap, entries: seq<RS.Entry>, objs: Heap, popped: nat, visits: nat)
    requires Sane(objs0, RS.LiveRoots(entries))
    requires MarkInv(White(objs0), RootList(entries), objs, [], [], popped, visits)
    ensures var used := InUse(objs0, RS.LiveRoots(entries));
            && Kept(objs) == Survivors(objs0, used)
            && popped == |RS.LiveRoots(entries)| + Sum(used, Pushes(objs0)) && visits == |used|
            && |objs| - |Survivors(objs0, used)| == |objs0.Keys - used|
  {
    hide *;
    WhiteIsReady(objs0, entries);
    RootsAreRoots(White(objs0), entries);
    WhiteIsSane(objs0, RS.LiveRoots(entries));
    MarkEnds(White(objs0), RootList(entries), objs, popped, visits);
    RootListIsLive(entries);
    var used := InUse(objs0, RS.LiveRoots(entries));
    PushesOfWhite(objs0, used);
    MarkedIsKept(objs0, objs, used);
  }

  lemma PushesOfWhite(objs: Heap, s: set<Vaddr>)
    ensures Sum(s, Pushes(White(objs))) == Sum(s, Pushes(objs))
  {
    SumSame(s, Pushes(White(objs)), Pushes(objs));
  }

  lemma MarkedIsKept(objs0: Heap, objs: Heap, used: set<Vaddr>)
    requires SameHeap(White(objs0), objs) && used <= objs.Keys
    requires forall v :: v in objs ==> objs[v].status == if v in used then Visited else Unvisited
    ensures Kept(objs) == Survivors(objs0, used) && |objs| - |Survivors(objs0, used)| == |objs0.Keys - used|
  {
    assert White(objs0).Keys == objs0.Keys == objs.Keys;
    assert |objs| == |objs.Keys| && |objs0| == |objs0.Keys|;
    SurvivorsCount(objs0, used);
  }

  lemma SurvivorsCount(objs: Heap, used: set<Vaddr>)
    requires used <= objs.Keys
    ensures |objs| - |Survivors(objs, used)| == |objs.Keys - used|
  {
    assert Survivors(objs, used).Keys == used;
    assert |objs| == |objs.Keys| && |Survivors(objs, used)| == |used|;
    assert objs.Keys == used + (objs.Keys - used);
  }

  lemma BlackenedIs(objs: Heap, v: Vaddr)
    requires v in objs
    ensures Blackened(objs, v) == objs[v := objs[v].(status := Visited)]
  {
  }

  lemma HasStatus(objs: Heap, v: Vaddr, st: Status)
    ensures Has(objs, v, st) <==> v in objs && objs[v].status == st
  {
  }

  lemma GreyedIs(objs: Heap, v: Vaddr)
    requires v in objs
    ensures Greyed(objs, v) == if objs[v].status == Unvisited then objs[v := objs[v].(status := InProgress)] else objs
    ensures Has(objs, v, Unvisited) <==> objs[v].status == Unvisited
  {
  }

  lemma LastOfSnoc(q: seq<Vaddr>, v: Vaddr)
    ensures Last(q + [v]) == v && Front(q + [v]) == q
  {
  }

  /** The listed objects are white, the others as they were. */
  ghost predicate Painted(objs0: Heap, objs: Heap, q: seq<Vaddr>) {
    objs.Keys == objs0.Keys && forall v :: v in objs ==> objs[v] == if v in q then White(objs0)[v] else objs0[v]
  }

  lemma NonePainted(objs: Heap, q: seq<Vaddr>)
    ensures Painted(objs, objs, q[..0])
  {
  }

  lemma PaintedKeys(objs0: Heap, objs: Heap, q: seq<Vaddr>)
    requires Painted(objs0, objs, q)
    ensures objs.Keys == objs0.Keys
  {
  }

  lemma PaintNext(objs0: Heap, objs: Heap, q: seq<Vaddr>, k: nat)
    requires k < |q| && q[k] in objs && Painted(objs0, objs, q[..k])
    ensures Painted(objs0, objs[q[k] := objs[q[k]].(status := Unvisited)], q[..k + 1])
  {
    assert q[..k + 1] == q[..k] + [q[k]];
  }

  lemma AllPainted(objs0: Heap, objs: Heap, q: seq<Vaddr>)
    requires Painted(objs0, objs, q[..|q|]) && forall v :: v in q <==> v in objs0
    ensures objs == White(objs0)
  {
    assert q[..|q|] == q;
  }

  /** What has joined a set in two steps has joined it in one of them. */
  lemma Increments(a: set<object>, b: set<object>, c: set<object>)
    ensures forall o :: o in c && o !in a ==> o in b - a || o in c - b
  {
  }

  lemma SameNull(objs: Heap, objs': Heap, v: Vaddr)
    requires v in objs' && objs' == objs[v := objs'[v]] && v != NULL_VADDR
    ensures NULL_VADDR in objs' <==> NULL_VADDR in objs
  {
  }

  lemma KeptHasNoNull(objs: Heap)
    requires NULL_VADDR !in objs
    ensures NULL_VADDR !in Kept(objs)
  {
  }

  lemma RootListOfNone()
    ensures RootList([]) == []
  {
  }
}
