/** What marking keeps true when no mutator runs beside it, and what it has done when both stacks are empty. */
module Marking {
  import opened Common
  import opened Graph

  predicate Has(objs: Heap, v: Vaddr, st: Status) {
    v in objs && objs[v].status == st
  }

  ghost function WithStatus(objs: Heap, st: Status): set<Vaddr> {
    set v | v in objs && objs[v].status == st
  }

  /** The same objects with the same references and data. */
  ghost predicate SameHeap(a: Heap, b: Heap) {
    a.Keys == b.Keys && forall v :: v in a ==> b[v].refs == a[v].refs && b[v].data == a[v].data
  }

  /** The objects in use: those that references lead to from the pushed roots. */
  ghost function Used(objs: Heap, roots: seq<Vaddr>): set<Vaddr> {
    Reach(RefGraph(objs), Elems(roots))
  }

  /** What a caller owes the collector: live roots are allocated, and objects in use refer to allocated ones. */
  ghost predicate Rooted(objs: Heap, roots: seq<Vaddr>) {
    && NULL_VADDR !in objs
    && (forall v :: v in roots ==> v in objs)
    && (forall v, b :: v in Used(objs, roots) && v in objs && b in objs[v].refs ==> b == NULL_VADDR || b in objs)
  }

  /** The number of references that visiting v pushes. */
  ghost function Pushes(objs: Heap): Vaddr -> nat {
    v => if v in objs then |NonNull(objs[v].refs)| else 0
  }

  // ---------------------------------------------------------------------------- the invariant of marking

  /** v was found, or is about to be. */
  ghost predicate Found(objs: Heap, ip: seq<Vaddr>, v: Vaddr) {
    v in ip || (v in objs && objs[v].status != Unvisited)
  }

  ghost predicate RefsFound(objs: Heap, ip: seq<Vaddr>, v: Vaddr)
    requires v in objs
  {
    forall b :: b in objs[v].refs && b != NULL_VADDR ==> Found(objs, ip, b)
  }

  /** Both stacks hold objects in use; the visit stack holds exactly the IN_PROGRESS objects, each once. */
  ghost predicate StacksOk(used: set<Vaddr>, objs: Heap, ip: seq<Vaddr>, visit: seq<Vaddr>) {
    && (forall v :: v in ip ==> v in used)
    && NoRepeats(visit)
    && (forall v :: v in visit <==> Has(objs, v, InProgress))
  }

  ghost predicate ColoursOk(used: set<Vaddr>, objs: Heap, ip: seq<Vaddr>) {
    && (forall v :: v in objs ==> objs[v].status != NewlyAdded)
    && (forall v :: v in objs && objs[v].status != Unvisited ==> v in used)
    && (forall v {:trigger RefsFound(objs, ip, v)} :: Has(objs, v, Visited) ==> RefsFound(objs, ip, v))
  }

  /** popped and visits count the elements taken off the in-progress and the visit stack so far. */
  ghost predicate CostOk(objs0: Heap, objs: Heap, roots: seq<Vaddr>, ip: seq<Vaddr>, popped: nat, visits: nat) {
    && popped + |ip| == |roots| + Sum(WithStatus(objs, Visited), Pushes(objs0))
    && visits == |WithStatus(objs, Visited)|
  }

  ghost predicate MarkInv(objs0: Heap, roots: seq<Vaddr>, objs: Heap, ip: seq<Vaddr>, visit: seq<Vaddr>,
                          popped: nat, visits: nat) {
    && SameHeap(objs0, objs)
    && StacksOk(Used(objs0, roots), objs, ip, visit)
    && ColoursOk(Used(objs0, roots), objs, ip)
    && (forall v :: v in roots ==> Found(objs, ip, v))
    && CostOk(objs0, objs, roots, ip, popped, visits)
  }

  /** How far marking is from its end. */
  ghost function Whites(objs: Heap): nat {
    |WithStatus(objs, Unvisited)|
  }

  lemma UsedAreAllocated(objs: Heap, roots: seq<Vaddr>)
    requires Rooted(objs, roots)
    ensures forall v :: v in roots ==> v in Used(objs, roots)
    ensures forall v :: v in Used(objs, roots) ==> v in objs
    ensures forall v, b :: v in Used(objs, roots) && b in objs[v].refs && b != NULL_VADDR ==> b in Used(objs, roots)
  {
    ReachIsClosed(RefGraph(objs), Elems(roots));
  }

  lemma MarkStarts(objs0: Heap, roots: seq<Vaddr>)
    requires Rooted(objs0, roots) && forall v :: v in objs0 ==> objs0[v].status == Unvisited
    ensures MarkInv(objs0, roots, objs0, roots, [], 0, 0)
  {
    UsedAreAllocated(objs0, roots);
    assert WithStatus(objs0, Visited) == {};
  }

  // ---------------------------------------------------------------------------- popping the in-progress stack

  function Last(q: seq<Vaddr>): Vaddr
    requires q != []
  {
    q[|q|-1]
  }

  function Front(q: seq<Vaddr>): seq<Vaddr>
    requires q != []
  {
    q[..|q|-1]
  }

  lemma FrontLast(q: seq<Vaddr>)
    requires q != []
    ensures q == Front(q) + [Last(q)] && forall v :: v in q <==> v in Front(q) || v == Last(q)
  {
  }

  lemma StatusSet(objs: Heap, v: Vaddr, st: Status, c: Status)
    requires v in objs && objs[v].status != st
    ensures var objs' := objs[v := objs[v].(status := st)];
            WithStatus(objs', c) == if c == st then WithStatus(objs, c) + {v} else WithStatus(objs, c) - {v}
  {
  }

  /** The object on top of the in-progress stack, if it is white, moves to the visit stack. */
  ghost function Greyed(objs: Heap, v: Vaddr): Heap
    requires v in objs
  {
    if objs[v].status == Unvisited then objs[v := objs[v].(status := InProgress)] else objs
  }

  lemma FoundStays(objs: Heap, ip: seq<Vaddr>, objs': Heap, ip': seq<Vaddr>)
    requires SameHeap(objs, objs')
    requires forall v :: v in objs && objs[v].status != Unvisited ==> objs'[v].status != Unvisited
    requires forall v :: v in ip ==> Found(objs', ip', v)
    ensures forall v :: Found(objs, ip, v) ==> Found(objs', ip', v)
    ensures forall v :: v in objs && RefsFound(objs, ip, v) ==> RefsFound(objs', ip', v)
  {
  }

  lemma GreyKeepsStacks(used: set<Vaddr>, objs: Heap, ip: seq<Vaddr>, visit: seq<Vaddr>)
    requires StacksOk(used, objs, ip, visit) && ip != [] && Last(ip) in objs
    ensures StacksOk(used, Greyed(objs, Last(ip)), Front(ip),
                     if Has(objs, Last(ip), Unvisited) then visit + [Last(ip)] else visit)
  {
    FrontLast(ip);
    if Has(objs, Last(ip), Unvisited) {
      assert Last(ip) !in visit;
    }
  }

  lemma GreyKeepsColours(used: set<Vaddr>, objs: Heap, ip: seq<Vaddr>)
    requires ColoursOk(used, objs, ip) && ip != [] && Last(ip) in objs && Last(ip) in used
    ensures ColoursOk(used, Greyed(objs, Last(ip)), Front(ip))
    ensures forall v :: Found(objs, ip, v) ==> Found(Greyed(objs, Last(ip)), Front(ip), v)
  {
    FrontLast(ip);
    FoundStays(objs, ip, Greyed(objs, Last(ip)), Front(ip));
  }

  lemma GreyCounts(objs: Heap, v: Vaddr)
    requires v in objs
    ensures WithStatus(Greyed(objs, v), Visited) == WithStatus(objs, Visited)
    ensures Whites(Greyed(objs, v)) == Whites(objs) - if Has(objs, v, Unvisited) then 1 else 0
  {
    if objs[v].status == Unvisited {
      StatusSet(objs, v, InProgress, Visited);
      StatusSet(objs, v, InProgress, Unvisited);
    }
  }

  lemma PopGreys(objs0: Heap, roots: seq<Vaddr>, objs: Heap, ip: seq<Vaddr>, visit: seq<Vaddr>,
                 popped: nat, visits: nat)
    requires Rooted(objs0, roots) && MarkInv(objs0, roots, objs, ip, visit, popped, visits) && ip != []
    ensures Last(ip) in objs
    ensures var visit' := if Has(objs, Last(ip), Unvisited) then visit + [Last(ip)] else visit;
            MarkInv(objs0, roots, Greyed(objs, Last(ip)), Front(ip), visit', popped + 1, visits)
    ensures Whites(Greyed(objs, Last(ip))) == Whites(objs) - if Has(objs, Last(ip), Unvisited) then 1 else 0
  {
    hide Used, StacksOk, ColoursOk, Whites, Rooted, Found, Sum, WithStatus, SameHeap, Greyed, Has;
    TopIsUsed(objs0, roots, objs, ip, visit);
    GreyedIsSame(objs0, objs, Last(ip));
    GreyKeepsStacks(Used(objs0, roots), objs, ip, visit);
    GreyKeepsColours(Used(objs0, roots), objs, ip);
    GreyCounts(objs, Last(ip));
  }

  lemma GreyedIsSame(objs0: Heap, objs: Heap, v: Vaddr)
    requires SameHeap(objs0, objs) && v in objs
    ensures SameHeap(objs0, Greyed(objs, v))
  {
  }

  lemma TopIsUsed(objs0: Heap, roots: seq<Vaddr>, objs: Heap, ip: seq<Vaddr>, visit: seq<Vaddr>)
    requires Rooted(objs0, roots) && SameHeap(objs0, objs) && StacksOk(Used(objs0, roots), objs, ip, visit)
    ensures ip != [] ==> Last(ip) in objs && Last(ip) in Used(objs0, roots)
    ensures visit != [] ==> Has(objs, Last(visit), InProgress)
  {
    UsedAreAllocated(objs0, roots);
    assert ip != [] ==> Last(ip) in ip;
    assert visit != [] ==> Last(visit) in visit;
  }

  // ---------------------------------------------------------------------------- popping the visit stack

  ghost function Blackened(objs: Heap, v: Vaddr): Heap
    requires v in objs
  {
    objs[v := objs[v].(status := Visited)]
  }

  lemma VisitKeepsStacks(used: set<Vaddr>, objs: Heap, ip: seq<Vaddr>, visit: seq<Vaddr>, more: seq<Vaddr>)
    requires StacksOk(used, objs, ip, visit) && visit != [] && Last(visit) in objs
    requires forall b :: b in more ==> b in used
    ensures StacksOk(used, Blackened(objs, Last(visit)), ip + more, Front(visit))
  {
    FrontLast(visit);
    assert Last(visit) !in Front(visit);
  }

  lemma VisitKeepsColours(used: set<Vaddr>, objs: Heap, ip: seq<Vaddr>, v: Vaddr)
    requires ColoursOk(used, objs, ip) && Has(objs, v, InProgress)
    ensures ColoursOk(used, Blackened(objs, v), ip + NonNull(objs[v].refs))
    ensures forall x :: Found(objs, ip, x) ==> Found(Blackened(objs, v), ip + NonNull(objs[v].refs), x)
  {
    var objs', ip' := Blackened(objs, v), ip + NonNull(objs[v].refs);
    FoundStays(objs, ip, objs', ip');
    assert RefsFound(objs', ip', v);
  }

  lemma VisitCounts(objs: Heap, v: Vaddr, objs0: Heap)
    requires Has(objs, v, InProgress) && SameHeap(objs0, objs)
    ensures Sum(WithStatus(Blackened(objs, v), Visited), Pushes(objs0))
            == Sum(WithStatus(objs, Visited), Pushes(objs0)) + |NonNull(objs[v].refs)|
    ensures |WithStatus(Blackened(objs, v), Visited)| == |WithStatus(objs, Visited)| + 1
    ensures Whites(Blackened(objs, v)) == Whites(objs)
  {
    StatusSet(objs, v, Visited, Visited);
    StatusSet(objs, v, Visited, Unvisited);
    SumAdd(WithStatus(objs, Visited), Pushes(objs0), v);
    assert WithStatus(objs, Unvisited) - {v} == WithStatus(objs, Unvisited);
  }

  lemma RefsAreUsed(objs0: Heap, roots: seq<Vaddr>, objs: Heap, v: Vaddr)
    requires Rooted(objs0, roots) && SameHeap(objs0, objs) && v in Used(objs0, roots)
    ensures v in objs && forall b :: b in NonNull(objs[v].refs) ==> b in Used(objs0, roots)
  {
    UsedAreAllocated(objs0, roots);
  }

  lemma PopVisits(objs0: Heap, roots: seq<Vaddr>, objs: Heap, ip: seq<Vaddr>, visit: seq<Vaddr>,
                  popped: nat, visits: nat)
    requires Rooted(objs0, roots) && MarkInv(objs0, roots, objs, ip, visit, popped, visits) && visit != []
    ensures Has(objs, Last(visit), InProgress)
    ensures var v := Last(visit);
            && MarkInv(objs0, roots, Blackened(objs, v), ip + NonNull(objs[v].refs), Front(visit), popped, visits + 1)
            && Whites(Blackened(objs, v)) == Whites(objs)
  {
    TopIsUsed(objs0, roots, objs, ip, visit);
    GreyIsUsed(Used(objs0, roots), objs, ip, Last(visit));
    PopVisitsOf(objs0, roots, objs, ip, visit, popped, visits);
  }

  lemma GreyIsUsed(used: set<Vaddr>, objs: Heap, ip: seq<Vaddr>, v: Vaddr)
    requires ColoursOk(used, objs, ip) && Has(objs, v, InProgress)
    ensures v in used
  {
  }

  lemma GreyExists(objs: Heap, v: Vaddr)
    requires Has(objs, v, InProgress)
    ensures v in objs
  {
  }

  lemma BlackenedIsSame(objs0: Heap, objs: Heap, v: Vaddr)
    requires SameHeap(objs0, objs) && v in objs
    ensures SameHeap(objs0, Blackened(objs, v))
  {
  }

  lemma PopVisitsOf(objs0: Heap, roots: seq<Vaddr>, objs: Heap, ip: seq<Vaddr>, visit: seq<Vaddr>,
                  popped: nat, visits: nat)
    requires Rooted(objs0, roots) && MarkInv(objs0, roots, objs, ip, visit, popped, visits) && visit != []
    requires Has(objs, Last(visit), InProgress) && Last(visit) in Used(objs0, roots)
    ensures var v := Last(visit);
            && MarkInv(objs0, roots, Blackened(objs, v), ip + NonNull(objs[v].refs), Front(visit), popped, visits + 1)
            && Whites(Blackened(objs, v)) == Whites(objs)
  {
    hide Used, StacksOk, ColoursOk, Whites, Rooted, NonNull, Found, Sum, WithStatus, SameHeap, Blackened, Has;
    GreyExists(objs, Last(visit));
    RefsAreUsed(objs0, roots, objs, Last(visit));
    BlackenedIsSame(objs0, objs, Last(visit));
    VisitKeepsStacks(Used(objs0, roots), objs, ip, visit, NonNull(objs[Last(visit)].refs));
    VisitKeepsColours(Used(objs0, roots), objs, ip, Last(visit));
    VisitCounts(objs, Last(visit), objs0);
  }

  // ---------------------------------------------------------------------------- the end of marking

  lemma BlackIsUsed(objs0: Heap, roots: seq<Vaddr>, objs: Heap)
    requires Rooted(objs0, roots) && SameHeap(objs0, objs) && ColoursOk(Used(objs0, roots), objs, [])
    requires StacksOk(Used(objs0, roots), objs, [], []) && forall v :: v in roots ==> Found(objs, [], v)
    ensures WithStatus(objs, Visited) == Used(objs0, roots)
  {
    var black := WithStatus(objs, Visited);
    assert forall v :: Found(objs, [], v) <==> v in black;
    forall v, b | v in black && b in objs[v].refs && b in objs0 ensures b in black {
      assert RefsFound(objs, [], v);
    }
    ReachIsLeast(RefGraph(objs0), Elems(roots), black);
  }

  /** Both stacks empty: the marked objects are those in use, and the costs are exact. */
  lemma MarkEnds(objs0: Heap, roots: seq<Vaddr>, objs: Heap, popped: nat, visits: nat)
    requires Rooted(objs0, roots) && MarkInv(objs0, roots, objs, [], [], popped, visits)
    ensures SameHeap(objs0, objs) && Used(objs0, roots) <= objs.Keys
    ensures forall v :: v in objs ==> objs[v].status == if v in Used(objs0, roots) then Visited else Unvisited
    ensures popped == |roots| + Sum(Used(objs0, roots), Pushes(objs0)) && visits == |Used(objs0, roots)|
  {
    hide Used, Rooted, Sum;
    BlackIsUsed(objs0, roots, objs);
    assert forall v :: v in WithStatus(objs, Visited) <==> Has(objs, v, Visited);
  }
}
