/** Objects, and reachability in the graph of their references. */
module Graph {
  import opened Common

  /** What the collector and its users have at an address. The data is what memory holds, which may be anything. */
  datatype Obj = Obj(status: Status, refs: seq<Vaddr>, data: seq<Cell>)

  type Heap = map<Vaddr, Obj>

  /** The reference table of a new object. */
  function Nulls(n: nat): seq<Vaddr> {
    seq(n, _ => NULL_VADDR)
  }

  /** What each address leads to; an edge to an address outside the map leads nowhere. */
  type Graph = map<Vaddr, set<Vaddr>>

  ghost function RefGraph(objs: Heap): Graph {
    map a | a in objs :: Elems(objs[a].refs)
  }

  ghost predicate IsPath(g: Graph, from: set<Vaddr>, p: seq<Vaddr>) {
    && |p| > 0
    && p[0] in from
    && (forall i :: 0 <= i < |p| ==> p[i] in g)
    && (forall i :: 0 < i < |p| ==> p[i] in g[p[i-1]])
  }

  /** The objects some path of references leads to from an address of from. */
  ghost function Reach(g: Graph, from: set<Vaddr>): set<Vaddr> {
    set a | a in g && exists p :: IsPath(g, from, p) && p[|p|-1] == a
  }

  ghost predicate Closed(g: Graph, from: set<Vaddr>, c: set<Vaddr>) {
    && (forall a :: a in from && a in g ==> a in c)
    && (forall a, b :: a in c && a in g && b in g[a] && b in g ==> b in c)
  }

  lemma PathEndsInReach(g: Graph, from: set<Vaddr>, p: seq<Vaddr>)
    requires IsPath(g, from, p)
    ensures p[|p|-1] in Reach(g, from)
  {
  }

  lemma PathExtends(g: Graph, from: set<Vaddr>, p: seq<Vaddr>, b: Vaddr)
    requires IsPath(g, from, p) && b in g[p[|p|-1]] && b in g
    ensures IsPath(g, from, p + [b])
  {
    var q := p + [b];
    assert q[0] == p[0];
    forall i | 0 < i < |q| ensures q[i] in g[q[i-1]] {
      assert q[i-1] == p[i-1];
    }
  }

  lemma ReachIsClosed(g: Graph, from: set<Vaddr>)
    ensures Closed(g, from, Reach(g, from))
  {
    forall a | a in from && a in g ensures a in Reach(g, from) {
      PathEndsInReach(g, from, [a]);
    }
    forall a, b | a in Reach(g, from) && b in g[a] && b in g ensures b in Reach(g, from) {
      var p :| IsPath(g, from, p) && p[|p|-1] == a;
      PathExtends(g, from, p, b);
      PathEndsInReach(g, from, p + [b]);
    }
  }

  lemma {:induction false} PathStaysInside(g: Graph, from: set<Vaddr>, c: set<Vaddr>, p: seq<Vaddr>)
    requires Closed(g, from, c) && IsPath(g, from, p)
    ensures p[|p|-1] in c
    decreases |p|
  {
    if |p| > 1 {
      var q := p[..|p|-1];
      assert IsPath(g, from, q);
      PathStaysInside(g, from, c, q);
      assert p[|p|-1] in g[q[|q|-1]];
    }
  }

  lemma ReachIsLeast(g: Graph, from: set<Vaddr>, c: set<Vaddr>)
    requires Closed(g, from, c)
    ensures Reach(g, from) <= c
  {
    forall a | a in Reach(g, from) ensures a in c {
      var p :| IsPath(g, from, p) && p[|p|-1] == a;
      PathStaysInside(g, from, c, p);
    }
  }

  /** The part of the graph that is reached. */
  ghost function Restrict(g: Graph, c: set<Vaddr>): Graph {
    map a | a in g && a in c :: g[a]
  }

  lemma RestrictClosed(g: Graph, from: set<Vaddr>, c: set<Vaddr>, d: set<Vaddr>)
    requires Closed(g, from, c) && Closed(Restrict(g, c), from, d) && d <= c
    ensures Closed(g, from, d)
  {
  }

  /** Nothing outside it is needed to reach it. */
  lemma ReachNeedsNoMore(g: Graph, from: set<Vaddr>)
    ensures Reach(Restrict(g, Reach(g, from)), from) == Reach(g, from)
  {
    var c := Reach(g, from);
    var d := Reach(Restrict(g, c), from);
    ReachIsClosed(g, from);
    ReachIsClosed(Restrict(g, c), from);
    RestrictClosed(g, from, c, d);
    ReachIsLeast(g, from, d);
  }

  lemma GrownClosed(g: Graph, from: set<Vaddr>, v: Vaddr, refs: set<Vaddr>, c: set<Vaddr>)
    requires v !in g && v !in from && Closed(g, from, c) && c <= g.Keys
    requires forall a :: a in c ==> v !in g[a]
    ensures Closed(g[v := refs], from, c)
  {
  }

  lemma ShrunkClosed(g: Graph, from: set<Vaddr>, v: Vaddr, refs: set<Vaddr>, c: set<Vaddr>)
    requires v !in g && Closed(g[v := refs], from, c)
    ensures Closed(g, from, c)
  {
  }

  /** An object that nothing in reach refers to changes nothing. */
  lemma AddUnreached(g: Graph, from: set<Vaddr>, v: Vaddr, refs: set<Vaddr>)
    requires v !in g && v !in from && forall a :: a in Reach(g, from) ==> v !in g[a]
    ensures Reach(g[v := refs], from) == Reach(g, from)
  {
    hide Closed;
    ReachIsClosed(g, from);
    GrownClosed(g, from, v, refs, Reach(g, from));
    ReachIsLeast(g[v := refs], from, Reach(g, from));
    ReachIsClosed(g[v := refs], from);
    ShrunkClosed(g, from, v, refs, Reach(g[v := refs], from));
    ReachIsLeast(g, from, Reach(g[v := refs], from));
  }

  /** What the sweep leaves: the marked objects. */
  ghost function Kept(objs: Heap): Heap {
    map v | v in objs && objs[v].status != Unvisited :: objs[v]
  }
}
