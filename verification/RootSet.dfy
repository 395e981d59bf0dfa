/** The root set: an array of entries whose unallocated ones form a list threaded through the array. */
module RootSetModule {
  import opened Common

  datatype Entry = Unallocated(nextFree: nat) | Allocated(vaddr: Vaddr)

  datatype RootStatus = Success | OutOfBounds | NotAllocated

  /** Following the list from head visits exactly the indices of chain, in this order, and ends. */
  ghost predicate Chain(entries: seq<Entry>, head: nat, chain: seq<nat>)
    decreases chain
  {
    if chain == [] then head == UINT64_MAX
    else
      && head == chain[0] < |entries| && entries[head].Unallocated?
      && Chain(entries, entries[head].nextFree, chain[1..])
  }

  /** Every unallocated entry is visited, exactly once, and no other. */
  ghost predicate FreeList(entries: seq<Entry>, head: nat, chain: seq<nat>) {
    && |entries| < UINT64_MAX
    && Chain(entries, head, chain) && NoRepeats(chain)
    && (forall i :: 0 <= i < |entries| ==> (entries[i].Unallocated? <==> i in chain))
  }

  /** A list determines what it visits. */
  lemma {:induction false} ChainIsUnique(entries: seq<Entry>, head: nat, a: seq<nat>, b: seq<nat>)
    requires |entries| < UINT64_MAX && Chain(entries, head, a) && Chain(entries, head, b)
    ensures a == b
    decreases |a|
  {
    if a != [] && b != [] {
      ChainIsUnique(entries, entries[head].nextFree, a[1..], b[1..]);
      assert a == [a[0]] + a[1..] && b == [b[0]] + b[1..];
    }
  }

  /** Entries off the list do not matter to it. */
  lemma {:induction false} ChainSame(entries: seq<Entry>, entries': seq<Entry>, head: nat, chain: seq<nat>)
    requires Chain(entries, head, chain) && |entries| <= |entries'|
    requires forall i :: i in chain && i < |entries| ==> entries'[i] == entries[i]
    ensures Chain(entries', head, chain)
    decreases |chain|
  {
    if chain != [] {
      assert chain[0] in chain;
      ChainSame(entries, entries', entries[head].nextFree, chain[1..]);
    }
  }

  lemma PopKeepsList(entries: seq<Entry>, head: nat, chain: seq<nat>, v: Vaddr)
    requires FreeList(entries, head, chain) && chain != []
    ensures head == chain[0] < |entries| && entries[head].Unallocated?
    ensures FreeList(entries[head := Allocated(v)], entries[head].nextFree, chain[1..])
  {
    ChainSame(entries, entries[head := Allocated(v)], entries[head].nextFree, chain[1..]);
    forall i | 0 <= i < |entries| ensures entries[head := Allocated(v)][i].Unallocated? <==> i in chain[1..] {
      assert i in chain <==> i == chain[0] || i in chain[1..];
    }
  }

  lemma PushKeepsList(entries: seq<Entry>, head: nat, chain: seq<nat>, id: nat)
    requires FreeList(entries, head, chain) && id < |entries| && entries[id].Allocated?
    ensures FreeList(entries[id := Unallocated(head)], id, [id] + chain)
  {
    var entries' := entries[id := Unallocated(head)];
    assert id !in chain;
    ChainSame(entries, entries', head, chain);
    assert ([id] + chain)[1..] == chain;
  }

  /** The indices from lo to hi. */
  ghost function Range(lo: nat, hi: nat): (r: seq<nat>)
    requires lo <= hi
    ensures |r| == hi - lo && forall k :: 0 <= k < |r| ==> r[k] == lo + k
  {
    seq(hi - lo, k requires 0 <= k < hi - lo => lo + k)
  }

  /** Entry i of the new half of an array of cap entries. */
  ghost predicate LinksOn(entries: seq<Entry>, i: nat, cap: nat)
    requires i < |entries|
  {
    entries[i] == Unallocated(if i + 1 == cap then UINT64_MAX else i + 1)
  }

  /** The new half of the array is one list. */
  lemma {:induction false} NewHalfChain(entries: seq<Entry>, lo: nat)
    requires lo < |entries| < UINT64_MAX
    requires forall i {:trigger LinksOn(entries, i, |entries|)} ::
               lo <= i < |entries| ==> LinksOn(entries, i, |entries|)
    ensures Chain(entries, lo, Range(lo, |entries|))
    decreases |entries| - lo
  {
    assert LinksOn(entries, lo, |entries|);
    var r := Range(lo, |entries|);
    assert r[1..] == Range(lo + 1, |entries|);
    if lo + 1 < |entries| {
      NewHalfChain(entries, lo + 1);
    }
  }

  lemma NewHalfList(entries: seq<Entry>, lo: nat)
    requires lo < |entries| < UINT64_MAX
    requires forall i :: 0 <= i < lo ==> entries[i].Allocated?
    requires forall i {:trigger LinksOn(entries, i, |entries|)} ::
               lo <= i < |entries| ==> LinksOn(entries, i, |entries|)
    ensures FreeList(entries, lo, Range(lo, |entries|))
  {
    NewHalfChain(entries, lo);
    var r := Range(lo, |entries|);
    forall i | 0 <= i < |entries| ensures entries[i].Unallocated? <==> i in r {
      if i >= lo {
        assert LinksOn(entries, i, |entries|);
        assert r[i - lo] == i;
      }
    }
  }

  /** The live roots by their ids. */
  ghost function LiveRoots(entries: seq<Entry>): map<nat, Vaddr> {
    map i: nat | i < |entries| && entries[i].Allocated? :: entries[i].vaddr
  }

  lemma SameRoots(a: seq<Entry>, b: seq<Entry>)
    requires |a| <= |b| && forall k :: 0 <= k < |a| ==> b[k] == a[k]
    requires forall k {:trigger LinksOn(b, k, |b|)} :: |a| <= k < |b| ==> LinksOn(b, k, |b|)
    ensures LiveRoots(b) == LiveRoots(a)
  {
    forall k | |a| <= k < |b| ensures b[k].Unallocated? {
      assert LinksOn(b, k, |b|);
    }
  }

  class RootSet {
    var entries: array<Entry>
    var freeHead: nat
    ghost var chain: seq<nat>

    ghost predicate Valid()
      reads this, entries
    {
      entries.Length > 0 && FreeList(entries[..], freeHead, chain)
    }

    ghost function Roots(): map<nat, Vaddr>
      reads this, entries
    {
      LiveRoots(entries[..])
    }

    constructor ()
      ensures Valid() && fresh(entries) && Roots() == map[] && entries.Length == 1
    {
      entries := new Entry[1](_ => Unallocated(UINT64_MAX));
      freeHead, chain := 0, [0];
    }

    /** cs_root. The array doubles exactly when no entry is free; a free entry is reused last in, first out. */
    method Root(v: Vaddr) returns (id: nat)
      requires Valid() && (freeHead == UINT64_MAX ==> 2 * entries.Length < UINT64_MAX)
      modifies this, entries
      ensures Valid() && (entries == old(entries) || fresh(entries))
      ensures id !in old(Roots()) && Roots() == old(Roots())[id := v]
      ensures entries.Length == if old(chain) == [] then 2 * old(entries.Length) else old(entries.Length)
      ensures id == if old(chain) == [] then old(entries.Length) else old(chain)[0]
      ensures chain == if old(chain) == [] then Range(old(entries.Length), entries.Length)[1..] else old(chain)[1..]
    {
      if freeHead == UINT64_MAX {
        Grow();
      }
      ghost var was := entries[..];
      PopKeepsList(was, freeHead, chain, v);
      id := freeHead;
      freeHead, chain := entries[freeHead].nextFree, chain[1..];
      entries[id] := Allocated(v);
      assert entries[..] == was[id := Allocated(v)];
      assert Roots() == LiveRoots(was)[id := v];
    }

    /** The reallocation inside cs_root. */
    method Grow()
      requires Valid() && freeHead == UINT64_MAX && 2 * entries.Length < UINT64_MAX
      modifies this
      ensures Valid() && fresh(entries) && Roots() == old(Roots()) && old(chain) == []
      ensures entries.Length == 2 * old(entries.Length) && chain == Range(old(entries.Length), entries.Length)
    {
      var cap := entries.Length;
      ghost var full := entries[..];
      assert chain == [] && forall k :: 0 <= k < cap ==> full[k].Allocated?;
      var wider := new Entry[2 * cap];
      forall i | 0 <= i < cap {
        wider[i] := entries[i];
      }
      var i := cap;
      while i < 2 * cap - 1
        invariant cap <= i <= 2 * cap - 1 && wider[..cap] == full && entries[..] == full
        invariant forall k {:trigger LinksOn(wider[..], k, 2 * cap)} :: cap <= k < i ==> LinksOn(wider[..], k, 2 * cap)
      {
        ghost var was := wider[..];
        wider[i] := Unallocated(i + 1);
        forall k | cap <= k < i + 1 ensures LinksOn(wider[..], k, 2 * cap) {
          assert k < i ==> LinksOn(was, k, 2 * cap);
        }
        i := i + 1;
      }
      ghost var was := wider[..];
      wider[i] := Unallocated(UINT64_MAX);
      forall k | cap <= k < 2 * cap ensures LinksOn(wider[..], k, 2 * cap) {
        assert k < i ==> LinksOn(was, k, 2 * cap);
      }
      forall k | 0 <= k < cap ensures wider[..][k] == full[k] {
        assert was[..cap][k] == full[k];
      }
      NewHalfList(wider[..], cap);
      SameRoots(full, wider[..]);
      entries, freeHead, chain := wider, cap, Range(cap, 2 * cap);
    }

    /** cs_deroot. */
    method Deroot(id: nat) returns (status: RootStatus)
      requires Valid()
      modifies this, entries
      ensures Valid() && entries == old(entries)
      ensures status == if id >= entries.Length then OutOfBounds
                        else if id !in old(Roots()) then NotAllocated else Success
      ensures Roots() == old(Roots()) - {id}
      ensures chain == if status == Success then [id] + old(chain) else old(chain)
    {
      if id >= entries.Length {
        status := OutOfBounds;
      } else if entries[id].Unallocated? {
        status := NotAllocated;
      } else {
        status := Success;
        PushKeepsList(entries[..], freeHead, chain, id);
        ghost var was := entries[..];
        entries[id] := Unallocated(freeHead);
        freeHead, chain := id, [id] + chain;
        assert entries[..] == was[id := Unallocated(old(freeHead))];
      }
    }

    /** cs_get_root_vaddr. */
    method GetRootVaddr(id: nat) returns (status: RootStatus, v: Vaddr)
      requires Valid()
      ensures status == if id >= entries.Length then OutOfBounds else if id !in Roots() then NotAllocated else Success
      ensures v == if id in Roots() then Roots()[id] else NULL_VADDR
    {
      v := NULL_VADDR;
      if id >= entries.Length {
        status := OutOfBounds;
      } else if entries[id].Unallocated? {
        status := NotAllocated;
      } else {
        status, v := Success, entries[id].vaddr;
      }
    }
  }
}
