/** A memory space: many blocks over one address book, searched at random. */
module MemSpaceModule {
  import opened Common
  import opened AddressBook
  import opened BlockLayout
  import opened BlockView
  import opened BlockOps
  import opened MemBlockModule
  import BC = BrokenCollection

  /** What each virtual address stands for: the header of 8 bytes that names the block, then the user's bytes. */
  type Content = map<Vaddr, seq<Cell>>

  /** The part of it that is in block i. */
  ghost function Part(content: Content, cells: Cells, i: nat): Content {
    map v | v in content && v in cells && cells[v].mb == i :: content[v]
  }

  ghost predicate HeaderAt(content: Content, cells: Cells, v: Vaddr) {
    v in content && v in cells ==> |content[v]| > 8 && content[v][0] == Owner(cells[v].mb)
  }

  /** Every address is in one of n blocks, and its header says in which. */
  ghost predicate Headed(content: Content, cells: Cells, n: nat) {
    && content.Keys == cells.Keys
    && (forall v :: v in cells ==> cells[v].mb < n)
    && (forall v {:trigger HeaderAt(content, cells, v)} :: HeaderAt(content, cells, v))
  }

  /** Blocks other than b hold what they held. */
  ghost predicate SameElsewhere(b: nat, cells: Cells, content: Content, cells': Cells, content': Content) {
    && (forall v :: (v in cells && cells[v].mb != b) <==> (v in cells' && cells'[v].mb != b))
    && (forall v :: v in cells && cells[v].mb != b ==> cells'[v] == cells[v])
    && (forall v :: v in cells && cells[v].mb != b ==> (v in content <==> v in content'))
    && (forall v :: v in cells && cells[v].mb != b && v in content ==> content'[v] == content[v])
  }

  ghost predicate Holds(m: Mem, ps: Pieces, i: nat, cells: Cells, content: Content) {
    Agree(ps, i, cells) && Bodies(m, ps, i, cells) == Part(content, cells, i)
  }

  lemma HoldsElsewhere(m: Mem, ps: Pieces, i: nat, b: nat, cells: Cells, content: Content,
                       cells': Cells, content': Content)
    requires Holds(m, ps, i, cells, content) && i != b && SameElsewhere(b, cells, content, cells', content')
    ensures Holds(m, ps, i, cells', content')
  {
    OtherBlockAgrees(ps, i, cells, cells');
    assert Part(content', cells', i) == Part(content, cells, i);
  }

  ghost function PiecesOf(mbs: seq<MemBlock>): (r: seq<Pieces>)
    reads mbs
    ensures |r| == |mbs| && forall i :: 0 <= i < |r| ==> r[i] == mbs[i].pieces
  {
    if mbs == [] then [] else PiecesOf(mbs[..|mbs|-1]) + [mbs[|mbs|-1].pieces]
  }

  lemma EmptyBlockHolds(mb: MemBlock, cells: Cells, content: Content)
    requires mb.Valid() && mb.pieces == map[0 := FreePiece(mb.cap)] && cells == mb.adb.cells
    requires forall v :: v in cells ==> cells[v].mb != mb.id
    ensures mb.Sound() && Holds(mb.mem[..], mb.pieces, mb.id, cells, content)
  {
    hide mb.Sound;
    assert Part(content, cells, mb.id) == map[] == Bodies(mb.mem[..], mb.pieces, mb.id, cells);
  }

  class MemSpace {
    const adb: AddrBook<Paddr>
    const mbMinBytes: int
    var seed: nat
    var mbList: seq<MemBlock>

    ghost var content: Content

    /**
     Block i is in order, has room for the default size, agrees with the book, and its bodies are its part of the content.
     */
    ghost predicate BlockOk(i: nat, cells: Cells, content: Content)
      requires i < |mbList|
      reads this`mbList, mbList[i], mbList[i].mem
    {
      && mbList[i].id == i && mbList[i].adb == adb && mbList[i].Sound() && Roomy(mbList[i].cap, mbMinBytes)
      && Holds(mbList[i].mem[..], mbList[i].pieces, i, cells, content)
    }

    ghost predicate Apart()
      reads this`mbList
    {
      forall i, j :: 0 <= i < j < |mbList| ==> mbList[i] != mbList[j] && mbList[i].mem != mbList[j].mem
    }

    ghost function Mems(): set<object>
      reads this`mbList
    {
      set i | 0 <= i < |mbList| :: mbList[i].mem
    }

    ghost predicate SpaceOk(cells: Cells, content: Content)
      reads this`mbList, mbList, Mems()
    {
      && |mbList| > 0 && 0 < mbMinBytes < TWO_64 && Apart()
      && (forall i: nat {:trigger BlockOk(i, cells, content)} :: i < |mbList| ==> BlockOk(i, cells, content))
      && Headed(content, cells, |mbList|)
    }

    ghost predicate Valid()
      reads this, adb, mbList, Mems()
    {
      adb.Valid() && SpaceOk(adb.cells, content)
    }

    /** new_mem_space_seed: one empty block. */
    constructor (seed: nat, adbTCap: nat, mbMBytes: int)
      requires 0 < adbTCap <= UINT64_MAX && 0 < mbMBytes < TWO_64
      ensures Valid() && content == map[] && |mbList| == 1 && adb.held == {}
      ensures mbMinBytes == mbMBytes && adb.tableCap == adbTCap && this.seed == seed
      ensures fresh(Own())
      ensures if mbMBytes <= MAX_REQUEST then SizedFor(mbList[0].cap, mbMBytes) else mbList[0].cap == MP_MIN_SIZE
    {
      var newBook := new AddrBook<Paddr>(adbTCap);
      adb, mbMinBytes, this.seed := newBook, mbMBytes, seed;
      var mb := new MemBlock(0, newBook, mbMBytes);
      mbList := [mb];
      content := map[];
      new;
      PadIsLeast(mbMBytes);
      NewBlockIsValid(mb);
      OneBlockIsValid(mb);
    }

    lemma OneBlockIsValid(mb: MemBlock)
      requires mbList == [mb] && mb.id == 0 && mb.adb == adb && mb.Valid() && mb.pieces == map[0 := FreePiece(mb.cap)]
      requires adb.cells == map[] && content == map[] && 0 < mbMinBytes < TWO_64 && Roomy(mb.cap, mbMinBytes)
      ensures Valid()
    {
      hide mb.Valid, mb.Sound, adb.Valid, Holds;
      EmptyBlockHolds(mb, adb.cells, content);
      BookOfBlock(mb);
      assert BlockOk(0, adb.cells, content);
    }

    lemma BookOfBlock(mb: MemBlock)
      requires mb.Valid()
      ensures mb.adb.Valid()
    {
    }

    /** What an operation on block b leaves, if it only changes what block b holds. */
    twostate lemma AfterBlock(new b: nat, new cells: Cells, new content: Content, new cells': Cells,
                              new content': Content)
      requires old(SpaceOk(cells, content)) && mbList == old(mbList) && b < |mbList|
      requires forall j :: 0 <= j < |mbList| && j != b ==> unchanged(mbList[j], mbList[j].mem)
      requires BlockOk(b, cells', content')
      requires SameElsewhere(b, cells, content, cells', content') && Headed(content', cells', |mbList|)
      ensures SpaceOk(cells', content')
    {
      hide Holds, Headed, SameElsewhere;
      forall i: nat | i < |mbList| ensures BlockOk(i, cells', content') {
        if i != b {
          assert old(BlockOk(i, cells, content));
          assert unchanged(mbList[i]) && unchanged(mbList[i].mem);
          assert mbList[i].mem[..] == old(mbList[i].mem[..]);
          HoldsElsewhere(mbList[i].mem[..], mbList[i].pieces, i, b, cells, content, cells', content');
        }
      }
    }

    /** What a new block at the end of the list leaves. */
    twostate lemma AfterAppend(new mb: MemBlock, new cells: Cells, new content: Content, new cells': Cells,
                               new content': Content)
      requires old(SpaceOk(cells, content)) && mbList == old(mbList) + [mb] && fresh(mb) && fresh(mb.mem)
      requires forall j :: 0 <= j < |mbList| - 1 ==> unchanged(mbList[j], mbList[j].mem)
      requires BlockOk(|mbList| - 1, cells', content')
      requires SameElsewhere(|mbList| - 1, cells, content, cells', content') && Headed(content', cells', |mbList|)
      ensures SpaceOk(cells', content')
    {
      hide Holds, Headed, SameElsewhere;
      var n := |mbList| - 1;
      assert forall i :: 0 <= i < n ==> mbList[i] == old(mbList)[i];
      forall i: nat | i < |mbList| ensures BlockOk(i, cells', content') {
        if i != n {
          assert old(BlockOk(i, cells, content));
          assert unchanged(mbList[i]) && unchanged(mbList[i].mem);
          assert mbList[i].mem[..] == old(mbList[i].mem[..]);
          HoldsElsewhere(mbList[i].mem[..], mbList[i].pieces, i, n, cells, content, cells', content');
        }
      }
    }

    /** mb_malloc_and_hold on one block, and ms_interpret_malloc_res when it succeeds. */
    method MallocIn(mb: MemBlock, padded: int, hold: bool) returns (v: Vaddr, paddr: Option<Paddr>)
      requires mb.adb == adb && mb.Valid() && 8 < padded <= MAX_REQUEST
      modifies adb, mb`freeList, mb`order, mb`pieces, mb.mem
      ensures mb.Valid()
      ensures v != NULL_VADDR <==> Fits(old(mb.pieces), PadNumBytes(padded))
      ensures v == NULL_VADDR ==> paddr == None && unchanged(mb) && unchanged(mb.mem) && unchanged(adb)
      ensures v != NULL_VADDR ==>
                && v !in old(adb.cells) && v in adb.cells && adb.cells == old(adb.cells)[v := adb.cells[v]]
                && adb.cells[v].mb == mb.id
                && adb.held == (if hold then old(adb.held) + {v} else old(adb.held) - {v})
                && paddr == (if hold then Some(Paddr(mb.id, adb.cells[v].off + 8)) else None)
                && v in mb.View() && mb.View() == old(mb.View())[v := mb.View()[v]]
                && padded <= |mb.View()[v]| && mb.View()[v][0] == Owner(mb.id)
    {
      hide *;
      var off;
      ghost var big;
      PaddingIsRoom(padded);
      v, off, big := mb.MallocP(padded, true);
      if v == NULL_VADDR {
        return v, None;
      }
      ghost var body := mb.View()[v];
      mb.StoreBody(v, off.value, 0, 8, Owner(mb.id));
      StoreFirst(body, Owner(mb.id));
      paddr := Some(Paddr(mb.id, off.value + 8));
      if !hold {
        ghost var bodies := mb.View();
        mb.ValidIsSound();
        mb.ViewIsBodies();
        adb.Unlock(v);
        mb.ValidAgain();
        mb.ViewIsBodies();
        paddr := None;
      }
    }

    lemma BlockFacts(b: nat, cells: Cells, content: Content)
      requires SpaceOk(cells, content) && b < |mbList|
      ensures mbList[b].id == b && mbList[b].adb == adb && mbList[b].Sound() && Roomy(mbList[b].cap, mbMinBytes)
      ensures Holds(mbList[b].mem[..], mbList[b].pieces, b, cells, content)
      ensures forall j :: 0 <= j < |mbList| && j != b ==> mbList[j] != mbList[b] && mbList[j].mem != mbList[b].mem
      ensures Headed(content, cells, |mbList|)
    {
      assert BlockOk(b, cells, content);
    }

    lemma FactsBlock(b: nat, cells: Cells, content: Content)
      requires b < |mbList| && mbList[b].id == b && mbList[b].adb == adb && mbList[b].Sound()
      requires Roomy(mbList[b].cap, mbMinBytes)
      requires Holds(mbList[b].mem[..], mbList[b].pieces, b, cells, content)
      ensures BlockOk(b, cells, content)
    {
    }

    /** A block that nothing has been allocated in can serve a request of the default size. */
    lemma EveryBlockIsRoomy()
      requires Valid() && mbMinBytes <= MAX_REQUEST
      ensures forall i :: 0 <= i < |mbList| ==> mbMinBytes + MAP_PADDING <= mbList[i].cap
    {
      forall i: nat | i < |mbList| ensures mbMinBytes + MAP_PADDING <= mbList[i].cap {
        assert BlockOk(i, adb.cells, content);
      }
    }

    lemma ValidFacts()
      requires Valid()
      ensures adb.Valid() && SpaceOk(adb.cells, content) && |mbList| > 0 && 0 < mbMinBytes < TWO_64
    {
    }

    lemma FactsValid()
      requires adb.Valid() && SpaceOk(adb.cells, content)
      ensures Valid()
    {
    }

    /** The storage of the space. */
    ghost function Own(): set<object>
      reads this`mbList
    {
      {this, adb} + (set b | b in mbList) + Mems()
    }

    /** What joins it is new. */
    twostate lemma OwnGrows()
      requires mbList == old(mbList)
               || (|mbList| == |old(mbList)| + 1 && mbList[..|mbList|-1] == old(mbList)
                   && fresh(mbList[|mbList|-1]) && fresh(mbList[|mbList|-1].mem))
      ensures fresh(Own() - old(Own())) && old(Own()) <= Own()
      ensures forall b :: b in mbList ==> b in old(mbList) || fresh(b)
      ensures forall m :: m in Mems() ==> m in old(Mems()) || fresh(m)
    {
      assert forall i :: 0 <= i < |old(mbList)| ==> mbList[i] == old(mbList)[i];
    }

    lemma OwnMems()
      ensures allocated(Mems())
      ensures this !in Mems() && adb !in Mems() && forall b :: b in mbList ==> b !in Mems()
    {
    }

    lemma InMems(b: nat)
      requires b < |mbList|
      ensures mbList[b].mem in Mems()
    {
    }

    /** The pieces of every block. */
    ghost function AllPieces(): (r: seq<Pieces>)
      reads this`mbList, mbList
      ensures |r| == |mbList| && forall i :: 0 <= i < |r| ==> r[i] == mbList[i].pieces
    {
      PiecesOf(mbList)
    }

    twostate lemma SamePieces(new b: nat)
      requires mbList == old(mbList) && b < |mbList| && mbList[b].pieces == old(mbList[b].pieces)
      requires forall j :: 0 <= j < |mbList| && j != b ==> unchanged(mbList[j])
      ensures AllPieces() == old(AllPieces())
    {
    }

    /** What block b, of n, has given. */
    lemma GaveByBlock(mb: MemBlock, v: Vaddr, paddr: Option<Paddr>, padded: int, hold: bool, b: nat, n: nat,
                      content0: Content, cells0: Cells, held0: set<Vaddr>)
      requires mb.Valid() && mb.adb == adb && mb.id == b < n && 8 < padded && Headed(content0, cells0, n)
      requires v !in cells0 && v in adb.cells && adb.cells == cells0[v := adb.cells[v]] && adb.cells[v].mb == b
      requires v in mb.View() && mb.View() == Part(content0, cells0, b)[v := mb.View()[v]]
      requires padded <= |mb.View()[v]| && mb.View()[v][0] == Owner(b)
      requires adb.held == (if hold then held0 + {v} else held0 - {v})
      requires paddr == (if hold then Some(Paddr(b, adb.cells[v].off + 8)) else None)
      ensures var content := content0[v := mb.View()[v]];
              && Gave(content0, content, cells0, adb.cells, v, padded) && Headed(content, adb.cells, n)
              && HoldGave(held0, adb.held, adb.cells, v, paddr, hold)
              && SameElsewhere(b, cells0, content0, adb.cells, content)
              && Holds(mb.mem[..], mb.pieces, b, adb.cells, content)
    {
      hide *;
      var content := content0[v := mb.View()[v]];
      GaveIs(content0, content, cells0, adb.cells, v, padded, n, b);
      HoldGaveIs(held0, adb.held, adb.cells, v, paddr, hold);
      ValidHolds(mb, adb.cells, content);
    }

    /** One throw. It changes nothing, or finds a place for the request in block b. */
    method Throw(b: nat, padded: int, hold: bool) returns (v: Vaddr, paddr: Option<Paddr>)
      requires Valid() && b < |mbList| && 8 < padded <= MAX_REQUEST
      modifies this`content, adb, mbList, Mems()
      ensures Valid() && mbList == old(mbList) && seed == old(seed)
      ensures v != NULL_VADDR <==> Fits(old(mbList[b].pieces), PadNumBytes(padded))
      ensures v == NULL_VADDR ==> paddr == None && content == old(content) && adb.cells == old(adb.cells)
                                  && adb.held == old(adb.held) && AllPieces() == old(AllPieces())
      ensures v != NULL_VADDR ==> v in adb.cells && adb.cells[v].mb == b
      ensures v != NULL_VADDR ==> Gave(old(content), content, old(adb.cells), adb.cells, v, padded)
                                  && HoldGave(old(adb.held), adb.held, adb.cells, v, paddr, hold)
    {
      hide *;
      OwnMems();
      ValidFacts();
      InMems(b);
      BlockFacts(b, adb.cells, content);
      var mb := mbList[b];
      HoldsValid(mb, adb.cells, content);
      v, paddr := MallocIn(mb, padded, hold);
      mb.ValidIsSound();
      if v != NULL_VADDR {
        GaveByBlock(mb, v, paddr, padded, hold, b, |mbList|, content, old(adb.cells), old(adb.held));
        content := content[v := mb.View()[v]];
      } else {
        assert mb.mem[..] == old(mb.mem[..]);
        SamePieces(b);
        ElsewhereItself(b, adb.cells, content);
      }
      FactsBlock(b, adb.cells, content);
      AfterBlock(b, old(adb.cells), old(content), adb.cells, content);
      FactsValid();
    }

    /** ms_next_rnd. */
    method NextRnd() returns (r: nat)
      requires Valid()
      modifies this`seed
      ensures Valid() && seed == NextSeed(old(seed)) && r == Rnd(seed)
    {
      hide *;
      ValidFacts();
      OwnMems();
      NextSeedIs(seed);
      seed := (seed + 1) % TWO_64;
      if seed == 0 {
        seed := 1;
      }
      RndIs(seed);
      var a, b := seed * 15485863 % TWO_64, seed * 2038074743 % TWO_64;
      r := (a * a * a + b * b) % TWO_64;
      FactsValid();
    }

    /**
     ms_malloc_p. Whatever the darts hit, a request that is not zero and does not overflow is served: by the last dart's
     block, all earlier ones having been too full, or by a new block at the end of the list, when that was so for a third
     of the blocks, and for one at least.
     */
    method MallocP(minBytes: int, hold: bool) returns (v: Vaddr, paddr: Option<Paddr>, ghost darts: seq<nat>)
      requires Valid() && 0 <= minBytes && minBytes + 8 <= MAX_REQUEST && mbMinBytes <= MAX_REQUEST
      modifies this`seed, this`mbList, this`content, adb, mbList, Mems()
      ensures Valid()
      ensures seed == SeedAfter(old(seed), |darts|) && Drawn(darts, old(seed), |old(mbList)|)
      ensures minBytes == 0 ==> darts == [] && v == NULL_VADDR && paddr == None && mbList == old(mbList)
                                && content == old(content) && adb.cells == old(adb.cells)
                                && adb.held == old(adb.held)
      ensures minBytes > 0 ==> v != NULL_VADDR
                               && Gave(old(content), content, old(adb.cells), adb.cells, v, minBytes + 8)
                               && HoldGave(old(adb.held), adb.held, adb.cells, v, paddr, hold)
      ensures minBytes > 0 ==> v in adb.cells
                               && Searched(old(AllPieces()), PadNumBytes(minBytes + 8), darts, adb.cells[v].mb)
      ensures minBytes > 0 && mbList == old(mbList) ==> 0 < |darts| && (|darts| == 1 || 3 * |darts| <= |mbList|)
      ensures mbList != old(mbList) ==> AThird(|darts|, |old(mbList)|)
      ensures mbList != old(mbList) ==> SizedFor(mbList[|mbList|-1].cap, Larger(minBytes + 8, mbMinBytes))
      ensures mbList == old(mbList) || (|mbList| == |old(mbList)| + 1 && mbList[..|mbList|-1] == old(mbList)
                                        && fresh(mbList[|mbList|-1]) && fresh(mbList[|mbList|-1].mem))
    {
      hide *;
      var padded := minBytes + 8;
      v, paddr, darts := NULL_VADDR, None, [];
      ghost var blocks := AllPieces();
      OwnMems();
      PaddingIsRoom(padded);
      ValidFacts();
      NoneDrawn(seed, |mbList|);
      if minBytes == 0 {
        return;
      }
      var throws := Throws(|mbList|);
      ThrowsAThird(|mbList|);
      var i := 0;
      NoMisses(blocks, PadNumBytes(padded));
      while i < throws
        invariant 0 <= i <= throws && i == |darts| && Missed(blocks, PadNumBytes(padded), darts) && AllPieces() == blocks
        invariant Valid() && mbList == old(mbList) && |mbList| > 0 && content == old(content)
        invariant adb.cells == old(adb.cells) && adb.held == old(adb.held)
        invariant seed == SeedAfter(old(seed), i) && Drawn(darts, old(seed), |mbList|)
      {
        var rnd := NextRnd();
        var dart := rnd % |mbList|;
        DrawnNext(darts, old(seed), |mbList|);
        v, paddr := Throw(dart, padded, hold);
        if v != NULL_VADDR {
          SearchHit(blocks, PadNumBytes(padded), darts, dart);
          darts := darts + [dart];
          return;
        }
        SearchMissed(blocks, PadNumBytes(padded), darts, dart);
        darts := darts + [dart];
        i := i + 1;
      }
      v, paddr := MallocNew(padded, hold);
      SearchFailed(blocks, PadNumBytes(padded), darts);
    }

    /** A new block, large enough for the request. */
    method NewBlock(padded: int) returns (mb: MemBlock)
      requires Valid() && 8 < padded <= MAX_REQUEST && mbMinBytes <= MAX_REQUEST
      ensures fresh(mb) && fresh(mb.mem) && mb.id == |mbList| && mb.adb == adb
      ensures mb.Valid() && Fits(mb.pieces, PadNumBytes(padded)) && SizedFor(mb.cap, Larger(padded, mbMinBytes))
      ensures mb.View() == Part(content, adb.cells, |mbList|)
    {
      hide *;
      ValidFacts();
      SpaceFacts(adb.cells, content);
      var reqBytes := if padded > mbMinBytes then padded else mbMinBytes;
      FallbackFitsUnlessItWraps(padded, mbMinBytes);
      mb := new MemBlock(|mbList|, adb, reqBytes);
      PadIsLeast(reqBytes);
      LargerIs(padded, mbMinBytes);
      NoneYet(adb.cells, content, |mbList|);
      NewBlockValid(mb, padded, reqBytes, adb.cells, content);
    }

    /** The fallback: the request is served by a new block, which joins the list. */
    method MallocNew(padded: int, hold: bool) returns (v: Vaddr, paddr: Option<Paddr>)
      requires Valid() && 8 < padded <= MAX_REQUEST && mbMinBytes <= MAX_REQUEST
      modifies this`mbList, this`content, adb
      ensures Valid() && v != NULL_VADDR && v in adb.cells && adb.cells[v].mb == |old(mbList)|
      ensures Gave(old(content), content, old(adb.cells), adb.cells, v, padded)
      ensures HoldGave(old(adb.held), adb.held, adb.cells, v, paddr, hold)
      ensures |mbList| == |old(mbList)| + 1 && mbList[..|mbList|-1] == old(mbList)
      ensures fresh(mbList[|mbList|-1]) && fresh(mbList[|mbList|-1].mem)
      ensures SizedFor(mbList[|mbList|-1].cap, Larger(padded, mbMinBytes))
    {
      hide *;
      ValidFacts();
      SpaceFacts(adb.cells, content);
      var mb := NewBlock(padded);
      LargerIsRoomy(mb.cap, padded, mbMinBytes);
      v, paddr := MallocIn(mb, padded, hold);
      mb.ValidIsSound();
      HeadedMore(old(content), old(adb.cells), |mbList|);
      GaveByBlock(mb, v, paddr, padded, hold, |mbList|, |mbList| + 1, old(content), old(adb.cells), old(adb.held));
      content := content[v := mb.View()[v]];
      mbList := mbList + [mb];
      FactsBlock(|mbList| - 1, adb.cells, content);
      AfterAppend(mb, old(adb.cells), old(content), adb.cells, content);
      FactsValid();
    }

    lemma SpaceFacts(cells: Cells, content: Content)
      requires SpaceOk(cells, content)
      ensures |mbList| > 0 && 0 < mbMinBytes < TWO_64 && Headed(content, cells, |mbList|)
    {
    }

    /** ms_free: the header says which block the address belongs to. */
    method Free(v: Vaddr)
      requires Valid() && v in content && v !in adb.held
      modifies this`content, adb, mbList, Mems()
      ensures Valid() && mbList == old(mbList)
      ensures content == old(content) - {v} && adb.cells == old(adb.cells) - {v} && adb.held == old(adb.held)
    {
      hide *;
      ValidFacts();
      SpaceFacts(adb.cells, content);
      HeaderOf(content, adb.cells, |mbList|, v);
      var p := adb.Peek(v);
      InMems(p.mb);
      BlockFacts(p.mb, adb.cells, content);
      HoldsView(mbList[p.mb], adb.cells, content, v);
      var header := mbList[p.mb].ReadBody(v, p.off, 0);
      var mb := mbList[header.mb];
      HoldsValid(mb, adb.cells, content);
      mb.Free(v);
      mb.ValidIsSound();
      FreedByBlock(mb, v, |mbList|, content, old(adb.cells));
      content := content - {v};
      FactsBlock(p.mb, adb.cells, content);
      AfterBlock(p.mb, old(adb.cells), old(content), adb.cells, content);
      FactsValid();
    }

    lemma FreedByBlock(mb: MemBlock, v: Vaddr, n: nat, content0: Content, cells0: Cells)
      requires mb.Valid() && mb.adb == adb && v in cells0 && cells0[v].mb == mb.id && Headed(content0, cells0, n)
      requires adb.cells == cells0 - {v} && mb.View() == Part(content0, cells0, mb.id) - {v}
      ensures Headed(content0 - {v}, adb.cells, n) && SameElsewhere(mb.id, cells0, content0, adb.cells, content0 - {v})
      ensures Holds(mb.mem[..], mb.pieces, mb.id, adb.cells, content0 - {v})
    {
      hide *;
      FreedIs(content0, cells0, n, mb.id, v);
      ValidHolds(mb, adb.cells, content0 - {v});
    }

    /** Block i is packed, or every piece in it that could move is locked. */
    ghost predicate Settled(i: nat, held: set<Vaddr>)
      requires i < |mbList|
      reads this`mbList, mbList[i]
    {
      Packed(mbList[i].pieces, mbList[i].cap) || (held != {} && Blocked(mbList[i].pieces, held))
    }

    /** ms_try_full_shift: every block in its turn. No address stands for anything else than before. */
    method TryFullShift()
      requires Valid()
      modifies adb`book, adb`cells, adb`held, mbList, Mems()
      ensures Valid() && adb.held == old(adb.held) && Lowered(old(adb.cells), adb.cells)
      ensures forall i: nat {:trigger Settled(i, adb.held)} :: i < |mbList| ==> Settled(i, adb.held)
    {
      hide *;
      var i := 0;
      OwnMems();
      LoweredItself(adb.cells);
      while i < |mbList|
        invariant mbList == old(mbList)
        invariant 0 <= i <= |mbList| && Valid() && adb.held == old(adb.held)
        invariant Lowered(old(adb.cells), adb.cells)
        invariant forall j: nat {:trigger Settled(j, adb.held)} :: j < i ==> Settled(j, adb.held)
      {
        ghost var cells := adb.cells;
        InMems(i);
        ShiftBlock(i);
        LoweredOn(old(adb.cells), cells, adb.cells);
        i := i + 1;
      }
    }

    method ShiftBlock(i: nat)
      requires Valid() && i < |mbList|
      modifies adb`book, adb`cells, adb`held, mbList[i], mbList[i].mem
      ensures Valid() && adb.held == old(adb.held) && Lowered(old(adb.cells), adb.cells)
      ensures Settled(i, adb.held)
      ensures forall j: nat {:trigger Settled(j, adb.held)} :: j < |mbList| && j != i ==>
                (Settled(j, adb.held) <==> old(Settled(j, adb.held)))
    {
      hide *;
      ValidFacts();
      BlockFacts(i, adb.cells, content);
      var mb := mbList[i];
      HoldsValid(mb, adb.cells, content);
      mb.TryFullShift();
      mb.ValidIsSound();
      CompactedIs(content, i, old(adb.cells), adb.cells, |mbList|);
      ValidHolds(mb, adb.cells, content);
      FactsBlock(i, adb.cells, content);
      AfterBlock(i, old(adb.cells), content, adb.cells, content);
      FactsValid();
      SettledIs(i, adb.held);
      SettledElsewhere(i, adb.held);
    }

    lemma SettledIs(i: nat, held: set<Vaddr>)
      requires i < |mbList|
      ensures Packed(mbList[i].pieces, mbList[i].cap) ==> Settled(i, held)
      ensures Blocked(mbList[i].pieces, held) && held != {} ==> Settled(i, held)
    {
    }

    twostate lemma SettledElsewhere(new i: nat, new held: set<Vaddr>)
      requires mbList == old(mbList) && forall j :: 0 <= j < |mbList| && j != i ==> unchanged(mbList[j])
      ensures forall j: nat {:trigger Settled(j, held)} :: j < |mbList| && j != i ==>
                (Settled(j, held) <==> old(Settled(j, held)))
    {
    }

    /** What the user may read at v: the body behind the header. The read lock is taken and given back. */
    method Look(v: Vaddr) returns (bytes: seq<Cell>)
      requires Valid() && v in content
      ensures |content[v]| >= 8 && bytes == content[v][8..]
    {
      hide *;
      ValidFacts();
      SpaceFacts(adb.cells, content);
      HeaderOf(content, adb.cells, |mbList|, v);
      var p := adb.Peek(v);
      BlockFacts(p.mb, adb.cells, content);
      HoldsView(mbList[p.mb], adb.cells, content, v);
      var body := mbList[p.mb].WholeBody(v, p.off);
      bytes := body[8..];
    }

    /**
     ms_filter: what pred rejects is put on a stack first, and freed when the whole book has been seen. Others may hold
     read locks meanwhile, but not of what is to be freed.
     */
    method Filter(pred: (Vaddr, seq<Cell>) -> bool) returns (filtered: nat)
      requires Valid() && forall v :: v in adb.held ==> !Rejected(content, pred, v)
      modifies this`content, adb, mbList, Mems()
      ensures Valid() && mbList == old(mbList) && adb.held == old(adb.held)
      ensures content == Passing(old(content), pred) && filtered == |old(content)| - |content|
    {
      hide *;
      OwnMems();
      var removeStack := new BC.Collection<Vaddr>(30, false);
      FreshIsForeign({removeStack} + removeStack.Repr);
      FillRemoveStack(pred, removeStack);
      FreshIsForeign({removeStack} + removeStack.Repr);
      filtered := EmptyRemoveStack(pred, removeStack);
    }

    method FillRemoveStack(pred: (Vaddr, seq<Cell>) -> bool, stack: BC.Collection<Vaddr>)
      requires Valid() && stack.Valid() && stack.Contents() == [] && Foreign({stack} + stack.Repr)
      modifies stack, stack.Repr
      ensures Valid() && stack.Valid() && fresh(stack.Repr - old(stack.Repr))
      ensures ListsRejected(content, content.Keys, pred, stack.Contents())
    {
      hide *;
      ForeignFacts({stack} + stack.Repr);
      OwnMems();
      ValidFacts();
      SpaceFacts(adb.cells, content);
      KeysAreCells(content, adb.cells, |mbList|);
      var q := adb.ForEach();
      NoneRejected(content, q, pred);
      for k := 0 to |q|
        invariant Valid() && stack.Valid() && fresh(stack.Repr - old(stack.Repr))
        invariant ListsRejected(content, Elems(q[..k]), pred, stack.Contents())
      {
        var bytes := Look(q[k]);
        RejectNext(content, q, k, pred, stack.Contents());
        if !pred(q[k], bytes) {
          stack.PushBack(q[k]);
        }
      }
      AllSeen(content, q, pred, stack.Contents());
    }

    /** The last loop of ms_filter. */
    method EmptyRemoveStack(ghost pred: (Vaddr, seq<Cell>) -> bool, stack: BC.Collection<Vaddr>) returns (filtered: nat)
      requires Valid() && stack.Valid() && Foreign({stack} + stack.Repr)
      requires forall v :: v in adb.held ==> !Rejected(content, pred, v)
      requires ListsRejected(content, content.Keys, pred, stack.Contents())
      modifies this`content, adb, mbList, Mems(), stack, stack.Repr
      ensures Valid() && mbList == old(mbList) && adb.held == old(adb.held)
      ensures content == Passing(old(content), pred) && filtered == |old(content)| - |content|
    {
      hide *;
      ForeignFacts({stack} + stack.Repr);
      OwnMems();
      filtered := 0;
      var empty := stack.Empty();
      while !empty
        invariant Valid() && mbList == old(mbList) && adb.held == old(adb.held)
        invariant forall v :: v in adb.held ==> !Rejected(content, pred, v)
        invariant stack.Valid() && stack.Repr == old(stack.Repr) && (empty <==> stack.Contents() == [])
        invariant ListsRejected(content, content.Keys, pred, stack.Contents())
        invariant Passing(content, pred) == Passing(old(content), pred)
        invariant filtered + |content| == |old(content)|
        decreases |stack.Contents()|
      {
        ghost var q := stack.Contents();
        var v := stack.PopBack();
        FreeNext(content, pred, stack.Contents(), v);
        Free(v);
        filtered := filtered + 1;
        empty := stack.Empty();
      }
      AllPass(content, pred);
    }

    /** Storage that the space has no part of. */
    ghost predicate Foreign(s: set<object>)
      reads this`mbList
    {
      this !in s && adb !in s && Mems() !! s && forall b :: b in mbList ==> b !in s
    }

    lemma ForeignFacts(s: set<object>)
      requires Foreign(s)
      ensures this !in s && adb !in s && Mems() !! s && forall b :: b in mbList ==> b !in s
    {
    }

    twostate lemma FreshIsForeign(new s: set<object>)
      requires fresh(s) && mbList == old(mbList)
      ensures Foreign(s)
    {
    }

    /** The caller has the lock of v, and at is where the user's bytes of v start. */
    ghost predicate LockedAt(v: Vaddr, at: Paddr)
      reads this`content, adb
    {
      v in content && v in adb.held && v in adb.cells && at == Paddr(adb.cells[v].mb, adb.cells[v].off + 8)
    }

    lemma LockedIs(v: Vaddr, at: Paddr)
      ensures LockedAt(v, at) <==>
                v in content && v in adb.held && v in adb.cells && at == Paddr(adb.cells[v].mb, adb.cells[v].off + 8)
    {
    }

    /** ms_get_write, which would wait for a lock that is held. */
    method GetWrite(v: Vaddr) returns (at: Paddr)
      requires Valid() && v in content && v !in adb.held
      modifies adb`book, adb`cells, adb`held
      ensures Valid() && LockedAt(v, at) && adb.held == old(adb.held) + {v} && adb.cells == old(adb.cells)
    {
      hide *;
      OwnMems();
      ValidFacts();
      SpaceFacts(adb.cells, content);
      HeaderOf(content, adb.cells, |mbList|, v);
      var p := adb.Get(v);
      at := Paddr(p.mb, p.off + 8);
      FactsValid();
      LockedIs(v, at);
    }

    /** ms_unlock. */
    method Unlock(v: Vaddr)
      requires Valid() && v in content
      modifies adb`book, adb`cells, adb`held
      ensures Valid() && adb.held == old(adb.held) - {v} && adb.cells == old(adb.cells)
    {
      hide *;
      OwnMems();
      ValidFacts();
      SpaceFacts(adb.cells, content);
      HeaderOf(content, adb.cells, |mbList|, v);
      adb.Unlock(v);
      FactsValid();
    }

    /** The i-th of the user's bytes. */
    method Read(ghost v: Vaddr, at: Paddr, i: nat) returns (c: Cell)
      requires Valid() && LockedAt(v, at) && 8 + i < |content[v]|
      ensures c == content[v][8 + i]
    {
      hide *;
      LockedIs(v, at);
      ValidFacts();
      SpaceFacts(adb.cells, content);
      HeaderOf(content, adb.cells, |mbList|, v);
      BlockFacts(at.mb, adb.cells, content);
      HoldsView(mbList[at.mb], adb.cells, content, v);
      c := mbList[at.mb].ReadBody(v, at.off - 8, 8 + i);
    }

    /** A user who holds the lock of v writes a value of n bytes, i bytes behind the address that the space has given. */
    method Write(ghost v: Vaddr, at: Paddr, i: nat, n: nat, c: Cell)
      requires Valid() && LockedAt(v, at) && 0 < n && 8 + i + n <= |content[v]|
      modifies this`content, mbList, Mems()
      ensures Valid() && LockedAt(v, at) && mbList == old(mbList) && unchanged(adb)
      ensures content == old(content)[v := Store(old(content)[v], 8 + i, n, c)]
    {
      hide *;
      LockedIs(v, at);
      ValidFacts();
      SpaceFacts(adb.cells, content);
      HeaderOf(content, adb.cells, |mbList|, v);
      OwnMems();
      InMems(at.mb);
      BlockFacts(at.mb, adb.cells, content);
      var mb := mbList[at.mb];
      HoldsView(mb, adb.cells, content, v);
      HoldsValid(mb, adb.cells, content);
      mb.StoreBody(v, at.off - 8, 8 + i, n, c);
      mb.ValidIsSound();
      WrittenIs(content, adb.cells, |mbList|, at.mb, v, 8 + i, n, c);
      content := content[v := Store(content[v], 8 + i, n, c)];
      ValidHolds(mb, adb.cells, content);
      FactsBlock(at.mb, adb.cells, content);
      AfterBlock(at.mb, adb.cells, old(content), adb.cells, content);
      FactsValid();
      LockedIs(v, at);
    }

    /** ms_count: the book has an address for each allocated piece of each block, and no other. */
    method Count() returns (count: nat)
      requires Valid()
      ensures count == |content| == PieceTotal(AllPieces())
    {
      ValidFacts();
      SpaceFacts(adb.cells, content);
      var q := adb.ForEach();
      count := |q|;
      PiecesAreCells();
      NoRepeatsCount(q, adb.cells);
      CountsAdd(AllPieces(), adb.cells);
      assert |content| == |content.Keys| && |adb.cells| == |adb.cells.Keys|;
    }

    /**
     Allocated pieces and allocated cells correspond one to one: the cell of an address leads to the body of the piece
     that stores the address, in the block that the header names.
     */
    lemma PiecesAreCells()
      requires Valid()
      ensures Matched(AllPieces(), adb.cells) && content.Keys == adb.cells.Keys
      ensures forall v :: v in adb.cells ==> |content[v]| > 8 && content[v][0] == Owner(adb.cells[v].mb)
    {
      hide *;
      ValidFacts();
      SpaceFacts(adb.cells, content);
      KeysAreCells(content, adb.cells, |mbList|);
      forall v | v in adb.cells
        ensures adb.cells[v].mb < |mbList| && |content[v]| > 8 && content[v][0] == Owner(adb.cells[v].mb)
      {
        HeaderOf(content, adb.cells, |mbList|, v);
      }
      forall i: nat | i < |mbList| ensures Agree(AllPieces()[i], i, adb.cells) {
        BlockFacts(i, adb.cells, content);
        HoldsAgrees(mbList[i].mem[..], mbList[i].pieces, i, adb.cells, content);
      }
      MatchedIs(AllPieces(), adb.cells);
    }
  }

  /** new_mem_space_seed, which gives the null pointer for blocks of no bytes. */
  method NewMemSpaceSeed(seed: nat, adbTCap: nat, mbMBytes: int) returns (ms: MemSpace?)
    requires 0 < adbTCap <= UINT64_MAX && 0 <= mbMBytes < TWO_64
    ensures ms == null <==> mbMBytes == 0
    ensures ms != null ==> fresh(ms) && ms.Valid() && ms.content == map[] && |ms.mbList| == 1 && ms.adb.held == {}
                           && ms.mbMinBytes == mbMBytes && ms.adb.tableCap == adbTCap && ms.seed == seed
                           && fresh(ms.Own())
                           && (mbMBytes <= MAX_REQUEST ==> SizedFor(ms.mbList[0].cap, mbMBytes))
  {
    if mbMBytes == 0 {
      return null;
    }
    ms := new MemSpace(seed, adbTCap, mbMBytes);
  }

  // ---------------------------------------------------------------------------- the darts

  /** The seed counts up and skips 0. */
  function NextSeed(seed: nat): nat {
    if (seed + 1) % TWO_64 == 0 then 1 else (seed + 1) % TWO_64
  }

  /** The number drawn with a seed, in 64-bit arithmetic. */
  function Rnd(seed: nat): nat {
    var a, b := seed * 15485863 % TWO_64, seed * 2038074743 % TWO_64;
    (a * a * a + b * b) % TWO_64
  }

  function SeedAfter(seed: nat, k: nat): nat {
    if k == 0 then seed else NextSeed(SeedAfter(seed, k - 1))
  }

  /** The darts are the numbers drawn one after the other, each modulo the number of blocks. */
  ghost predicate Drawn(darts: seq<nat>, seed: nat, n: nat) {
    n > 0 && forall i :: 0 <= i < |darts| ==> darts[i] == Rnd(SeedAfter(seed, i + 1)) % n
  }

  /** Through 2^64 - 1 draws no seed comes twice. */
  lemma SeedsAreDifferent(seed: nat, i: nat, j: nat)
    requires 0 < seed < TWO_64 && i < j && j - i < TWO_64 - 1
    ensures 0 < SeedAfter(seed, i) < TWO_64 && SeedAfter(seed, i) != SeedAfter(seed, j)
  {
    SeedIsCounted(seed, i);
    SeedIsCounted(seed, j);
  }

  lemma NextCount(seed: nat)
    requires 0 < seed < TWO_64
    ensures NextSeed(seed) == seed % (TWO_64 - 1) + 1
  {
  }

  lemma ModStep(a: nat)
    ensures (a % (TWO_64 - 1) + 1) % (TWO_64 - 1) == (a + 1) % (TWO_64 - 1)
  {
  }

  lemma {:induction false} SeedIsCounted(seed: nat, k: nat)
    requires 0 < seed < TWO_64
    ensures SeedAfter(seed, k) == (seed - 1 + k) % (TWO_64 - 1) + 1
  {
    hide NextSeed;
    if k > 0 {
      SeedIsCounted(seed, k - 1);
      NextCount(SeedAfter(seed, k - 1));
      ModStep(seed - 1 + (k - 1));
    }
  }

  lemma NextSeedIs(seed: nat)
    ensures NextSeed(seed) == if (seed + 1) % TWO_64 == 0 then 1 else (seed + 1) % TWO_64
    ensures TWO_64 == 0x1_0000_0000_0000_0000
  {
  }

  lemma RndIs(seed: nat)
    ensures var a, b := seed * 15485863 % TWO_64, seed * 2038074743 % TWO_64;
            Rnd(seed) == (a * a * a + b * b) % TWO_64
  {
  }

  /** The first draw, in which the sum of the cube and the square has wrapped around. */
  lemma FirstDraw()
    ensures NextSeed(0) == 1 == NextSeed(TWO_64 - 1) && Rnd(1) == 10053237513846271880
  {
    var a, b, q := 15485863, 2038074743, 201;
    assert a * a * a + b * b == q * TWO_64 + 10053237513846271880;
    NoRest(q, TWO_64, 10053237513846271880);
  }

  lemma NoRest(q: nat, m: nat, r: nat)
    requires r < m
    ensures (q * m + r) % m == r
  {
    Quotient(q * m + r, m, q);
  }

  lemma NoneDrawn(seed: nat, n: nat)
    ensures SeedAfter(seed, 0) == seed && (n > 0 ==> Drawn([], seed, n))
  {
  }

  lemma DrawnNext(darts: seq<nat>, seed: nat, n: nat)
    requires Drawn(darts, seed, n)
    ensures var s := SeedAfter(seed, |darts| + 1);
            s == NextSeed(SeedAfter(seed, |darts|)) && Drawn(darts + [Rnd(s) % n], seed, n)
  {
  }

  /** None of the blocks that the darts hit can serve a request of the given size. */
  ghost predicate Missed(blocks: seq<Pieces>, size: int, darts: seq<nat>) {
    forall i :: 0 <= i < |darts| ==> darts[i] < |blocks| && !Fits(blocks[darts[i]], size)
  }

  ghost predicate Roomy(cap: int, n: int) {
    n <= MAX_REQUEST ==> n + MAP_PADDING <= cap
  }

  function Larger(a: int, b: int): int {
    if a > b then a else b
  }

  lemma LargerIs(a: int, b: int)
    ensures Larger(a, b) == if a > b then a else b
  {
  }

  lemma LargerIsRoomy(cap: int, a: int, b: int)
    requires SizedFor(cap, Larger(a, b))
    ensures Roomy(cap, b)
  {
  }

  /** k is a third of n, rounded down, and one at least. */
  predicate AThird(k: int, n: int) {
    if n < 3 then k == 1 else 3 * k <= n < 3 * k + 3
  }

  lemma ThrowsAThird(n: nat)
    ensures AThird(Throws(n), n) && Throws(n) > 0 && (Throws(n) == 1 || 3 * Throws(n) <= n)
  {
  }

  /** How many darts there are. */
  function Throws(n: nat): nat {
    if n / 3 == 0 then 1 else n / 3
  }

  /** Block b serves the request: the first that a dart hit with room for it, or a new one after every dart has missed. */
  ghost predicate Searched(blocks: seq<Pieces>, size: int, darts: seq<nat>, b: nat) {
    || (b == |blocks| && |darts| == Throws(|blocks|) && Missed(blocks, size, darts))
    || (0 < |darts| <= Throws(|blocks|) && b == darts[|darts|-1] < |blocks| && Fits(blocks[b], size)
        && Missed(blocks, size, darts[..|darts|-1]))
  }

  lemma NoMisses(blocks: seq<Pieces>, size: int)
    ensures Missed(blocks, size, [])
  {
  }

  lemma SearchMissed(blocks: seq<Pieces>, size: int, darts: seq<nat>, dart: nat)
    requires Missed(blocks, size, darts) && dart < |blocks| && !Fits(blocks[dart], size)
    ensures Missed(blocks, size, darts + [dart])
  {
  }

  lemma SearchHit(blocks: seq<Pieces>, size: int, darts: seq<nat>, dart: nat)
    requires Missed(blocks, size, darts) && dart < |blocks| && Fits(blocks[dart], size)
    requires |darts| < Throws(|blocks|)
    ensures Searched(blocks, size, darts + [dart], dart)
  {
    assert (darts + [dart])[..|darts|] == darts;
  }

  lemma SearchFailed(blocks: seq<Pieces>, size: int, darts: seq<nat>)
    requires Missed(blocks, size, darts) && |darts| == Throws(|blocks|)
    ensures Searched(blocks, size, darts, |blocks|)
  {
  }

  lemma PaddingIsRoom(n: int)
    requires 0 <= n <= MAX_REQUEST
    ensures 0 <= n < TWO_64 && PadNumBytes(n) - MAP_PADDING >= n
  {
    PadFitsUnlessItWraps(n);
  }

  lemma StoreFirst(body: seq<Cell>, c: Cell)
    requires |body| >= 8
    ensures |Store(body, 0, 8, c)| == |body| && Store(body, 0, 8, c)[0] == c
  {
  }

  /** v is new, with a body of at least padded bytes that starts with a header; the rest is the same. */
  ghost predicate Gave(content: Content, content': Content, cells: Cells, cells': Cells, v: Vaddr, padded: int) {
    && v !in content && v !in cells && v in content' && v in cells'
    && content' == content[v := content'[v]] && cells' == cells[v := cells'[v]]
    && 0 < padded <= |content'[v]| && content'[v][0] == Owner(cells'[v].mb)
  }

  /** The caller has the lock of v and its address behind the header, or neither. */
  ghost predicate HoldGave(held: set<Vaddr>, held': set<Vaddr>, cells': Cells, v: Vaddr, paddr: Option<Paddr>,
                           hold: bool) {
    && held' == (if hold then held + {v} else held - {v})
    && (hold ==> v in cells' && paddr == Some(Paddr(cells'[v].mb, cells'[v].off + 8)))
    && (!hold ==> paddr == None)
  }

  lemma HoldsValid(mb: MemBlock, cells: Cells, content: Content)
    requires mb.Sound() && mb.adb.Valid() && cells == mb.adb.cells
    requires Holds(mb.mem[..], mb.pieces, mb.id, cells, content)
    ensures mb.Valid() && mb.View() == Part(content, cells, mb.id)
  {
  }

  lemma ValidHolds(mb: MemBlock, cells: Cells, content: Content)
    requires mb.Valid() && cells == mb.adb.cells && mb.View() == Part(content, cells, mb.id)
    ensures Holds(mb.mem[..], mb.pieces, mb.id, cells, content)
  {
  }

  lemma ElsewhereItself(b: nat, cells: Cells, content: Content)
    ensures SameElsewhere(b, cells, content, cells, content)
  {
  }

  /** A new address of block b. */
  lemma GaveIs(content: Content, content': Content, cells: Cells, cells': Cells, v: Vaddr, padded: int, n: nat, b: nat)
    requires Headed(content, cells, n) && b < n && v !in cells && v in cells' && v in content' && 8 < padded
    requires cells' == cells[v := cells'[v]] && cells'[v].mb == b && content' == content[v := content'[v]]
    requires padded <= |content'[v]| && content'[v][0] == Owner(b)
    ensures Gave(content, content', cells, cells', v, padded) && Headed(content', cells', n)
    ensures SameElsewhere(b, cells, content, cells', content')
    ensures Part(content', cells', b) == Part(content, cells, b)[v := content'[v]]
  {
    forall w ensures HeaderAt(content', cells', w) {
      assert HeaderAt(content, cells, w);
    }
  }

  lemma HoldGaveIs(held: set<Vaddr>, held': set<Vaddr>, cells': Cells, v: Vaddr, paddr: Option<Paddr>, hold: bool)
    requires held' == (if hold then held + {v} else held - {v}) && v in cells'
    requires paddr == if hold then Some(Paddr(cells'[v].mb, cells'[v].off + 8)) else None
    ensures HoldGave(held, held', cells', v, paddr, hold)
  {
  }

  /** The fallback block is large enough for the request, unless the default block size wraps around. */
  lemma FallbackFitsUnlessItWraps(padded: int, mbMinBytes: int)
    requires 8 < padded <= MAX_REQUEST && 0 < mbMinBytes < TWO_64
    ensures var reqBytes := if padded > mbMinBytes then padded else mbMinBytes;
            PadNumBytes(padded) <= PadNumBytes(reqBytes) <==> mbMinBytes <= MAX_REQUEST
    ensures padded < TWO_64
  {
    PadFitsUnlessItWraps(padded);
    PadFitsUnlessItWraps(mbMinBytes);
  }

  /** A piece found for a request has room for it behind the header, unless the sum or its padding wraps around. */
  lemma HeaderFitsUnlessItWraps(minBytes: int)
    requires 0 < minBytes < TWO_64
    ensures var padded := (minBytes + 8) % TWO_64;
            minBytes + 8 <= PadNumBytes(padded) - MAP_PADDING <==> minBytes + 8 <= MAX_REQUEST
  {
    if minBytes + 8 < TWO_64 {
      PadFitsUnlessItWraps(minBytes + 8);
    }
  }

  lemma NoneYet(cells: Cells, content: Content, n: nat)
    requires Headed(content, cells, n)
    ensures forall v :: v in cells ==> cells[v].mb != n
  {
  }

  lemma NewBlockValid(mb: MemBlock, padded: int, reqBytes: int, cells: Cells, content: Content)
    requires mb.State(NIL, {}) && mb.pieces == map[0 := FreePiece(mb.cap)] && mb.adb.Valid() && cells == mb.adb.cells
    requires forall v :: v in cells ==> cells[v].mb != mb.id
    requires 0 <= padded < TWO_64 && 0 <= reqBytes < TWO_64
    requires mb.cap == PadNumBytes(reqBytes) && PadNumBytes(padded) <= PadNumBytes(reqBytes)
    ensures mb.Valid() && mb.View() == Part(content, cells, mb.id) && Fits(mb.pieces, PadNumBytes(padded))
  {
    NewBlockIsValid(mb);
    EmptyBlockHolds(mb, cells, content);
    HoldsValid(mb, cells, content);
    assert mb.pieces[0].size == mb.cap;
  }

  lemma HeadedMore(content: Content, cells: Cells, n: nat)
    requires Headed(content, cells, n)
    ensures Headed(content, cells, n + 1)
  {
  }

  lemma HeaderOf(content: Content, cells: Cells, n: nat, v: Vaddr)
    requires Headed(content, cells, n) && v in content
    ensures v in cells && cells[v].mb < n && |content[v]| > 8 && content[v][0] == Owner(cells[v].mb)
  {
    assert HeaderAt(content, cells, v);
  }

  lemma HoldsView(mb: MemBlock, cells: Cells, content: Content, v: Vaddr)
    requires Holds(mb.mem[..], mb.pieces, mb.id, cells, content) && cells == mb.adb.cells
    requires v in content && v in cells && cells[v].mb == mb.id
    ensures Agree(mb.pieces, mb.id, mb.adb.cells) && v in mb.View() && mb.View()[v] == content[v]
  {
  }

  /** An address of block b less. */
  lemma FreedIs(content: Content, cells: Cells, n: nat, b: nat, v: Vaddr)
    requires Headed(content, cells, n) && v in cells && cells[v].mb == b
    ensures Headed(content - {v}, cells - {v}, n) && SameElsewhere(b, cells, content, cells - {v}, content - {v})
    ensures Part(content - {v}, cells - {v}, b) == Part(content, cells, b) - {v}
  {
    forall w ensures HeaderAt(content - {v}, cells - {v}, w) {
      assert HeaderAt(content, cells, w);
    }
  }

  lemma LoweredItself(cells: Cells)
    ensures Lowered(cells, cells)
  {
  }

  lemma LoweredOn(c0: Cells, c1: Cells, c2: Cells)
    requires Lowered(c0, c1) && Lowered(c1, c2)
    ensures Lowered(c0, c2)
  {
  }

  lemma CompactedIs(content: Content, b: nat, cells: Cells, cells': Cells, n: nat)
    requires Compacted(b, cells, cells') && Headed(content, cells, n)
    ensures Lowered(cells, cells') && Headed(content, cells', n) && SameElsewhere(b, cells, content, cells', content)
    ensures Part(content, cells', b) == Part(content, cells, b)
  {
    forall w ensures HeaderAt(content, cells', w) {
      assert HeaderAt(content, cells, w);
    }
  }

  lemma KeysAreCells(content: Content, cells: Cells, n: nat)
    requires Headed(content, cells, n)
    ensures content.Keys == cells.Keys
  {
  }

  ghost predicate Rejected(content: Content, pred: (Vaddr, seq<Cell>) -> bool, v: Vaddr) {
    v in content && |content[v]| >= 8 && !pred(v, content[v][8..])
  }

  /** The content without what pred rejects. */
  ghost function Passing(content: Content, pred: (Vaddr, seq<Cell>) -> bool): Content {
    map v | v in content && !Rejected(content, pred, v) :: content[v]
  }

  /** q lists what pred rejects among seen, each once. */
  ghost predicate ListsRejected(content: Content, seen: set<Vaddr>, pred: (Vaddr, seq<Cell>) -> bool, q: seq<Vaddr>) {
    && (forall i, j :: 0 <= i < j < |q| ==> q[i] != q[j])
    && (forall v :: v in q <==> v in seen && Rejected(content, pred, v))
  }

  lemma NoneRejected(content: Content, q: seq<Vaddr>, pred: (Vaddr, seq<Cell>) -> bool)
    ensures ListsRejected(content, Elems(q[..0]), pred, [])
  {
  }

  lemma AllSeen(content: Content, q: seq<Vaddr>, pred: (Vaddr, seq<Cell>) -> bool, found: seq<Vaddr>)
    requires ListsRejected(content, Elems(q[..|q|]), pred, found) && forall v :: v in q <==> v in content
    ensures ListsRejected(content, content.Keys, pred, found)
  {
    assert q[..|q|] == q;
    assert Elems(q) == content.Keys;
  }

  lemma FreeNext(content: Content, pred: (Vaddr, seq<Cell>) -> bool, rest: seq<Vaddr>, v: Vaddr)
    requires ListsRejected(content, content.Keys, pred, rest + [v])
    ensures v in content && Rejected(content, pred, v) && ListsRejected(content - {v}, (content - {v}).Keys, pred, rest)
    ensures forall w :: Rejected(content - {v}, pred, w) ==> Rejected(content, pred, w)
    ensures Passing(content - {v}, pred) == Passing(content, pred) && |content - {v}| == |content| - 1
  {
    var q := rest + [v];
    assert q[|rest|] == v && v in q;
    assert forall w :: w in q <==> w in rest || w == v;
    forall i | 0 <= i < |rest| ensures rest[i] != v && rest[i] in q {
      assert q[i] == rest[i] && q[i] != q[|rest|];
    }
    forall i, j | 0 <= i < j < |rest| ensures rest[i] != rest[j] {
      assert q[i] != q[j];
    }
    assert forall w :: w in (content - {v}) ==> (Rejected(content - {v}, pred, w) <==> Rejected(content, pred, w));
    assert (content - {v}).Keys == content.Keys - {v};
    assert |content - {v}| == |(content - {v}).Keys| && |content| == |content.Keys|;
  }

  lemma AllPass(content: Content, pred: (Vaddr, seq<Cell>) -> bool)
    requires ListsRejected(content, content.Keys, pred, [])
    ensures Passing(content, pred) == content
  {
    forall v | v in content ensures !Rejected(content, pred, v) {
      assert v !in [];
    }
  }

  lemma RejectNext(content: Content, q: seq<Vaddr>, k: nat, pred: (Vaddr, seq<Cell>) -> bool, found: seq<Vaddr>)
    requires k < |q| && q[k] in content && |content[q[k]]| >= 8 && ListsRejected(content, Elems(q[..k]), pred, found)
    requires forall i, j :: 0 <= i < j < |q| ==> q[i] != q[j]
    ensures ListsRejected(content, Elems(q[..k + 1]), pred,
                          if !pred(q[k], content[q[k]][8..]) then found + [q[k]] else found)
  {
    assert q[k] !in q[..k];
    assert Elems(q[..k + 1]) == Elems(q[..k]) + {q[k]} by {
      assert q[..k + 1] == q[..k] + [q[k]];
    }
  }

  lemma WrittenIs(content: Content, cells: Cells, len: nat, b: nat, v: Vaddr, i: nat, n: nat, c: Cell)
    requires Headed(content, cells, len) && v in cells && v in content && cells[v].mb == b
    requires 0 < i && 0 < n && i + n <= |content[v]|
    ensures var content' := content[v := Store(content[v], i, n, c)];
            && Headed(content', cells, len) && SameElsewhere(b, cells, content, cells, content')
            && Part(content', cells, b) == Part(content, cells, b)[v := Store(content[v], i, n, c)]
  {
    var content' := content[v := Store(content[v], i, n, c)];
    forall w ensures HeaderAt(content', cells, w) {
      assert HeaderAt(content, cells, w);
    }
  }

  // ---------------------------------------------------------------------------- counting pieces

  /** The sum of the counts of the blocks. */
  ghost function PieceTotal(blocks: seq<Pieces>): nat {
    if blocks == [] then 0 else PieceTotal(blocks[..|blocks|-1]) + |AllocatedIn(blocks[|blocks|-1])|
  }

  ghost predicate Matched(blocks: seq<Pieces>, cells: Cells) {
    && (forall i: nat {:trigger Agree(blocks[i], i, cells)} :: i < |blocks| ==> Agree(blocks[i], i, cells))
    && (forall v :: v in cells ==> cells[v].mb < |blocks|)
  }

  lemma HoldsAgrees(m: Mem, ps: Pieces, i: nat, cells: Cells, content: Content)
    requires Holds(m, ps, i, cells, content)
    ensures Agree(ps, i, cells)
  {
  }

  lemma MatchedIs(blocks: seq<Pieces>, cells: Cells)
    requires forall i: nat {:trigger Agree(blocks[i], i, cells)} :: i < |blocks| ==> Agree(blocks[i], i, cells)
    requires forall v :: v in cells ==> cells[v].mb < |blocks|
    ensures Matched(blocks, cells)
  {
  }

  ghost function CellsBelow(cells: Cells, n: nat): set<Vaddr> {
    set v | v in cells && cells[v].mb < n
  }

  /** The addresses whose bodies are in the pieces os. */
  ghost function CellsOf(cells: Cells, i: nat, os: set<int>): set<Vaddr> {
    set v | v in cells && cells[v].mb == i && cells[v].off - 24 in os
  }

  lemma OneCellMore(ps: Pieces, i: nat, cells: Cells, os: set<int>, o: int)
    requires Agree(ps, i, cells) && o in ps && ps[o].alloc && o in os
    ensures CellsOf(cells, i, os) == CellsOf(cells, i, os - {o}) + {ps[o].v} && ps[o].v !in CellsOf(cells, i, os - {o})
  {
    assert PieceAgrees(ps, i, cells, o);
    forall v | v in cells && cells[v].mb == i && cells[v].off - 24 == o ensures v == ps[o].v {
      assert CellAgrees(ps, i, cells, v);
    }
  }

  lemma {:induction false} ImageSize(ps: Pieces, i: nat, cells: Cells, os: set<int>)
    requires Agree(ps, i, cells) && forall o :: o in os ==> o in ps && ps[o].alloc
    ensures |CellsOf(cells, i, os)| == |os|
    decreases |os|
  {
    hide Agree;
    if os == {} {
      assert CellsOf(cells, i, os) == {};
    } else {
      var o := SomeOf(os);
      ImageSize(ps, i, cells, os - {o});
      OneCellMore(ps, i, cells, os, o);
    }
  }

  lemma NextBelow(cells: Cells, n: nat, vs: set<Vaddr>)
    requires n > 0 && vs == set v | v in cells && cells[v].mb == n - 1
    ensures |CellsBelow(cells, n)| == |CellsBelow(cells, n - 1)| + |vs|
  {
    assert CellsBelow(cells, n) == CellsBelow(cells, n - 1) + vs;
    assert CellsBelow(cells, n - 1) !! vs;
  }

  lemma {:induction false} CountsAddBelow(blocks: seq<Pieces>, cells: Cells, n: nat)
    requires Matched(blocks, cells) && n <= |blocks|
    ensures |CellsBelow(cells, n)| == PieceTotal(blocks[..n])
  {
    if n == 0 {
      assert CellsBelow(cells, 0) == {};
    } else {
      var ps := blocks[n-1];
      CountsAddBelow(blocks, cells, n - 1);
      assert Agree(blocks[n-1], n - 1, cells);
      var vs := set v | v in cells && cells[v].mb == n - 1;
      ImageSize(ps, n - 1, cells, AllocatedIn(ps));
      forall v | v in vs ensures cells[v].off - 24 in AllocatedIn(ps) {
        assert CellAgrees(ps, n - 1, cells, v);
      }
      assert vs == CellsOf(cells, n - 1, AllocatedIn(ps));
      NextBelow(cells, n, vs);
      assert blocks[..n][..n-1] == blocks[..n-1];
    }
  }

  lemma CountsAdd(blocks: seq<Pieces>, cells: Cells)
    requires Matched(blocks, cells)
    ensures |cells| == PieceTotal(blocks)
  {
    CountsAddBelow(blocks, cells, |blocks|);
    assert CellsBelow(cells, |blocks|) == cells.Keys;
    assert blocks[..|blocks|] == blocks;
  }

  lemma {:induction false} NoRepeatsCount(q: seq<Vaddr>, cells: Cells)
    requires forall i, j :: 0 <= i < j < |q| ==> q[i] != q[j]
    requires forall v :: v in q <==> v in cells
    ensures |q| == |cells|
    decreases |q|
  {
    if q == [] {
      assert cells.Keys == {};
    } else {
      var r, v := q[..|q|-1], q[|q|-1];
      assert q == r + [v];
      NoRepeatsCount(r, cells - {v});
      assert (cells - {v}).Keys == cells.Keys - {v};
      assert |cells| == |cells.Keys| && |cells - {v}| == |(cells - {v}).Keys|;
    }
  }
}
