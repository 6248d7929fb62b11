/**
 Two heaps in which the page heap does not do what one might expect.  Both are sound,
 with a region as the system grants it, a block for the descriptors and a page for the
 region records.
 */
module HeapWitnesses {
  import opened HeapLayout
  import opened FreeLists
  import opened HeapSteps
  import opened HeapRuns
  import opened HeapAlloc
  import opened HeapRegions
  import opened HeapExpansion
  import opened HeapGrowth
  import opened HeapUsers

  // ----- a run that is missed -----

  /**
   A region of 64 pages from page 8 on.  A decommitted block of 40 pages has been used for
   38, which were freed again; the other two are still decommitted.
   */
  function FragmentedCell(i: nat): HeapBlock {
    if i == 0 then HeapBlock(8, 1, 0, false, true, false)
    else if i == 1 then HeapBlock(9, 1, 1, false, true, false)
    else if i == 2 then HeapBlock(10, 38, 1, true, true, true)
    else if i == 40 then HeapBlock(48, 2, 38, true, false, false)
    else if i == 42 then HeapBlock(50, 22, 2, false, true, false)
    else if i == 64 then HeapBlock(0, 0, 22, false, false, false)
    else CLEAR
  }

  function Fragmented(): (bs: seq<HeapBlock>)
    ensures |bs| == 65 && forall i: nat :: i < 65 ==> bs[i] == FragmentedCell(i)
  {
    seq(65, i requires 0 <= i < 65 => FragmentedCell(i))
  }

  /** The same heap before: the 40 pages are one decommitted block. */
  function BeforeCell(i: nat): HeapBlock {
    if i == 2 then HeapBlock(10, 40, 1, true, false, false)
    else if i == 40 then CLEAR
    else if i == 42 then HeapBlock(50, 22, 40, false, true, false)
    else FragmentedCell(i)
  }

  function Before(): (bs: seq<HeapBlock>)
    ensures |bs| == 65 && forall i: nat :: i < 65 ==> bs[i] == BeforeCell(i)
  {
    seq(65, i requires 0 <= i < 65 => BeforeCell(i))
  }

  /** It comes about by an allocation of 38 pages, and their release. */
  lemma FragmentedByUse()
    ensures PrunedSize(40, 40, 38) == 38
    ensures Fragmented() == Linked(Reflagged(Prepared(Before(), 2, 38, true, false), 2, true, true), 2)
  {
    var bs := Before();
    var b1 := Unlinked(bs, 2);
    var b2 := Split(b1, 2, 38);
    assert b2 == b1[40 := HeapBlock(48, 2, 38, false, false, false)][2 := HeapBlock(10, 38, 1, false, false, false)]
                   [42 := HeapBlock(50, 22, 2, false, true, false)];
    var b3 := Trimmed(b1, 2, 38);
    assert b3 == b2[40 := HeapBlock(48, 2, 38, true, false, false)];
    var b4 := Linked(Reflagged(Reflagged(b3, 2, true, false), 2, true, true), 2);
    assert b4[2] == HeapBlock(10, 38, 1, true, true, true);
    forall i: nat | i < 65 ensures b4[i] == FragmentedCell(i) {
    }
    assert b4 == Fragmented();
  }

  function FragmentedLists(): Lists {
    NoLists()[17 := [2]][1 := [40]]
  }

  lemma FragmentedLayout()
    ensures Layout(Fragmented()) && Coalesced(Fragmented()) && UsersCommitted(Fragmented())
  {
    var bs := Fragmented();
    forall i: nat | i < 65 ensures CellOk(bs, i) {
    }
  }

  lemma FragmentedListsOk()
    ensures ListsOk(Fragmented(), FragmentedLists())
  {
    var bs, fl := Fragmented(), FragmentedLists();
    forall h: nat ensures Occurrences(fl, h) == if h < |bs| && bs[h].free then 1 else 0 {
      EmptyLists(NoLists(), h);
      OccurrencesUpdate(NoLists(), 17, [2], h);
      OccurrencesUpdate(NoLists()[17 := [2]], 1, [40], h);
    }
    assert GetFreeListIndex(38) == 17 && GetFreeListIndex(2) == 1;
    forall l: nat | l < |fl| ensures ListOk(bs, l, fl[l]) {
    }
  }

  lemma FragmentedRegions()
    ensures RegionsOk(Fragmented(), [Region(8, 72, 4104, 0, false)])
  {
    var bs, rs := Fragmented(), [Region(8, 72, 4104, 0, false)];
    forall page: nat ensures PageOk(bs, rs[0], page) {
      if 8 <= page < 72 {
        var x := page - 8;
        assert Holds(bs, if x < 2 then x else if x < 40 then 2 else if x < 42 then 40 else 42, x, page);
      }
    }
    forall x: nat, page: nat | CellHolds(bs, x, page) ensures Mapped(rs, x, page) {
      var b: nat :| Holds(bs, b, x, page);
      assert MapsTo(rs, 0, x, page);
    }
  }

  lemma FragmentedSound()
    ensures SoundState(Fragmented(), FragmentedLists(), [Region(8, 72, 4104, 0, false)], 8, {9}, {}, true)
  {
    var bs := Fragmented();
    FragmentedLayout();
    FragmentedListsOk();
    FragmentedRegions();
    assert DescriptorPages(65, HEAP_BLOCK_BYTES) == 1;
    assert HoldsDescriptors(bs, 8, 0);
    IsUser(bs, 8, 1);
  }

  /**
   A run of free pages that is long enough can be missed: the decommitted block in it is
   filed under its own size, in a list below that of the request, which is not searched.
   */
  lemma RunMissed()
    ensures var bs, fl := Fragmented(), FragmentedLists();
      && SoundState(bs, fl, [Region(8, 72, 4104, 0, false)], 8, {9}, {}, true)
      && RunAround(bs, 2, 40, 1) && !AtHand(bs, fl, 40, 1, true)
  {
    var bs, fl := Fragmented(), FragmentedLists();
    FragmentedSound();
    assert GetFreeListIndex(40) == 18;
    hide SoundState, HeapOk;
    assert FreeSpan(bs, 42, 42) && FreeSpan(bs, 40, 42) && FreeSpan(bs, 2, 42);
    assert Need(bs, 2, 40, 1) == 40;
    assert HoldsRequest(bs, 2, 2, 42, 40, 1);
    forall h: nat ensures !Suffices(bs, h, 40, 1) {
    }
    assert OnlyRuns(bs, 40, 1) && NoRunListed(bs, fl, 40, 1);
  }

  // ----- pages that are taken from a large allocation -----

  /** A region of 32 pages from page 8 on: descriptors, region records, and the rest free. */
  function SmallCell(i: nat): HeapBlock {
    if i == 0 then HeapBlock(8, 1, 0, false, true, false)
    else if i == 1 then HeapBlock(9, 1, 1, false, true, false)
    else if i == 2 then HeapBlock(10, 30, 1, true, true, false)
    else if i == 32 then HeapBlock(0, 0, 30, false, false, false)
    else CLEAR
  }

  function Small(): (bs: seq<HeapBlock>)
    ensures |bs| == 33 && forall i: nat :: i < 33 ==> bs[i] == SmallCell(i)
  {
    seq(33, i requires 0 <= i < 33 => SmallCell(i))
  }

  function SmallLists(): Lists {
    NoLists()[16 := [2]]
  }

  const SMALL_REGION := Region(8, 40, 4104, 0, false)

  lemma SmallLayout()
    ensures Layout(Small()) && Coalesced(Small()) && UsersCommitted(Small())
  {
    var bs := Small();
    forall i: nat | i < 33 ensures CellOk(bs, i) {
    }
  }

  lemma SmallListsOk()
    ensures ListsOk(Small(), SmallLists())
  {
    var bs, fl := Small(), SmallLists();
    forall h: nat ensures Occurrences(fl, h) == if h < |bs| && bs[h].free then 1 else 0 {
      EmptyLists(NoLists(), h);
      OccurrencesUpdate(NoLists(), 16, [2], h);
    }
    assert GetFreeListIndex(30) == 16;
    forall l: nat | l < |fl| ensures ListOk(bs, l, fl[l]) {
    }
  }

  lemma SmallRegions()
    ensures RegionsOk(Small(), [SMALL_REGION])
  {
    var bs, rs := Small(), [SMALL_REGION];
    forall page: nat ensures PageOk(bs, rs[0], page) {
      if 8 <= page < 40 {
        var x := page - 8;
        assert Holds(bs, if x < 2 then x else 2, x, page);
      }
    }
    forall x: nat, page: nat | CellHolds(bs, x, page) ensures Mapped(rs, x, page) {
      var b: nat :| Holds(bs, b, x, page);
      assert MapsTo(rs, 0, x, page);
    }
  }

  lemma SmallSound()
    ensures SoundState(Small(), SmallLists(), [SMALL_REGION], 8, {9}, {}, true)
  {
    SmallLayout();
    SmallListsOk();
    SmallRegions();
    assert DescriptorPages(33, HEAP_BLOCK_BYTES) == 1;
    assert HoldsDescriptors(Small(), 8, 0);
    IsUser(Small(), 8, 1);
  }

  /**
   256 pages are allocated at a multiple of 64, in a region reserved with 63 pages to
   spare; the heap is sound.  Then it grows by 32 pages, and may be granted some of these:
   however the new memory is cut into blocks, no region leads to it.
   */
  lemma TailCanBeTaken()
    ensures var large := Region(8192, 8448, 8511, 0, true); var m := Memory(8448, false, 32, 0);
      && FreeRange([SMALL_REGION], large.base, large.reserveTop)
      && SoundState(Small(), SmallLists(), [large, SMALL_REGION], 8, {9}, {(8192, 256)}, true)
      && Granted(Small(), [large, SMALL_REGION], 32, m) && TakesTail([large, SMALL_REGION], m)
      && forall bs :: MoreCells(Small(), bs, 33, 8448, 32) ==> !RegionsOk(bs, WithMemory([large, SMALL_REGION], 32, m, 33))
  {
    var bs, large, m := Small(), Region(8192, 8448, 8511, 0, true), Memory(8448, false, 32, 0);
    SmallSound();
    LargeAddedSound(bs, SmallLists(), [SMALL_REGION], 8, {9}, {}, large, (8192, 256));
    var rs := [large, SMALL_REGION];
    assert [large] + [SMALL_REGION] == rs && {} + {(8192, 256)} == {(8192, 256)};
    SoundParts(bs, SmallLists(), rs, 8, {9}, {(8192, 256)}, true);
    assert !Adjoins(bs, 8448);
    hide SoundState, RegionsLead, MoreCells, Layout;
    assert RegionsOk(bs, rs) && Layout(bs);
    forall bs' | MoreCells(bs, bs', 33, 8448, 32) ensures !RegionsOk(bs', WithMemory(rs, 32, m, 33)) {
      TailLeadsNowhere(bs, bs', rs, 32, m);
    }
  }
}
