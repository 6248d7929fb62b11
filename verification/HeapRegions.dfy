/**
 Regions of address space, and the compaction of the descriptor array when one is
 given back: RemoveBlock moves every descriptor behind the block, and with it the
 free lists and the regions' block ids.
 */
module HeapRegions {
  import opened HeapLayout
  import opened FreeLists
  import opened HeapSteps

  /**
   Pages base..reserveTop of address space, committed up to commitTop; `blockId` is
   the index of the descriptor cell of the first page.  Regions of large
   allocations have no descriptors.
   */
  datatype Region = Region(base: nat, commitTop: nat, reserveTop: nat, blockId: nat, large: bool)

  // ----- compaction of the descriptors -----

  /** The blocks before and after `h` are adjacent to it: without it they need a sentinel between them. */
  predicate NeedSentinel(bs: seq<HeapBlock>, h: nat)
    requires IsHead(bs, h) && NextOf(bs, h) < |bs|
  {
    bs[h].sizePrevious > 0 && bs[NextOf(bs, h)].size > 0
  }

  /** There is a sentinel on both sides (or the array's start): one has to go. */
  predicate RemoveSentinel(bs: seq<HeapBlock>, h: nat)
    requires IsHead(bs, h) && NextOf(bs, h) < |bs|
  {
    bs[h].sizePrevious == 0 && bs[NextOf(bs, h)].size == 0
  }

  /** The first cell that is kept behind the block, and how far it moves down. */
  function Src(bs: seq<HeapBlock>, h: nat): nat
    requires IsHead(bs, h) && NextOf(bs, h) < |bs|
  {
    if RemoveSentinel(bs, h) then NextOf(bs, h) + 1 else NextOf(bs, h)
  }

  function Dst(bs: seq<HeapBlock>, h: nat): nat
    requires IsHead(bs, h) && NextOf(bs, h) < |bs|
  {
    if NeedSentinel(bs, h) then h + 1 else h
  }

  function Shift(bs: seq<HeapBlock>, h: nat, x: nat): nat
    requires IsHead(bs, h) && NextOf(bs, h) < |bs| && (x < h || x >= Src(bs, h))
  {
    if x < h then x else x - Src(bs, h) + Dst(bs, h)
  }

  /** The array after RemoveBlock. */
  function Compacted(bs: seq<HeapBlock>, h: nat): (bs': seq<HeapBlock>)
    requires IsHead(bs, h) && NextOf(bs, h) < |bs|
    ensures |bs'| == |bs| - Src(bs, h) + Dst(bs, h)
  {
    var n := NextOf(bs, h);
    var bs1 := bs[n := bs[n].(sizePrevious := if NeedSentinel(bs, h) then 0 else bs[h].sizePrevious)];
    bs[..h]
    + (if NeedSentinel(bs, h) then [CLEAR.(sizePrevious := bs[h].sizePrevious)] else [])
    + bs1[Src(bs, h)..]
  }

  ghost predicate Removable(bs: seq<HeapBlock>, h: nat) {
    Layout(bs) && InHand(bs, h) && NextOf(bs, h) < |bs|
  }

  /** A cell that survives is what it was; the one behind the block learns its new predecessor's size. */
  lemma At(bs: seq<HeapBlock>, h: nat, x: nat)
    requires IsHead(bs, h) && NextOf(bs, h) < |bs| && x < |bs| && (x < h || x >= Src(bs, h))
    ensures Shift(bs, h, x) < |Compacted(bs, h)|
    ensures Compacted(bs, h)[Shift(bs, h, x)] ==
      if x == NextOf(bs, h) then bs[x].(sizePrevious := if NeedSentinel(bs, h) then 0 else bs[h].sizePrevious) else bs[x]
  {
  }

  lemma AtSentinel(bs: seq<HeapBlock>, h: nat)
    requires IsHead(bs, h) && NextOf(bs, h) < |bs| && NeedSentinel(bs, h)
    ensures h < |Compacted(bs, h)| && Compacted(bs, h)[h] == CLEAR.(sizePrevious := bs[h].sizePrevious)
  {
  }

  /** Where a cell of the compacted array comes from; the new sentinel comes from nowhere. */
  function Origin(bs: seq<HeapBlock>, h: nat, y: nat): nat
    requires IsHead(bs, h) && NextOf(bs, h) < |bs| && (y < h || y >= Dst(bs, h))
  {
    if y < h then y else y - Dst(bs, h) + Src(bs, h)
  }

  /** A block that survives ends before the gap, at it, or lies behind it. */
  lemma HeadOutside(bs: seq<HeapBlock>, h: nat, x: nat)
    requires Removable(bs, h) && IsHead(bs, x) && (x < h || x >= Src(bs, h))
    ensures NextOf(bs, x) < |bs| && bs[NextOf(bs, x)].sizePrevious == bs[x].size && bs[x].page > 0
    ensures x < h ==> NextOf(bs, x) <= h
    ensures x >= Src(bs, h) ==> x >= NextOf(bs, h)
    ensures forall j :: x < j < NextOf(bs, x) ==> bs[j].Empty()
  {
    assert CellOk(bs, x);
    if x < h { HeadsApart(bs, x, h); }
  }

  lemma CompactHead(bs: seq<HeapBlock>, h: nat, x: nat)
    requires Removable(bs, h) && x < |bs| && (x < h || x >= Src(bs, h))
    ensures Shift(bs, h, x) < |Compacted(bs, h)| && HeadOk(Compacted(bs, h), Shift(bs, h, x))
  {
    var bs', y := Compacted(bs, h), Shift(bs, h, x);
    At(bs, h, x);
    if bs'[y].size > 0 {
      HeadOutside(bs, h, x);
      hide Compacted, Layout;
      forall j: nat | y < j < y + bs'[y].size ensures j < |bs'| && bs'[j].Empty() {
        At(bs, h, j - y + x);
      }
      if NextOf(bs, x) == h { AtGap(bs, h); } else { At(bs, h, NextOf(bs, x)); }
    }
  }

  /** What stands in the place of the removed block, when another block ends there. */
  lemma AtGap(bs: seq<HeapBlock>, h: nat)
    requires Removable(bs, h) && bs[h].sizePrevious > 0
    ensures h < |Compacted(bs, h)| && Compacted(bs, h)[h].sizePrevious == bs[h].sizePrevious
    ensures Compacted(bs, h)[h].Sentinel()
    ensures Compacted(bs, h)[h].page == 0 && !Compacted(bs, h)[h].free
  {
    NextIn(bs, h);
    assert CellOk(bs, NextOf(bs, h));
    if NeedSentinel(bs, h) { AtSentinel(bs, h); } else { At(bs, h, NextOf(bs, h)); }
  }

  lemma CompactBack(bs: seq<HeapBlock>, h: nat, x: nat)
    requires Removable(bs, h) && x < |bs| && (x < h || x >= Src(bs, h))
    ensures Shift(bs, h, x) < |Compacted(bs, h)| && BackOk(Compacted(bs, h), Shift(bs, h, x))
  {
    At(bs, h, x);
    if x == NextOf(bs, h) {
      NextIn(bs, h);
      if !NeedSentinel(bs, h) && bs[h].sizePrevious > 0 { GapBack(bs, h); }
    } else if bs[x].sizePrevious > 0 {
      assert CellOk(bs, x);
      PredecessorOutside(bs, h, x);
      var p := x - bs[x].sizePrevious;
      if p < h { HeadsApart(bs, p, h); BackBefore(bs, h, x); }
      NextIn(bs, h);
      hide Compacted, Layout;
      At(bs, h, p);
    }
  }

  /** A cell whose predecessor lies before the gap lies before it too, if it is not the gap's end. */
  lemma BackBefore(bs: seq<HeapBlock>, h: nat, x: nat)
    requires Removable(bs, h) && x < |bs| && bs[x].sizePrevious > 0 && x != NextOf(bs, h)
    requires bs[x].sizePrevious <= x && x - bs[x].sizePrevious < h && (x < h || x >= Src(bs, h))
    ensures x < h
  {
    PrevIn(bs, x);
    HeadsApart(bs, x - bs[x].sizePrevious, h);
  }

  lemma GapBack(bs: seq<HeapBlock>, h: nat)
    requires Removable(bs, h) && bs[h].sizePrevious > 0
    ensures h < |Compacted(bs, h)| && BackOk(Compacted(bs, h), h)
  {
    AtGap(bs, h);
    PrevIn(bs, h);
    hide Compacted, Layout;
    At(bs, h, h - bs[h].sizePrevious);
  }

  lemma CompactEdge(bs: seq<HeapBlock>, h: nat, x: nat)
    requires Removable(bs, h) && x < |bs| && (x < h || x >= Src(bs, h))
    ensures Shift(bs, h, x) < |Compacted(bs, h)| && EdgeOk(Compacted(bs, h), Shift(bs, h, x))
  {
    At(bs, h, x);
    assert CellOk(bs, x);
    CompactAfter(bs, h, x);
    CompactBefore(bs, h, x);
    NextIn(bs, h);
    assert CellOk(bs, NextOf(bs, h));
    hide Compacted, Layout;
  }

  /** What follows a sentinel. */
  lemma CompactAfter(bs: seq<HeapBlock>, h: nat, x: nat)
    requires Removable(bs, h) && x < |bs| && (x < h || x >= Src(bs, h))
    ensures var bs', y := Compacted(bs, h), Shift(bs, h, x);
      y < |bs'| && (bs'[y].Sentinel() && y + 1 < |bs'| ==> bs'[y + 1].size > 0 && bs'[y + 1].sizePrevious == 0)
  {
    At(bs, h, x);
    assert CellOk(bs, x) && CellOk(bs, h);
    NextIn(bs, h);
    if x + 1 < |bs| && x + 1 != h {
      At(bs, h, x + 1);
    } else if x + 1 == h && bs[x].Sentinel() {
      if RemoveSentinel(bs, h) {
        assert CellOk(bs, NextOf(bs, h));
        if NextOf(bs, h) + 1 < |bs| { At(bs, h, NextOf(bs, h) + 1); }
      } else {
        At(bs, h, NextOf(bs, h));
      }
    }
  }

  /** What precedes the first block of a region. */
  lemma CompactBefore(bs: seq<HeapBlock>, h: nat, x: nat)
    requires Removable(bs, h) && x < |bs| && (x < h || x >= Src(bs, h))
    ensures var bs', y := Compacted(bs, h), Shift(bs, h, x);
      y < |bs'| && (bs'[y].size > 0 && bs'[y].sizePrevious == 0 && y > 0 ==> bs'[y - 1].Sentinel())
  {
    At(bs, h, x);
    assert CellOk(bs, x) && CellOk(bs, h);
    NextIn(bs, h);
    if x > Src(bs, h) || 0 < x < h {
      At(bs, h, x - 1);
    } else if NeedSentinel(bs, h) {
      AtSentinel(bs, h);
    } else if h > 0 {
      At(bs, h, h - 1);
    }
  }

  lemma CompactedLayout(bs: seq<HeapBlock>, h: nat)
    requires Removable(bs, h)
    ensures Layout(Compacted(bs, h))
  {
    var bs' := Compacted(bs, h);
    forall y: nat | y < |bs'| ensures CellOk(bs', y) {
      if y < h || y >= Dst(bs, h) {
        var x := Origin(bs, h, y);
        assert y == Shift(bs, h, x);
        CompactHead(bs, h, x);
        CompactBack(bs, h, x);
        CompactEdge(bs, h, x);
      } else {
        NewSentinel(bs, h);
      }
    }
    CompactedFirst(bs, h);
  }

  lemma NewSentinel(bs: seq<HeapBlock>, h: nat)
    requires Removable(bs, h) && NeedSentinel(bs, h)
    ensures h < |Compacted(bs, h)| && CellOk(Compacted(bs, h), h)
  {
    AtSentinel(bs, h);
    GapBack(bs, h);
    At(bs, h, NextOf(bs, h));
  }

  lemma CompactedFirst(bs: seq<HeapBlock>, h: nat)
    requires Removable(bs, h)
    ensures var bs' := Compacted(bs, h); |bs'| > 0 ==> bs'[0].size > 0 && bs'[0].sizePrevious == 0
  {
    NextIn(bs, h);
    assert CellOk(bs, h) && CellOk(bs, NextOf(bs, h));
    if h > 0 {
      At(bs, h, 0);
    } else if Src(bs, h) < |bs| {
      At(bs, h, Src(bs, h));
    }
  }

  // ----- the free lists -----

  ghost predicate Outside(bs: seq<HeapBlock>, h: nat, s: seq<nat>)
    requires IsHead(bs, h) && NextOf(bs, h) < |bs|
  {
    forall i :: 0 <= i < |s| ==> s[i] < h || s[i] >= Src(bs, h)
  }

  /** A list whose entries have moved with their descriptors. */
  function Moved(bs: seq<HeapBlock>, h: nat, s: seq<nat>): (s': seq<nat>)
    requires IsHead(bs, h) && NextOf(bs, h) < |bs| && Outside(bs, h, s)
    ensures |s'| == |s| && forall i :: 0 <= i < |s| ==> s'[i] == Shift(bs, h, s[i])
  {
    if s == [] then [] else Moved(bs, h, s[..|s| - 1]) + [Shift(bs, h, s[|s| - 1])]
  }

  lemma {:induction false} MovedCount(bs: seq<HeapBlock>, h: nat, s: seq<nat>, x: nat)
    requires IsHead(bs, h) && NextOf(bs, h) < |bs| && Outside(bs, h, s) && (x < h || x >= Src(bs, h))
    ensures multiset(Moved(bs, h, s))[Shift(bs, h, x)] == multiset(s)[x]
  {
    if s != [] {
      var r, z := s[..|s| - 1], s[|s| - 1];
      MovedCount(bs, h, r, x);
      ShiftInjective(bs, h, z, x);
      hide Shift, Src;
      assert s == r + [z];
      CountAppend(r, z, x);
      CountAppend(Moved(bs, h, r), Shift(bs, h, z), Shift(bs, h, x));
    }
  }

  lemma CountAppend(s: seq<nat>, z: nat, x: nat)
    ensures multiset(s + [z])[x] == multiset(s)[x] + if z == x then 1 else 0
  {
  }

  lemma ShiftInjective(bs: seq<HeapBlock>, h: nat, x: nat, z: nat)
    requires IsHead(bs, h) && NextOf(bs, h) < |bs| && (x < h || x >= Src(bs, h)) && (z < h || z >= Src(bs, h))
    ensures Shift(bs, h, x) == Shift(bs, h, z) <==> x == z
  {
  }

  lemma {:induction false} MovedMisses(bs: seq<HeapBlock>, h: nat, s: seq<nat>)
    requires IsHead(bs, h) && NextOf(bs, h) < |bs| && Outside(bs, h, s) && NeedSentinel(bs, h)
    ensures h !in Moved(bs, h, s)
  {
    var s' := Moved(bs, h, s);
    forall i | 0 <= i < |s'| ensures s'[i] != h { assert s'[i] == Shift(bs, h, s[i]); }
  }

  ghost predicate AllOutside(bs: seq<HeapBlock>, h: nat, fl: Lists)
    requires IsHead(bs, h) && NextOf(bs, h) < |bs|
  {
    forall l :: 0 <= l < |fl| ==> Outside(bs, h, fl[l])
  }

  ghost predicate AllMoved(bs: seq<HeapBlock>, h: nat, fl: Lists, fl': Lists)
    requires IsHead(bs, h) && NextOf(bs, h) < |bs| && AllOutside(bs, h, fl)
  {
    |fl'| == |fl| && forall l :: 0 <= l < |fl| ==> fl'[l] == Moved(bs, h, fl[l])
  }

  lemma {:induction false} MovedOccurrences(bs: seq<HeapBlock>, h: nat, fl: Lists, fl': Lists, x: nat)
    requires IsHead(bs, h) && NextOf(bs, h) < |bs| && AllOutside(bs, h, fl) && AllMoved(bs, h, fl, fl')
    requires x < h || x >= Src(bs, h)
    ensures Occurrences(fl', Shift(bs, h, x)) == Occurrences(fl, x)
    decreases |fl|
  {
    if fl != [] {
      var n := |fl| - 1;
      MovedOccurrences(bs, h, fl[..n], fl'[..n], x);
      MovedCount(bs, h, fl[n], x);
    }
  }

  lemma {:induction false} MovedNever(bs: seq<HeapBlock>, h: nat, fl: Lists, fl': Lists)
    requires IsHead(bs, h) && NextOf(bs, h) < |bs| && AllOutside(bs, h, fl) && AllMoved(bs, h, fl, fl')
    requires NeedSentinel(bs, h)
    ensures Occurrences(fl', h) == 0
    decreases |fl|
  {
    if fl != [] {
      var n := |fl| - 1;
      MovedNever(bs, h, fl[..n], fl'[..n]);
      MovedMisses(bs, h, fl[n]);
    }
  }

  /** Free blocks are neither the block in hand, nor inside it, nor a sentinel. */
  lemma FreeOutside(bs: seq<HeapBlock>, h: nat, x: nat)
    requires Removable(bs, h) && x < |bs| && bs[x].free
    ensures x < h || x >= Src(bs, h)
  {
    assert CellOk(bs, x);
    BoundaryOutside(bs, h, x);
  }

  lemma ListsOutside(bs: seq<HeapBlock>, fl: Lists, h: nat)
    requires Removable(bs, h) && ListsOk(bs, fl)
    ensures AllOutside(bs, h, fl)
  {
    forall l, i | 0 <= l < |fl| && 0 <= i < |fl[l]| ensures fl[l][i] < h || fl[l][i] >= Src(bs, h) {
      ListedIsFree(bs, fl, l, i);
      FreeOutside(bs, h, fl[l][i]);
    }
  }

  lemma MovedListOk(bs: seq<HeapBlock>, h: nat, l: nat, s: seq<nat>)
    requires Removable(bs, h) && ListOk(bs, l, s) && Outside(bs, h, s)
    ensures ListOk(Compacted(bs, h), l, Moved(bs, h, s))
  {
    var bs', s' := Compacted(bs, h), Moved(bs, h, s);
    forall i | 0 <= i < |s'|
      ensures s'[i] < |bs'| && bs'[s'[i]].size == bs[s[i]].size && bs'[s'[i]].committed == bs[s[i]].committed
    {
      At(bs, h, s[i]);
    }
    hide Compacted, Moved, Layout;
  }

  lemma MovedOnce(bs: seq<HeapBlock>, fl: Lists, h: nat, fl': Lists, y: nat)
    requires Removable(bs, h) && ListsOk(bs, fl) && AllOutside(bs, h, fl) && AllMoved(bs, h, fl, fl')
    ensures var bs' := Compacted(bs, h); Occurrences(fl', y) == if y < |bs'| && bs'[y].free then 1 else 0
  {
    hide Layout, Occurrences, ListOk, Moved;
    if y < h || y >= Dst(bs, h) {
      var x := Origin(bs, h, y);
      assert y == Shift(bs, h, x) && (x < |bs| <==> y < |Compacted(bs, h)|);
      if x < |bs| { At(bs, h, x); }
      MovedOccurrences(bs, h, fl, fl', x);
      assert Occurrences(fl, x) == if x < |bs| && bs[x].free then 1 else 0;
    } else {
      AtSentinel(bs, h);
      MovedNever(bs, h, fl, fl');
    }
  }

  lemma MovedListsOk(bs: seq<HeapBlock>, fl: Lists, h: nat, fl': Lists)
    requires Removable(bs, h) && ListsOk(bs, fl) && AllOutside(bs, h, fl) && AllMoved(bs, h, fl, fl')
    ensures ListsOk(Compacted(bs, h), fl')
  {
    var bs' := Compacted(bs, h);
    forall y: nat ensures Occurrences(fl', y) == if y < |bs'| && bs'[y].free then 1 else 0 {
      MovedOnce(bs, fl, h, fl', y);
    }
    hide Compacted, Layout, Occurrences;
    forall l: nat | l < |fl'| ensures ListOk(bs', l, fl'[l]) {
      assert ListOk(bs, l, fl[l]);
      MovedListOk(bs, h, l, fl[l]);
    }
  }

  lemma CompactedCoalesced(bs: seq<HeapBlock>, h: nat)
    requires Removable(bs, h) && Coalesced(bs)
    ensures Coalesced(Compacted(bs, h))
  {
    var bs' := Compacted(bs, h);
    forall y: nat | y < |bs'| && bs'[y].free && NextOf(bs', y) < |bs'| && bs'[NextOf(bs', y)].free
      ensures bs'[y].committed != bs'[NextOf(bs', y)].committed
    {
      if y == h && NeedSentinel(bs, h) { AtSentinel(bs, h); }
      var x := Origin(bs, h, y);
      assert y == Shift(bs, h, x);
      At(bs, h, x);
      assert CellOk(bs, x);
      HeadOutside(bs, h, x);
      if NextOf(bs, x) == h { AtGap(bs, h); } else { At(bs, h, NextOf(bs, x)); }
    }
  }

  /** Compaction keeps the heap's whole invariant. */
  lemma CompactedHeapOk(bs: seq<HeapBlock>, fl: Lists, h: nat, fl': Lists)
    requires HeapOk(bs, fl) && Removable(bs, h) && AllOutside(bs, h, fl) && AllMoved(bs, h, fl, fl')
    ensures HeapOk(Compacted(bs, h), fl')
  {
    CompactedLayout(bs, h);
    MovedListsOk(bs, fl, h, fl');
    CompactedCoalesced(bs, h);
  }

  // ----- addresses -----

  /** A region's block id leads from each of its pages to that page's cell. */
  ghost predicate RegionOk(bs: seq<HeapBlock>, r: Region) {
    r.base < r.commitTop <= r.reserveTop && (!r.large ==> forall page: nat :: PageOk(bs, r, page))
  }

  ghost predicate PageOk(bs: seq<HeapBlock>, r: Region, page: nat) {
    r.base <= page < r.commitTop ==> CellHolds(bs, r.blockId + (page - r.base), page)
  }

  /** Cell `x` is where region `i` expects the descriptor of `page`. */
  predicate MapsTo(rs: seq<Region>, i: nat, x: nat, page: nat) {
    i < |rs| && !rs[i].large && rs[i].base <= page < rs[i].commitTop && x == rs[i].blockId + (page - rs[i].base)
  }

  ghost predicate Mapped(rs: seq<Region>, x: nat, page: nat) {
    exists i: nat :: MapsTo(rs, i, x, page)
  }

  /** Every page of every block can be found by its address. */
  ghost predicate Covered(bs: seq<HeapBlock>, rs: seq<Region>) {
    forall x: nat, page: nat :: CellHolds(bs, x, page) ==> Mapped(rs, x, page)
  }

  /**
   The regions are listed from the newest to the oldest, and the newer a region, the further up are
   its descriptors.
   */
  ghost predicate Ordered(rs: seq<Region>) {
    forall i, j :: 0 <= i < j < |rs| && !rs[i].large && !rs[j].large ==> rs[i].blockId > rs[j].blockId
  }

  /** Regions do not overlap, and lead from each page to its own cell. */
  ghost predicate RegionsLead(bs: seq<HeapBlock>, rs: seq<Region>) {
    && (forall i :: 0 <= i < |rs| ==> RegionOk(bs, rs[i]))
    && (forall i, j :: 0 <= i < j < |rs| ==> Apart(rs[i], rs[j]))
    && Ordered(rs)
  }

  ghost predicate RegionsOk(bs: seq<HeapBlock>, rs: seq<Region>) {
    RegionsLead(bs, rs) && Covered(bs, rs)
  }

  /** As long as no cell comes to stand for another page, the regions stay right. */
  lemma RegionsFrame(bs: seq<HeapBlock>, bs': seq<HeapBlock>, rs: seq<Region>)
    requires SameCells(bs, bs') && RegionsOk(bs, rs)
    ensures RegionsOk(bs', rs)
  {
    forall i | 0 <= i < |rs| ensures RegionOk(bs', rs[i]) {
      assert RegionOk(bs, rs[i]);
      if !rs[i].large {
        forall page: nat ensures PageOk(bs', rs[i], page) { assert PageOk(bs, rs[i], page); }
      }
    }
    forall x: nat, page: nat | CellHolds(bs', x, page) ensures Mapped(rs, x, page) {
      assert CellHolds(bs, x, page);
    }
  }

  lemma UsersRegions(bs: seq<HeapBlock>, bs': seq<HeapBlock>, s: set<nat>, rs: seq<Region>)
    requires UsersKept(bs, bs', s) && RegionsOk(bs, rs)
    ensures RegionsOk(bs', rs)
  {
    RegionsFrame(bs, bs', rs);
  }

  predicate Apart(r: Region, s: Region) {
    r.reserveTop <= s.base || s.reserveTop <= r.base
  }

  /** The region of the block that is removed: exactly its pages. */
  predicate Covers(bs: seq<HeapBlock>, h: nat, r: Region)
    requires h < |bs|
  {
    !r.large && r.blockId == h && r.base == bs[h].page && r.reserveTop == bs[h].page + bs[h].size
  }

  /** What the block id of a region that survives becomes. */
  function MovedRegion(bs: seq<HeapBlock>, h: nat, r: Region): Region
    requires IsHead(bs, h) && NextOf(bs, h) < |bs|
  {
    if !r.large && r.blockId > h && r.blockId >= Src(bs, h) - Dst(bs, h) then
      r.(blockId := r.blockId - (Src(bs, h) - Dst(bs, h)))
    else r
  }

  /** A page of another region is not in the block that goes. */
  lemma SurvivingCell(bs: seq<HeapBlock>, h: nat, gone: Region, r: Region, page: nat) returns (b: nat)
    requires Removable(bs, h) && Covers(bs, h, gone) && RegionOk(bs, r) && !r.large && Apart(r, gone)
    requires r.base <= page < r.commitTop
    ensures var x := r.blockId + (page - r.base);
      && Holds(bs, b, x, page) && (b < h || b >= Src(bs, h)) && (x < h || x >= Src(bs, h)) && (b < h <==> x < h)
  {
    assert PageOk(bs, r, page);
    var x := r.blockId + (page - r.base);
    b :| Holds(bs, b, x, page);
    assert b != h;
    BoundaryOutside(bs, h, b);
    HeadOutside(bs, h, b);
  }

  /** A region lies on one side of the block. */
  lemma SameSide(bs: seq<HeapBlock>, h: nat, gone: Region, r: Region, page: nat)
    requires Removable(bs, h) && Covers(bs, h, gone) && RegionOk(bs, r) && !r.large && Apart(r, gone)
    requires r.base <= page < r.commitTop
    ensures r.blockId < h <==> r.blockId + (page - r.base) < h
  {
    if r.blockId < h <= r.blockId + (page - r.base) {
      var b := SurvivingCell(bs, h, gone, r, r.base + (h - r.blockId));
    }
  }

  /** Every page of a surviving region is found where its descriptor has gone. */
  lemma MovedPage(bs: seq<HeapBlock>, h: nat, gone: Region, r: Region, page: nat)
    requires Removable(bs, h) && Covers(bs, h, gone) && RegionOk(bs, r) && !r.large && Apart(r, gone)
    requires r.base <= page < r.commitTop
    ensures var r', x := MovedRegion(bs, h, r), r.blockId + (page - r.base);
      && (x < h || x >= Src(bs, h)) && r'.blockId + (page - r'.base) == Shift(bs, h, x)
      && CellHolds(Compacted(bs, h), Shift(bs, h, x), page)
  {
    var b := SurvivingCell(bs, h, gone, r, page);
    var b0 := SurvivingCell(bs, h, gone, r, r.base);
    SameSide(bs, h, gone, r, page);
    At(bs, h, b);
    HeadOutside(bs, h, b);
    hide Compacted, Layout;
    assert Holds(Compacted(bs, h), Shift(bs, h, b), Shift(bs, h, r.blockId + (page - r.base)), page);
  }

  lemma MovedRegionOk(bs: seq<HeapBlock>, h: nat, gone: Region, r: Region)
    requires Removable(bs, h) && Covers(bs, h, gone) && RegionOk(bs, r) && Apart(r, gone)
    ensures RegionOk(Compacted(bs, h), MovedRegion(bs, h, r))
  {
    var r' := MovedRegion(bs, h, r);
    if !r.large {
      forall page: nat ensures PageOk(Compacted(bs, h), r', page) {
        if r.base <= page < r.commitTop { MovedPage(bs, h, gone, r, page); }
      }
    }
  }

  /** The regions that are left, in their order. */
  ghost predicate RegionsMoved(bs: seq<HeapBlock>, h: nat, rs: seq<Region>, g: nat, rs': seq<Region>)
    requires IsHead(bs, h) && NextOf(bs, h) < |bs| && g < |rs|
  {
    && |rs'| == |rs| - 1
    && (forall i :: 0 <= i < g ==> rs'[i] == MovedRegion(bs, h, rs[i]))
    && (forall i :: g < i < |rs| ==> rs'[i - 1] == MovedRegion(bs, h, rs[i]))
  }

  lemma ApartFrom(bs: seq<HeapBlock>, rs: seq<Region>, i: nat, j: nat)
    requires RegionsLead(bs, rs) && i < |rs| && j < |rs| && i != j
    ensures Apart(rs[i], rs[j]) && RegionOk(bs, rs[i])
  {
    if i < j { assert Apart(rs[i], rs[j]); } else { assert Apart(rs[j], rs[i]); }
  }

  lemma RegionsStayLeading(bs: seq<HeapBlock>, h: nat, rs: seq<Region>, g: nat, rs': seq<Region>)
    requires Removable(bs, h) && RegionsLead(bs, rs) && g < |rs| && Covers(bs, h, rs[g])
    requires RegionsMoved(bs, h, rs, g, rs')
    ensures RegionsLead(Compacted(bs, h), rs')
  {
    assert IsHead(bs, h) && NextOf(bs, h) < |bs|;
    hide Compacted, Removable, RegionsLead, RegionOk, MovedRegion;
    forall i | 0 <= i < |rs'| ensures RegionOk(Compacted(bs, h), rs'[i]) {
      var j := if i < g then i else i + 1;
      ApartFrom(bs, rs, j, g);
      MovedRegionOk(bs, h, rs[g], rs[j]);
    }
    forall i, k | 0 <= i < k < |rs'|
      ensures Apart(rs'[i], rs'[k])
      ensures !rs'[i].large && !rs'[k].large ==> rs'[i].blockId > rs'[k].blockId
    {
      MovedPair(bs, h, rs, g, if i < g then i else i + 1, if k < g then k else k + 1);
    }
    RegionsLeadIs(Compacted(bs, h), rs');
  }

  lemma RegionsLeadIs(bs: seq<HeapBlock>, rs: seq<Region>)
    requires forall i :: 0 <= i < |rs| ==> RegionOk(bs, rs[i])
    requires forall i, j :: 0 <= i < j < |rs| ==>
      Apart(rs[i], rs[j]) && (!rs[i].large && !rs[j].large ==> rs[i].blockId > rs[j].blockId)
    ensures RegionsLead(bs, rs)
  {
  }

  lemma MovedPair(bs: seq<HeapBlock>, h: nat, rs: seq<Region>, g: nat, i: nat, k: nat)
    requires Removable(bs, h) && RegionsLead(bs, rs) && g < |rs| && Covers(bs, h, rs[g]) && i < k < |rs| && i != g
    requires k != g
    ensures var r, t := MovedRegion(bs, h, rs[i]), MovedRegion(bs, h, rs[k]);
      Apart(r, t) && (!r.large && !t.large ==> r.blockId > t.blockId)
  {
    ApartFrom(bs, rs, i, g);
    ApartFrom(bs, rs, k, g);
    assert Apart(rs[i], rs[k]);
    if !rs[i].large && !rs[k].large {
      assert rs[i].blockId > rs[k].blockId;
      MovedPage(bs, h, rs[g], rs[i], rs[i].base);
      MovedPage(bs, h, rs[g], rs[k], rs[k].base);
      hide Removable, Compacted;
    }
  }

  lemma CompactedCovered(bs: seq<HeapBlock>, h: nat, rs: seq<Region>, g: nat, rs': seq<Region>)
    requires Removable(bs, h) && RegionsOk(bs, rs) && g < |rs| && Covers(bs, h, rs[g])
    requires RegionsMoved(bs, h, rs, g, rs')
    ensures Covered(Compacted(bs, h), rs')
  {
    forall y: nat, page: nat | CellHolds(Compacted(bs, h), y, page) ensures Mapped(rs', y, page) {
      var x := WhereFrom(bs, h, y, page);
      hide Compacted, Removable, RegionsLead, Shift;
      assert Mapped(rs, x, page);
      var i: nat :| MapsTo(rs, i, x, page);
      CoveredBy(bs, h, rs, g, i, x, page);
      ApartFrom(bs, rs, i, g);
      MovedPage(bs, h, rs[g], rs[i], page);
      assert MapsTo(rs', if i < g then i else i - 1, y, page);
    }
  }

  /** The region of the block that goes covers no other cell. */
  lemma CoveredBy(bs: seq<HeapBlock>, h: nat, rs: seq<Region>, g: nat, i: nat, x: nat, page: nat)
    requires Removable(bs, h) && RegionsLead(bs, rs) && g < |rs| && Covers(bs, h, rs[g]) && MapsTo(rs, i, x, page)
    requires x < h || x >= Src(bs, h)
    ensures i != g
  {
    assert RegionOk(bs, rs[g]);
  }

  /** The cell that a page's cell was before the compaction. */
  lemma WhereFrom(bs: seq<HeapBlock>, h: nat, y: nat, page: nat) returns (x: nat)
    requires Removable(bs, h) && CellHolds(Compacted(bs, h), y, page)
    ensures (x < h || x >= Src(bs, h)) && Shift(bs, h, x) == y && CellHolds(bs, x, page)
  {
    var bs' := Compacted(bs, h);
    var b': nat :| Holds(bs', b', y, page);
    if NeedSentinel(bs, h) { AtSentinel(bs, h); }
    var b := Origin(bs, h, b');
    At(bs, h, b);
    HeadOutside(bs, h, b);
    hide Compacted, Layout;
    x := if b < h then y else b + (y - b');
    assert Holds(bs, b, x, page);
  }

  lemma RegionsStayOk(bs: seq<HeapBlock>, h: nat, rs: seq<Region>, g: nat, rs': seq<Region>)
    requires Removable(bs, h) && RegionsOk(bs, rs) && g < |rs| && Covers(bs, h, rs[g])
    requires RegionsMoved(bs, h, rs, g, rs')
    ensures RegionsOk(Compacted(bs, h), rs')
  {
    RegionsStayLeading(bs, h, rs, g, rs');
    CompactedCovered(bs, h, rs, g, rs');
  }

  /** A cell belongs to one block, so a page that is some block's first is found as that block. */
  lemma BaseCell(bs: seq<HeapBlock>, b: nat, x: nat, page: nat)
    requires Layout(bs) && CellHolds(bs, x, page) && IsHead(bs, x)
    ensures bs[x].page == page
  {
    var c: nat :| Holds(bs, c, x, page);
    if c < x { HeadsApart(bs, c, x); }
  }

  /** The reserved pages of regions do not overlap. */
  lemma OneRegion(bs: seq<HeapBlock>, rs: seq<Region>, i: nat, page: nat)
    requires RegionsOk(bs, rs) && i < |rs| && rs[i].base <= page < rs[i].reserveTop
    ensures forall j :: 0 <= j < |rs| && rs[j].base <= page < rs[j].reserveTop ==> j == i
  {
    forall j | 0 <= j < |rs| && j != i ensures !(rs[j].base <= page < rs[j].reserveTop) {
      if j < i { assert Apart(rs[j], rs[i]); } else { assert Apart(rs[i], rs[j]); }
    }
  }

  lemma FoundCell(bs: seq<HeapBlock>, fl: Lists, rs: seq<Region>, i: nat, page: nat) returns (b: nat)
    requires HeapOk(bs, fl) && RegionsOk(bs, rs) && i < |rs| && !rs[i].large && rs[i].base <= page < rs[i].commitTop
    ensures var x := rs[i].blockId + (page - rs[i].base);
      x < |bs| && CellHolds(bs, x, page) && Holds(bs, b, x, page) && (bs[x].size > 0 ==> bs[x].page == page)
  {
    var x := rs[i].blockId + (page - rs[i].base);
    assert RegionOk(bs, rs[i]);
    assert PageOk(bs, rs[i], page);
    b :| Holds(bs, b, x, page);
    NextIn(bs, b);
    if bs[x].size > 0 { BaseCell(bs, b, x, page); }
  }

  lemma HeadOfCell(bs: seq<HeapBlock>, fl: Lists, c: nat, b: nat)
    requires HeapOk(bs, fl) && IsHead(bs, c) && c <= b < NextOf(bs, c) && IsHead(bs, b)
    ensures b == c
  {
    if c < b { HeadsApart(bs, c, b); }
  }

  // ----- page counts -----

  lemma {:induction false} PagesConcat(kind: Kind, a: seq<HeapBlock>, b: seq<HeapBlock>)
    ensures Pages(kind, a + b) == Pages(kind, a) + Pages(kind, b)
    decreases |b|
  {
    if b == [] {
      assert a + b == a;
    } else {
      PagesConcat(kind, a, b[..|b| - 1]);
      assert (a + b)[..|a + b| - 1] == a + b[..|b| - 1];
    }
  }

  lemma {:induction false} PagesZero(kind: Kind, a: seq<HeapBlock>)
    requires forall i :: 0 <= i < |a| ==> a[i].size == 0
    ensures Pages(kind, a) == 0
  {
    if a != [] { PagesZero(kind, a[..|a| - 1]); }
  }

  /** The parts of the array before and after. */
  lemma CompactedShape(bs: seq<HeapBlock>, h: nat, b: HeapBlock)
    returns (front: seq<HeapBlock>, gap: seq<HeapBlock>, middle: seq<HeapBlock>, back: seq<HeapBlock>)
    requires Removable(bs, h)
    requires b == bs[NextOf(bs, h)].(sizePrevious := if NeedSentinel(bs, h) then 0 else bs[h].sizePrevious)
    ensures bs[NextOf(bs, h) := b] == front + [bs[h]] + gap + back && Compacted(bs, h) == front + middle + back
    ensures forall i :: 0 <= i < |gap| ==> gap[i].size == 0
    ensures forall i :: 0 <= i < |middle| ==> middle[i].size == 0
  {
    var bs1 := bs[NextOf(bs, h) := b];
    front, gap, back := bs1[..h], bs1[h + 1..Src(bs, h)], bs1[Src(bs, h)..];
    middle := if NeedSentinel(bs, h) then [CLEAR.(sizePrevious := bs[h].sizePrevious)] else [];
    GapEmpty(bs, h, gap);
  }

  /** Removing a block takes away its own pages from the counts, and no others. */
  lemma CompactedPages(kind: Kind, bs: seq<HeapBlock>, h: nat)
    requires Removable(bs, h)
    ensures Pages(kind, Compacted(bs, h)) == Pages(kind, bs) - Weight(kind, bs[h])
  {
    var b := bs[NextOf(bs, h)].(sizePrevious := if NeedSentinel(bs, h) then 0 else bs[h].sizePrevious);
    PagesUpdate(kind, bs, NextOf(bs, h), b);
    assert Weight(kind, b) == Weight(kind, bs[NextOf(bs, h)]);
    assert Pages(kind, [bs[h]]) == Weight(kind, bs[h]) by { assert [bs[h]][..0] == []; }
    hide *;
    var front, gap, middle, back := CompactedShape(bs, h, b);
    PagesZero(kind, gap);
    PagesZero(kind, middle);
    PagesZero(kind, []);
    PagesParts(kind, front, [bs[h]], gap, back);
    PagesParts(kind, front, middle, [], back);
    assert front + middle + [] == front + middle;
  }

  lemma PagesParts(kind: Kind, a: seq<HeapBlock>, b: seq<HeapBlock>, c: seq<HeapBlock>, d: seq<HeapBlock>)
    ensures Pages(kind, a + b + c + d) == Pages(kind, a) + Pages(kind, b) + Pages(kind, c) + Pages(kind, d)
  {
    hide Pages;
    PagesConcat(kind, a + b + c, d);
    PagesConcat(kind, a + b, c);
    PagesConcat(kind, a, b);
  }

  lemma GapEmpty(bs: seq<HeapBlock>, h: nat, gap: seq<HeapBlock>)
    requires Removable(bs, h) && h < Src(bs, h) <= |bs|
    requires |gap| == Src(bs, h) - h - 1
    requires forall i :: 0 <= i < |gap| ==> gap[i].size == bs[h + 1 + i].size
    ensures forall i :: 0 <= i < |gap| ==> gap[i].size == 0
  {
    assert CellOk(bs, h);
    forall i | 0 <= i < |gap| ensures gap[i].size == 0 {
      assert h + 1 + i < NextOf(bs, h) ==> bs[h + 1 + i].Empty();
    }
  }

  // ----- zero pages -----

  /** The cells known to be zero, where they have gone. */
  ghost function Shifted(bs: seq<HeapBlock>, h: nat, zeroed: set<nat>): set<nat>
    requires IsHead(bs, h) && NextOf(bs, h) < |bs|
  {
    set y: nat | y < |Compacted(bs, h)| && (y < h || y >= Dst(bs, h)) && Origin(bs, h, y) in zeroed
  }

  /** What is known of zero pages moves with the descriptors. */
  lemma CompactedZero(bs: seq<HeapBlock>, h: nat, zeroed: set<nat>)
    requires Removable(bs, h) && ZeroOk(bs, zeroed)
    ensures ZeroOk(Compacted(bs, h), Shifted(bs, h, zeroed))
  {
    var bs' := Compacted(bs, h);
    if NeedSentinel(bs, h) { AtSentinel(bs, h); }
    hide Compacted, Layout, CleanOk, Removable, Shifted;
    forall y: nat | y < |bs'| && bs'[y].free ensures CleanOk(bs', y, Shifted(bs, h, zeroed)) {
      CompactedClean(bs, h, zeroed, y);
    }
  }

  lemma CompactedClean(bs: seq<HeapBlock>, h: nat, zeroed: set<nat>, y: nat)
    requires Removable(bs, h) && ZeroOk(bs, zeroed) && y < |Compacted(bs, h)| && Compacted(bs, h)[y].free
    requires y < h || y >= Dst(bs, h)
    ensures CleanOk(Compacted(bs, h), y, Shifted(bs, h, zeroed))
  {
    var bs', x := Compacted(bs, h), Origin(bs, h, y);
    At(bs, h, x);
    assert CellOk(bs, x);
    HeadOutside(bs, h, x);
    assert CleanOk(bs, x, zeroed);
    hide Compacted, Layout, ZeroOk;
    if bs'[y].committed && !bs'[y].dirty {
      forall c | y <= c < NextOf(bs', y) ensures c in Shifted(bs, h, zeroed) {
        var d := x + (c - y);
        assert d in zeroed;
        At(bs, h, d);
      }
    }
  }

  // ----- RemoveBlock -----

  lemma RemoveReady(bs: seq<HeapBlock>, fl: Lists, h: nat)
    requires HeapOk(bs, fl) && InHand(bs, h)
    ensures h < |bs| && IsHead(bs, h) && NextOf(bs, h) == h + bs[h].size < |bs| && Removable(bs, h)
    ensures AllOutside(bs, h, fl)
  {
    NextIn(bs, h);
    ListsOutside(bs, fl, h);
  }

  /** A region behind the block has its first cell behind the gap. */
  lemma RegionBehind(bs: seq<HeapBlock>, fl: Lists, h: nat, rs: seq<Region>, g: nat, r: nat)
    requires HeapOk(bs, fl) && Removable(bs, h) && RegionsOk(bs, rs) && g < |rs| && r < |rs| && Covers(bs, h, rs[g])
    ensures r != g && !rs[r].large ==> rs[r].blockId < h || rs[r].blockId >= Src(bs, h)
  {
    if r != g && !rs[r].large {
      assert Apart(rs[r], rs[g]) by { if r < g { assert Apart(rs[r], rs[g]); } else { assert Apart(rs[g], rs[r]); } }
      var b := SurvivingCell(bs, h, rs[g], rs[r], rs[r].base);
    }
  }

  lemma CompactedIs(bs: seq<HeapBlock>, h: nat)
    requires IsHead(bs, h) && h < |bs| && NextOf(bs, h) == h + bs[h].size < |bs|
    ensures var n, sp := h + bs[h].size, bs[h].sizePrevious;
      var need, gone := sp > 0 && bs[n].size > 0, sp == 0 && bs[n].size == 0;
      var src := if gone then n + 1 else n;
      && src <= |bs| && Src(bs, h) - Dst(bs, h) == bs[h].size - (if need then 1 else if gone then -1 else 0)
      && Compacted(bs, h) == bs[n := bs[n].(sizePrevious := if need then 0 else sp)][..h]
           + (if need then [CLEAR.(sizePrevious := sp)] else [])
           + bs[n := bs[n].(sizePrevious := if need then 0 else sp)][src..]
  {
    assert bs[..h] == bs[h + bs[h].size := bs[h + bs[h].size].(sizePrevious :=
      if NeedSentinel(bs, h) then 0 else bs[h].sizePrevious)][..h];
  }

  lemma RegionsCut(bs: seq<HeapBlock>, h: nat, rs: seq<Region>, g: nat, mid: seq<Region>)
    requires IsHead(bs, h) && NextOf(bs, h) < |bs| && g < |rs| == |mid|
    requires forall k :: 0 <= k < |mid| ==> mid[k] == MovedRegion(bs, h, rs[k])
    ensures RegionsMoved(bs, h, rs, g, mid[..g] + mid[g + 1..])
  {
    hide MovedRegion;
  }

  lemma RemoveDone(bs: seq<HeapBlock>, bs': seq<HeapBlock>, fl: Lists, fl': Lists, h: nat)
    requires HeapOk(bs, fl) && Removable(bs, h) && AllOutside(bs, h, fl) && AllMoved(bs, h, fl, fl')
    requires bs' == Compacted(bs, h)
    ensures HeapOk(bs', fl')
    ensures forall kind :: Pages(kind, bs') == Pages(kind, bs) - Weight(kind, bs[h])
  {
    CompactedHeapOk(bs, fl, h, fl');
    forall kind ensures Pages(kind, bs') == Pages(kind, bs) - Weight(kind, bs[h]) {
      CompactedPages(kind, bs, h);
    }
  }
}
