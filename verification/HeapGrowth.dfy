/**
 How the regions keep up when the heap grows: newly committed pages belong to the
 newest region, to a new one, or to both, and every page still leads to its cell.
 */
module HeapGrowth {
  import opened HeapLayout
  import opened FreeLists
  import opened HeapSteps
  import opened HeapRegions
  import opened HeapExpansion
  import opened Coalescing
  import opened HeapAlloc
  import opened HeapRuns

  /** Cells `k` to `k + size` have come to stand for the pages from `base` on; the others are as they were. */
  ghost predicate MoreCells(bs: seq<HeapBlock>, bs': seq<HeapBlock>, k: nat, base: nat, size: nat) {
    forall x: nat, page: nat :: CellHolds(bs', x, page) <==> CellHolds(bs, x, page) || NewCell(k, base, size, x, page)
  }

  predicate NewCell(k: nat, base: nat, size: nat, x: nat, page: nat) {
    k <= x < k + size && page == base + (x - k)
  }

  lemma GrownCells(bs: seq<HeapBlock>, base: nat, size: nat, contiguous: bool, dirty: bool)
    requires Layout(bs) && size > 0 && (contiguous ==> |bs| > 0)
    ensures MoreCells(bs, Grown(bs, base, size, contiguous, dirty), Kept(bs, contiguous), base, size)
  {
    var bs', k := Grown(bs, base, size, contiguous, dirty), Kept(bs, contiguous);
    if |bs| > 0 { LastIsSentinel(bs); }
    forall x: nat, page: nat ensures CellHolds(bs', x, page) <==> CellHolds(bs, x, page) || NewCell(k, base, size, x, page) {
      if NewCell(k, base, size, x, page) { assert Holds(bs', k, x, page); }
      if CellHolds(bs, x, page) {
        var b: nat :| Holds(bs, b, x, page);
        assert Holds(bs', b, x, page);
      }
      if CellHolds(bs', x, page) {
        var b: nat :| Holds(bs', b, x, page);
        if b != k { assert Holds(bs, b, x, page); }
      }
    }
  }

  lemma MoreThenSame(a: seq<HeapBlock>, b: seq<HeapBlock>, c: seq<HeapBlock>, k: nat, base: nat, size: nat)
    requires MoreCells(a, b, k, base, size) && SameCells(b, c)
    ensures MoreCells(a, c, k, base, size)
  {
    hide CellHolds, NewCell;
  }

  // ----- cells and pages, one to one -----

  /** The last cell is a sentinel, and stands for no page. */
  lemma CellBelowTop(bs: seq<HeapBlock>, x: nat, page: nat)
    requires Layout(bs) && CellHolds(bs, x, page)
    ensures x + 1 < |bs|
  {
    var b: nat :| Holds(bs, b, x, page);
    assert CellOk(bs, b);
  }

  lemma OnePage(bs: seq<HeapBlock>, x: nat, page: nat, page': nat)
    requires Layout(bs) && CellHolds(bs, x, page) && CellHolds(bs, x, page')
    ensures page == page'
  {
    var b: nat :| Holds(bs, b, x, page);
    var b': nat :| Holds(bs, b', x, page');
    if b < b' { HeadsApart(bs, b, b'); }
    if b' < b { HeadsApart(bs, b', b); }
  }

  /** No page has two cells. */
  lemma OneCell(bs: seq<HeapBlock>, rs: seq<Region>, x: nat, y: nat, page: nat)
    requires RegionsOk(bs, rs) && CellHolds(bs, x, page) && CellHolds(bs, y, page)
    ensures x == y
  {
    assert Mapped(rs, x, page) && Mapped(rs, y, page);
    var i: nat :| MapsTo(rs, i, x, page);
    var j: nat :| MapsTo(rs, j, y, page);
    assert RegionOk(bs, rs[i]) && RegionOk(bs, rs[j]);
    if i != j { ApartFrom(bs, rs, i, j); }
  }

  // ----- the newest region -----

  /** A region with descriptors has one for its first page. */
  lemma RegionStart(bs: seq<HeapBlock>, rs: seq<Region>, i: nat, x: nat)
    requires RegionsLead(bs, rs) && i < |rs| && !rs[i].large
    requires rs[i].blockId <= x < rs[i].blockId + (rs[i].commitTop - rs[i].base)
    ensures CellHolds(bs, x, rs[i].base + (x - rs[i].blockId))
  {
    assert RegionOk(bs, rs[i]);
    assert PageOk(bs, rs[i], rs[i].base + (x - rs[i].blockId));
  }

  /** The descriptors of the newest region are the last ones, so the pages it has left adjoin the last block. */
  lemma TopRegion(bs: seq<HeapBlock>, rs: seq<Region>)
    requires Layout(bs) && RegionsOk(bs, rs) && |rs| > 0 && !rs[0].large
    ensures |bs| > 0 && rs[0].base < rs[0].commitTop && Adjoins(bs, rs[0].commitTop)
    ensures rs[0].blockId + (rs[0].commitTop - rs[0].base) == |bs| - 1
  {
    assert RegionOk(bs, rs[0]);
    RegionStart(bs, rs, 0, rs[0].blockId);
    CellBelowTop(bs, rs[0].blockId, rs[0].base);
    LastIsSentinel(bs);
    var l := |bs| - 1 - bs[|bs| - 1].sizePrevious;
    var x, page := |bs| - 2, bs[l].page + bs[l].size - 1;
    assert Holds(bs, l, x, page);
    assert Mapped(rs, x, page);
    var i: nat :| MapsTo(rs, i, x, page);
    if i != 0 {
      assert rs[0].blockId > rs[i].blockId;
      RegionStart(bs, rs, i, rs[0].blockId);
      ApartFrom(bs, rs, 0, i);
      OnePage(bs, rs[0].blockId, rs[0].base, rs[i].base + (rs[0].blockId - rs[i].blockId));
      assert false;
    }
    if page + 1 < rs[0].commitTop {
      RegionStart(bs, rs, 0, x + 1);
      CellBelowTop(bs, x + 1, rs[0].base + (x + 1 - rs[0].blockId));
      assert false;
    }
  }

  /** Where the regions with descriptors begin is well inside the array. */
  lemma BlockIdBelow(bs: seq<HeapBlock>, rs: seq<Region>, i: nat)
    requires Layout(bs) && RegionsLead(bs, rs) && i < |rs| && !rs[i].large
    ensures rs[i].blockId + 1 < |bs|
  {
    assert RegionOk(bs, rs[i]);
    RegionStart(bs, rs, i, rs[i].blockId);
    CellBelowTop(bs, rs[i].blockId, rs[i].base);
  }

  // ----- growth -----

  /** The newest region with more of its pages committed. */
  function Extended(rs: seq<Region>, avail: nat): (rs': seq<Region>)
    requires |rs| > 0
    ensures |rs'| == |rs| && forall i :: 0 < i < |rs| ==> rs'[i] == rs[i]
  {
    rs[0 := rs[0].(commitTop := rs[0].commitTop + avail)]
  }

  lemma LeadExtended(bs: seq<HeapBlock>, bs': seq<HeapBlock>, rs: seq<Region>, k: nat, base: nat, size: nat, avail: nat)
    requires RegionsLead(bs, rs) && |rs| > 0 && MoreCells(bs, bs', k, base, size) && avail <= size
    requires base == rs[0].commitTop && rs[0].commitTop + avail <= rs[0].reserveTop
    requires !rs[0].large ==> k == rs[0].blockId + (rs[0].commitTop - rs[0].base)
    ensures RegionsLead(bs', Extended(rs, avail))
  {
    var rs' := Extended(rs, avail);
    forall i | 0 <= i < |rs'| ensures RegionOk(bs', rs'[i]) {
      assert RegionOk(bs, rs[i]);
      if !rs[i].large {
        forall page: nat ensures PageOk(bs', rs'[i], page) {
          assert PageOk(bs, rs[i], page);
          var x: int := rs'[i].blockId + (page - rs[i].base);
          if rs[i].base <= page < rs'[i].commitTop {
            assert CellHolds(bs, x, page) || NewCell(k, base, size, x, page);
          }
        }
      }
    }
    hide RegionOk, MoreCells;
    forall i, j | 0 <= i < j < |rs'|
      ensures Apart(rs'[i], rs'[j]) && (!rs'[i].large && !rs'[j].large ==> rs'[i].blockId > rs'[j].blockId)
    {
      assert Apart(rs[i], rs[j]);
    }
    RegionsLeadIs(bs', rs');
  }

  /** No region has any of the pages from `base` up to `top`. */
  predicate FreeRange(rs: seq<Region>, base: nat, top: nat) {
    forall i :: 0 <= i < |rs| ==> rs[i].reserveTop <= base || top <= rs[i].base
  }

  lemma LeadSame(bs: seq<HeapBlock>, bs': seq<HeapBlock>, rs: seq<Region>, k: nat, base: nat, size: nat)
    requires RegionsLead(bs, rs) && MoreCells(bs, bs', k, base, size)
    ensures RegionsLead(bs', rs)
  {
    forall i | 0 <= i < |rs| ensures RegionOk(bs', rs[i]) {
      assert RegionOk(bs, rs[i]);
      if !rs[i].large {
        forall page: nat ensures PageOk(bs', rs[i], page) { assert PageOk(bs, rs[i], page); }
      }
    }
  }

  /** A new region for pages that have cells from `blockId` on. */
  lemma LeadNew(bs: seq<HeapBlock>, rs: seq<Region>, r: Region)
    requires RegionsLead(bs, rs) && !r.large && r.base < r.commitTop <= r.reserveTop
    requires forall page: nat :: PageOk(bs, r, page)
    requires FreeRange(rs, r.base, r.reserveTop)
    requires forall i :: 0 <= i < |rs| && !rs[i].large ==> rs[i].blockId < r.blockId
    ensures RegionsLead(bs, [r] + rs)
  {
    var rs' := [r] + rs;
    forall i | 0 <= i < |rs'| ensures RegionOk(bs, rs'[i]) {
      if i > 0 { assert RegionOk(bs, rs[i - 1]); }
    }
    hide RegionOk, CellHolds;
    forall i, j | 0 <= i < j < |rs'|
      ensures Apart(rs'[i], rs'[j]) && (!rs'[i].large && !rs'[j].large ==> rs'[i].blockId > rs'[j].blockId)
    {
      if i > 0 { assert Apart(rs[i - 1], rs[j - 1]); }
    }
    RegionsLeadIs(bs, rs');
  }

  /** A region for a large allocation: it has no descriptors. */
  lemma LeadLarge(bs: seq<HeapBlock>, rs: seq<Region>, r: Region)
    requires RegionsOk(bs, rs) && r.large && r.base < r.commitTop <= r.reserveTop && FreeRange(rs, r.base, r.reserveTop)
    ensures RegionsOk(bs, [r] + rs)
  {
    var rs' := [r] + rs;
    forall i | 0 <= i < |rs'| ensures RegionOk(bs, rs'[i]) {
      if i > 0 { assert RegionOk(bs, rs[i - 1]); }
    }
    forall i, j | 0 <= i < j < |rs'|
      ensures Apart(rs'[i], rs'[j]) && (!rs'[i].large && !rs'[j].large ==> rs'[i].blockId > rs'[j].blockId)
    {
      if i > 0 { assert Apart(rs[i - 1], rs[j - 1]); }
    }
    RegionsLeadIs(bs, rs');
    forall x: nat, page: nat | CellHolds(bs, x, page) ensures Mapped(rs', x, page) {
      assert Mapped(rs, x, page);
      var i: nat :| MapsTo(rs, i, x, page);
      assert MapsTo(rs', i + 1, x, page);
    }
  }

  lemma LargeGone(bs: seq<HeapBlock>, rs: seq<Region>, g: nat)
    requires RegionsOk(bs, rs) && g < |rs| && rs[g].large
    ensures RegionsOk(bs, rs[..g] + rs[g + 1..])
  {
    var rs' := rs[..g] + rs[g + 1..];
    forall i | 0 <= i < |rs'| ensures RegionOk(bs, rs'[i]) {
      assert rs'[i] == rs[if i < g then i else i + 1];
    }
    forall i, j | 0 <= i < j < |rs'|
      ensures Apart(rs'[i], rs'[j]) && (!rs'[i].large && !rs'[j].large ==> rs'[i].blockId > rs'[j].blockId)
    {
      assert Apart(rs[if i < g then i else i + 1], rs[if j < g then j else j + 1]);
    }
    RegionsLeadIs(bs, rs');
    forall x: nat, page: nat | CellHolds(bs, x, page) ensures Mapped(rs', x, page) {
      assert Mapped(rs, x, page);
      var i: nat :| MapsTo(rs, i, x, page);
      assert MapsTo(rs', if i < g then i else i - 1, x, page);
    }
  }

  // ----- all of a growth -----

  /**
   The memory that a growth of `size` pages was granted: `avail` pages of the newest region, and a
   new region of `reserve`.
   */
  datatype Memory = NoMemory | Memory(base: nat, contiguous: bool, avail: nat, reserve: nat)

  /** What the system may grant, in view of the regions there are. */
  ghost predicate Granted(bs: seq<HeapBlock>, rs: seq<Region>, size: nat, m: Memory) {
    m.Memory? ==>
      && m.base > 0 && m.avail <= size && (m.contiguous ==> |bs| > 0 && Adjoins(bs, m.base))
      && (m.avail > 0 ==> |rs| > 0 && m.base == rs[0].commitTop && rs[0].commitTop + m.avail <= rs[0].reserveTop
                          && (|bs| > 0 && Adjoins(bs, m.base) ==> m.contiguous))
      && (if m.reserve == 0 then m.avail == size else m.reserve >= size - m.avail > 0)
      && (m.reserve > 0 ==> FreeRange(rs, m.base + m.avail, m.base + m.avail + m.reserve))
  }

  /** The regions once the memory is part of the heap. */
  function WithMemory(rs: seq<Region>, size: nat, m: Memory, k: nat): seq<Region>
    requires m.Memory? && (m.avail > 0 ==> |rs| > 0) && m.avail <= size
  {
    var rs1 := if m.avail > 0 then Extended(rs, m.avail) else rs;
    if m.reserve == 0 then rs1
    else [Region(m.base + m.avail, m.base + size, m.base + m.avail + m.reserve, k + m.avail, false)] + rs1
  }

  /** Pages are taken from what a large allocation has left over. */
  predicate TakesTail(rs: seq<Region>, m: Memory) {
    m.Memory? && m.avail > 0 && |rs| > 0 && rs[0].large
  }

  lemma WithMemoryLeads(bs: seq<HeapBlock>, bs': seq<HeapBlock>, rs: seq<Region>, size: nat, m: Memory)
    requires Layout(bs) && RegionsOk(bs, rs) && m.Memory? && Granted(bs, rs, size, m)
    requires MoreCells(bs, bs', Kept(bs, m.contiguous), m.base, size)
    ensures RegionsLead(bs', WithMemory(rs, size, m, Kept(bs, m.contiguous)))
  {
    var k := Kept(bs, m.contiguous);
    if m.avail > 0 {
      if !rs[0].large { TopRegion(bs, rs); }
      hide Layout, RegionsLead, Covered, MoreCells, FreeRange;
      LeadExtended(bs, bs', rs, k, m.base, size, m.avail);
    } else {
      LeadSame(bs, bs', rs, k, m.base, size);
    }
    hide Layout, RegionsLead, Covered, MoreCells, FreeRange;
    if m.reserve > 0 { NewRegionLeads(bs, bs', rs, size, m); }
  }

  /** The new region leads to its pages, and is apart from the others. */
  lemma NewRegionLeads(bs: seq<HeapBlock>, bs': seq<HeapBlock>, rs: seq<Region>, size: nat, m: Memory)
    requires Layout(bs) && RegionsLead(bs, rs) && m.Memory? && Granted(bs, rs, size, m) && m.reserve > 0
    requires MoreCells(bs, bs', Kept(bs, m.contiguous), m.base, size)
    requires RegionsLead(bs', if m.avail > 0 then Extended(rs, m.avail) else rs)
    ensures RegionsLead(bs', WithMemory(rs, size, m, Kept(bs, m.contiguous)))
  {
    hide Layout, RegionsLead, MoreCells, CellHolds, Adjoins, FreeRange, PageOk;
    var k := Kept(bs, m.contiguous);
    var rs1 := if m.avail > 0 then Extended(rs, m.avail) else rs;
    var r := Region(m.base + m.avail, m.base + size, m.base + m.avail + m.reserve, k + m.avail, false);
    NewPagesOk(bs, bs', k, m.base, size, r);
    ApartFromNew(bs, rs, m.avail, k, r);
    hide *;
    LeadNew(bs', rs1, r);
  }

  /** The new region's pages and cells are nobody else's. */
  lemma ApartFromNew(bs: seq<HeapBlock>, rs: seq<Region>, avail: nat, k: nat, r: Region)
    requires Layout(bs) && RegionsLead(bs, rs) && (avail > 0 ==> |rs| > 0) && |bs| <= k + 1 && k <= r.blockId
    requires FreeRange(rs, r.base, r.reserveTop)
    ensures var rs1 := if avail > 0 then Extended(rs, avail) else rs;
      FreeRange(rs1, r.base, r.reserveTop) && forall i :: 0 <= i < |rs1| && !rs1[i].large ==> rs1[i].blockId < r.blockId
  {
    hide Layout, RegionsLead;
    var rs1 := if avail > 0 then Extended(rs, avail) else rs;
    forall i | 0 <= i < |rs1|
      ensures (rs1[i].reserveTop <= r.base || r.reserveTop <= rs1[i].base)
      ensures (!rs1[i].large ==> rs1[i].blockId < r.blockId)
    {
      assert rs1[i] == rs[i] || rs1[i] == rs[i].(commitTop := rs[i].commitTop + avail);
      if !rs[i].large { BlockIdBelow(bs, rs, i); }
    }
  }

  lemma NewPagesOk(bs: seq<HeapBlock>, bs': seq<HeapBlock>, k: nat, base: nat, size: nat, r: Region)
    requires MoreCells(bs, bs', k, base, size) && base <= r.base && r.commitTop <= base + size
    requires r.blockId == k + (r.base - base)
    ensures forall page: nat :: PageOk(bs', r, page)
  {
    hide CellHolds;
    forall page: nat ensures PageOk(bs', r, page) {
      if r.base <= page < r.commitTop { assert NewCell(k, base, size, r.blockId + (page - r.base), page); }
    }
  }

  /** Every page of the larger heap leads to its cell, unless some are pages of a large allocation's region. */
  lemma WithMemoryCovers(bs: seq<HeapBlock>, bs': seq<HeapBlock>, rs: seq<Region>, size: nat, m: Memory)
    requires Layout(bs) && RegionsOk(bs, rs) && m.Memory? && Granted(bs, rs, size, m) && !TakesTail(rs, m)
    requires MoreCells(bs, bs', Kept(bs, m.contiguous), m.base, size)
    ensures Covered(bs', WithMemory(rs, size, m, Kept(bs, m.contiguous)))
  {
    var k := Kept(bs, m.contiguous);
    var rs' := WithMemory(rs, size, m, k);
    if m.avail > 0 { TopRegion(bs, rs); }
    WithMemoryMaps(bs, rs, size, m);
    hide Layout, RegionsLead, Granted, WithMemory, TakesTail, CellHolds, MapsTo;
    forall x: nat, page: nat | CellHolds(bs', x, page) ensures Mapped(rs', x, page) {
      if CellHolds(bs, x, page) {
        assert Mapped(rs, x, page);
        var i: nat :| MapsTo(rs, i, x, page);
        assert MapsTo(rs', i + (if m.reserve == 0 then 0 else 1), x, page);
      } else {
        assert NewCell(k, m.base, size, x, page);
        assert MapsTo(rs', if page < m.base + m.avail && m.reserve > 0 then 1 else 0, x, page);
      }
    }
  }

  /** Where the regions lead after a growth. */
  lemma WithMemoryMaps(bs: seq<HeapBlock>, rs: seq<Region>, size: nat, m: Memory)
    requires m.Memory? && Granted(bs, rs, size, m) && !TakesTail(rs, m)
    requires m.avail > 0 ==>
      |bs| > 0 && rs[0].base < rs[0].commitTop && Adjoins(bs, rs[0].commitTop) && rs[0].blockId + (rs[0].commitTop - rs[0].base) == |bs| - 1
    ensures var k := Kept(bs, m.contiguous); var rs' := WithMemory(rs, size, m, k);
      && (forall i: nat, x: nat, page: nat :: MapsTo(rs, i, x, page) ==> MapsTo(rs', i + (if m.reserve == 0 then 0 else 1), x, page))
      && (forall x: nat, page: nat :: NewCell(k, m.base, size, x, page) ==>
            MapsTo(rs', if page < m.base + m.avail && m.reserve > 0 then 1 else 0, x, page))
  {
    var k := Kept(bs, m.contiguous);
    var rs' := WithMemory(rs, size, m, k);
    var d := if m.reserve == 0 then 0 else 1;
    hide Adjoins;
    forall x: nat, page: nat | NewCell(k, m.base, size, x, page)
      ensures MapsTo(rs', if page < m.base + m.avail && m.reserve > 0 then 1 else 0, x, page)
    {
      NewCellMaps(bs, rs, size, m, x, page);
    }
    forall i: nat, x: nat, page: nat | MapsTo(rs, i, x, page) ensures MapsTo(rs', i + d, x, page) {
    }
  }

  lemma NewCellMaps(bs: seq<HeapBlock>, rs: seq<Region>, size: nat, m: Memory, x: nat, page: nat)
    requires m.Memory? && Granted(bs, rs, size, m) && !TakesTail(rs, m)
    requires m.avail > 0 ==>
      |bs| > 0 && rs[0].base < rs[0].commitTop && Adjoins(bs, rs[0].commitTop) && rs[0].blockId + (rs[0].commitTop - rs[0].base) == |bs| - 1
    requires NewCell(Kept(bs, m.contiguous), m.base, size, x, page)
    ensures MapsTo(WithMemory(rs, size, m, Kept(bs, m.contiguous)), if page < m.base + m.avail && m.reserve > 0 then 1 else 0, x, page)
  {
    hide Adjoins, FreeRange;
  }

  /** ... and if they are, those pages lead nowhere. */
  lemma TailLeadsNowhere(bs: seq<HeapBlock>, bs': seq<HeapBlock>, rs: seq<Region>, size: nat, m: Memory)
    requires Layout(bs) && RegionsOk(bs, rs) && m.Memory? && Granted(bs, rs, size, m) && TakesTail(rs, m) && size > 0
    requires MoreCells(bs, bs', Kept(bs, m.contiguous), m.base, size)
    ensures !Covered(bs', WithMemory(rs, size, m, Kept(bs, m.contiguous)))
  {
    var k := Kept(bs, m.contiguous);
    var rs' := WithMemory(rs, size, m, k);
    var d := if m.reserve == 0 then 0 else 1;
    WithMemoryLeads(bs, bs', rs, size, m);
    assert NewCell(k, m.base, size, k, m.base) && CellHolds(bs', k, m.base);
    assert RegionOk(bs, rs[0]) && rs'[d].large && rs'[d].base < m.base < rs'[d].reserveTop;
    forall i: nat ensures !MapsTo(rs', i, k, m.base) {
      if MapsTo(rs', i, k, m.base) {
        assert RegionOk(bs', rs'[i]);
        ApartFrom(bs', rs', i, d);
      }
    }
    assert !Mapped(rs', k, m.base);
  }

  // ----- how many pages the regions hold -----

  function CommittedPages(r: Region): int {
    if r.large then 0 else r.commitTop - r.base
  }

  /** The committed pages of all regions that have descriptors. */
  function RegionPages(rs: seq<Region>): int {
    if rs == [] then 0 else CommittedPages(rs[0]) + RegionPages(rs[1..])
  }

  lemma {:induction false} RegionPagesSame(rs: seq<Region>, rs': seq<Region>)
    requires |rs'| == |rs| && forall i :: 0 <= i < |rs| ==> CommittedPages(rs'[i]) == CommittedPages(rs[i])
    ensures RegionPages(rs') == RegionPages(rs)
    decreases |rs|
  {
    if rs != [] { RegionPagesSame(rs[1..], rs'[1..]); }
  }

  lemma {:induction false} RegionPagesCut(rs: seq<Region>, g: nat)
    requires g < |rs|
    ensures RegionPages(rs[..g] + rs[g + 1..]) == RegionPages(rs) - CommittedPages(rs[g])
    decreases g
  {
    var cut := rs[..g] + rs[g + 1..];
    if g == 0 {
      assert cut == rs[1..];
    } else {
      assert cut[1..] == rs[1..][..g - 1] + rs[1..][g..];
      RegionPagesCut(rs[1..], g - 1);
    }
  }

  lemma SamePagesMoved(bs: seq<HeapBlock>, h: nat, r: Region)
    requires IsHead(bs, h) && NextOf(bs, h) < |bs|
    ensures CommittedPages(MovedRegion(bs, h, r)) == CommittedPages(r)
  {
  }

  /** RemoveBlock takes away the pages of the region that goes. */
  lemma RegionPagesMoved(bs: seq<HeapBlock>, h: nat, rs: seq<Region>, g: nat, rs': seq<Region>)
    requires IsHead(bs, h) && NextOf(bs, h) < |bs| && g < |rs| && RegionsMoved(bs, h, rs, g, rs')
    ensures RegionPages(rs') == RegionPages(rs) - CommittedPages(rs[g])
  {
    hide RegionPages, Src, Dst, MovedRegion;
    RegionPagesCut(rs, g);
    var cut := rs[..g] + rs[g + 1..];
    forall i | 0 <= i < |cut| ensures CommittedPages(rs'[i]) == CommittedPages(cut[i]) {
      assert rs'[i] == MovedRegion(bs, h, cut[i]);
      SamePagesMoved(bs, h, cut[i]);
    }
    RegionPagesSame(cut, rs');
  }

  /** ... and expansion adds the pages that were asked for. */
  lemma WithMemoryPages(rs: seq<Region>, size: nat, m: Memory, k: nat)
    requires m.Memory? && (m.avail > 0 ==> |rs| > 0) && m.avail <= size && !TakesTail(rs, m)
    requires m.reserve == 0 ==> m.avail == size
    ensures RegionPages(WithMemory(rs, size, m, k)) == RegionPages(rs) + size
  {
    var rs1 := if m.avail > 0 then Extended(rs, m.avail) else rs;
    if m.avail > 0 {
      assert rs1[1..] == rs[1..];
    }
    if m.reserve > 0 {
      assert WithMemory(rs, size, m, k)[1..] == rs1;
    }
  }

  // ----- new memory, while it is being divided -----

  /**
   Cells `k` to `k + size` stand for new memory from `base` on.  It is divided into the
   blocks `hs`, all in hand; `h` is the last of them.  No block in use before has changed.
   */
  ghost predicate Building(bs: seq<HeapBlock>, bs': seq<HeapBlock>, k: nat, base: nat, size: nat, h: nat,
                           hs: set<nat>) {
    && h < |bs'| == k + size + 1 && InHand(bs', h) && h in hs && Hands(bs) !! hs && Hands(bs') == Hands(bs) + hs
    && Grew(bs, bs', {}) && MoreCells(bs, bs', k, base, size) && UsersCommitted(bs')
    && Pages(Used, bs') == Pages(Used, bs) + size && Pages(All, bs') == Pages(All, bs) + size
    && Pages(Decommitted, bs') == Pages(Decommitted, bs)
    && forall j: nat :: Serves(bs, j) ==> Serves(bs', j)
  }

  lemma BuildingStart(bs: seq<HeapBlock>, fl: Lists, base: nat, size: nat, contiguous: bool, dirty: bool)
    requires HeapOk(bs, fl) && size > 0 && base > 0 && (contiguous ==> |bs| > 0 && Adjoins(bs, base))
    requires UsersCommitted(bs)
    ensures var bs', k := Grown(bs, base, size, contiguous, dirty), Kept(bs, contiguous);
      && HeapOk(bs', fl) && Building(bs, bs', k, base, size, k, {k})
      && k < |bs'| && bs'[k].page == base && bs'[k].size == size && bs'[k].dirty == dirty && InHand(bs', k)
  {
    ExpandStart(bs, fl, base, size, contiguous, dirty);
    HeapLaidOut(bs, fl);
    GrownCells(bs, base, size, contiguous, dirty);
    hide HeapOk, Layout, Hands, Grew, MoreCells, UsersCommitted, Pages, Serves;
  }

  lemma BuildingCarve(bs: seq<HeapBlock>, b1: seq<HeapBlock>, fl: Lists, k: nat, base: nat, size: nat, h: nat,
                      hs: set<nat>, n: nat, zeroed: set<nat>)
    requires HeapOk(b1, fl) && Building(bs, b1, k, base, size, h, hs) && 0 < n < b1[h].size
    ensures IsHead(b1, h) && NextOf(b1, h) < |b1| && h + n < |b1|
    ensures var b2 := Split(b1, h, n);
      && HeapOk(b2, fl) && Building(bs, b2, k, base, size, h + n, hs + {h + n}) && h + n !in hs
      && InHand(b2, h) && b2[h].size == n && b2[h].page == b1[h].page
      && InHand(b2, h + n) && b2[h + n].size == b1[h].size - n && b2[h + n].dirty == b1[h].dirty
      && (forall y: nat :: y != h && InHand(b1, y) ==>
            y < |b2| && InHand(b2, y) && b2[y].size == b1[y].size && b2[y].page == b1[y].page)
      && (ZeroOk(b1, zeroed) ==> ZeroOk(b2, zeroed))
  {
    Carve(bs, b1, fl, h, n, zeroed);
    var b2 := Split(b1, h, n);
    hide Split, HeapOk, Grew, SameCells, UsersCommitted, Pages, Serves, ZeroOk;
    MoreThenSame(bs, b1, b2, k, base, size) by { hide MoreCells; }
    hide MoreCells;
    SplitFacts(b1, fl, h, n, zeroed);
    hide Hands;
  }

  lemma BuildingParts(bs: seq<HeapBlock>, bs': seq<HeapBlock>, k: nat, base: nat, size: nat, h: nat, hs: set<nat>)
    requires Building(bs, bs', k, base, size, h, hs)
    ensures h < |bs'| == k + size + 1 && InHand(bs', h) && h in hs && Hands(bs) !! hs && Hands(bs') == Hands(bs) + hs
    ensures h !in Hands(bs) && Hands(bs) <= Hands(bs')
    ensures Grew(bs, bs', {}) && MoreCells(bs, bs', k, base, size) && UsersCommitted(bs')
    ensures Pages(Used, bs') == Pages(Used, bs) + size && Pages(All, bs') == Pages(All, bs) + size
    ensures Pages(Decommitted, bs') == Pages(Decommitted, bs)
    ensures forall j: nat :: Serves(bs, j) ==> Serves(bs', j)
  {
    hide Grew, MoreCells, UsersCommitted, Pages, Serves, Hands, InHand;
  }

  /** A block that was in use is still there. */
  lemma BuildingKeeps(bs: seq<HeapBlock>, bs': seq<HeapBlock>, k: nat, base: nat, size: nat, h: nat, hs: set<nat>,
                      y: nat)
    requires Building(bs, bs', k, base, size, h, hs) && InHand(bs, y)
    ensures y in Hands(bs) && y < |bs'| && InHand(bs', y) && bs'[y].size == bs[y].size && bs'[y].page == bs[y].page
  {
    hide MoreCells, UsersCommitted, Pages, Serves;
  }
}
