/**
 The descriptor array of MMgc's page heap: boundary tags, sentinels, and the two
 ways a block changes shape, splitting and merging.
 */
module HeapLayout {

  /**
   One descriptor.  `page` is the base address in pages, 0 for NULL; `free` says
   that the descriptor is linked into a free list (its `prev` is not NULL).
   */
  datatype HeapBlock = HeapBlock(page: nat, size: nat, sizePrevious: nat, free: bool, committed: bool, dirty: bool) {
    predicate InUse() { !free }
    predicate Empty() { size == 0 && sizePrevious == 0 && page == 0 && !free }
    predicate Sentinel() { size == 0 && sizePrevious > 0 }
  }

  const MIN_HEAP_INCREMENT: nat := 32

  function Least(a: int, b: int): int {
    if a < b then a else b
  }

  function Most(a: int, b: int): int {
    if a > b then a else b
  }

  const CLEAR := HeapBlock(0, 0, 0, false, false, false)

  // ----- the layout invariant, cell by cell -----

  /** A block is followed by its empty interior and then by a descriptor that knows its size. */
  ghost predicate HeadOk(bs: seq<HeapBlock>, i: nat)
    requires i < |bs|
  {
    bs[i].size > 0 ==>
      && i + bs[i].size < |bs|
      && bs[i + bs[i].size].sizePrevious == bs[i].size
      && bs[i].page > 0
      && forall j :: i < j < i + bs[i].size ==> bs[j].Empty()
  }

  /** sizePrevious is the size of the block before, and the addresses are contiguous. */
  ghost predicate BackOk(bs: seq<HeapBlock>, i: nat)
    requires i < |bs|
  {
    bs[i].sizePrevious > 0 ==>
      && bs[i].sizePrevious <= i
      && bs[i - bs[i].sizePrevious].size == bs[i].sizePrevious
      && (bs[i].size > 0 ==> bs[i].page == bs[i - bs[i].sizePrevious].page + bs[i].sizePrevious)
  }

  /** Sentinels end a region; what follows, if anything, starts another one. */
  ghost predicate EdgeOk(bs: seq<HeapBlock>, i: nat)
    requires i < |bs|
  {
    && (bs[i].Sentinel() ==>
          bs[i].page == 0 && (i + 1 < |bs| ==> bs[i + 1].size > 0 && bs[i + 1].sizePrevious == 0))
    && (bs[i].size > 0 && bs[i].sizePrevious == 0 && i > 0 ==> bs[i - 1].Sentinel())
    && (bs[i].free ==> bs[i].size > 0)
  }

  ghost predicate CellOk(bs: seq<HeapBlock>, i: nat)
    requires i < |bs|
  {
    HeadOk(bs, i) && BackOk(bs, i) && EdgeOk(bs, i)
  }

  ghost predicate Layout(bs: seq<HeapBlock>) {
    && (forall i: nat :: i < |bs| ==> CellOk(bs, i))
    && (|bs| > 0 ==> bs[0].size > 0 && bs[0].sizePrevious == 0)
  }

  predicate IsHead(bs: seq<HeapBlock>, i: nat) {
    i < |bs| && bs[i].size > 0
  }

  /** Blocks do not overlap. */
  lemma HeadsApart(bs: seq<HeapBlock>, i: nat, j: nat)
    requires Layout(bs) && IsHead(bs, i) && IsHead(bs, j) && i < j
    ensures i + bs[i].size <= j
  {
    assert CellOk(bs, i);
    assert bs[j].Empty() || i + bs[i].size <= j;
  }

  /** The descriptor after a block's last page. */
  function NextOf(bs: seq<HeapBlock>, i: nat): nat
    requires i < |bs|
  {
    i + bs[i].size
  }

  /** Nothing but the cells lo..hi, and the back tag of cell hi, differs. */
  ghost predicate OnlyWithin(bs: seq<HeapBlock>, bs': seq<HeapBlock>, lo: nat, hi: nat) {
    && |bs'| == |bs|
    && (forall i :: 0 <= i < |bs| && (i < lo || i > hi) ==> bs'[i] == bs[i])
    && (hi < |bs| ==> bs'[hi] == bs[hi].(sizePrevious := bs'[hi].sizePrevious))
  }

  // ----- splitting -----

  /** Split: the first `k` pages stay in block `h`; the rest becomes a block of its own, in use. */
  function Split(bs: seq<HeapBlock>, h: nat, k: nat): (bs': seq<HeapBlock>)
    requires IsHead(bs, h) && 0 < k < bs[h].size && NextOf(bs, h) < |bs|
    ensures |bs'| == |bs|
  {
    var b := bs[h];
    var rest := HeapBlock(b.page + k, b.size - k, k, false, b.committed, b.dirty);
    bs[h + k := rest]
      [h := b.(size := k)]
      [h + b.size := bs[h + b.size].(sizePrevious := b.size - k)]
  }

  /** The block before a descriptor lies wholly on one side of block `h`. */
  lemma PredecessorOutside(bs: seq<HeapBlock>, h: nat, i: nat)
    requires Layout(bs) && IsHead(bs, h) && i < |bs| && bs[i].sizePrevious > 0 && i != NextOf(bs, h)
    ensures bs[i].sizePrevious <= i
    ensures i - bs[i].sizePrevious < h || i - bs[i].sizePrevious >= NextOf(bs, h)
  {
    assert CellOk(bs, h) && CellOk(bs, i);
    var p := i - bs[i].sizePrevious;
    var empty := bs[p].Empty();
  }

  /** A descriptor that is not empty lies outside the interior of block `h`. */
  lemma BoundaryOutside(bs: seq<HeapBlock>, h: nat, i: nat)
    requires Layout(bs) && IsHead(bs, h) && i < |bs| && (bs[i].size > 0 || bs[i].sizePrevious > 0)
    ensures i <= h || i >= NextOf(bs, h)
  {
    assert CellOk(bs, h);
    var empty := bs[i].Empty();
  }

  lemma SplitLayout(bs: seq<HeapBlock>, h: nat, k: nat)
    requires Layout(bs) && IsHead(bs, h) && 0 < k < bs[h].size
    ensures NextOf(bs, h) < |bs|
    ensures Layout(Split(bs, h, k)) && OnlyWithin(bs, Split(bs, h, k), h, NextOf(bs, h))
  {
    assert CellOk(bs, h);
    var bs' := Split(bs, h, k);
    forall i: nat | i < |bs'| ensures CellOk(bs', i) {
      SplitHead(bs, h, k, i);
      SplitBack(bs, h, k, i);
      SplitEdge(bs, h, k, i);
    }
  }

  lemma SplitHead(bs: seq<HeapBlock>, h: nat, k: nat, i: nat)
    requires Layout(bs) && IsHead(bs, h) && 0 < k < bs[h].size && NextOf(bs, h) < |bs| && i < |bs|
    ensures HeadOk(Split(bs, h, k), i)
  {
    var bs' := Split(bs, h, k);
    assert CellOk(bs, h) && CellOk(bs, i);
    if bs'[i].size > 0 && i != h && i != h + k {
      if i < h { HeadsApart(bs, i, h); } else { BoundaryOutside(bs, h, i); }
    }
  }

  lemma SplitBack(bs: seq<HeapBlock>, h: nat, k: nat, i: nat)
    requires Layout(bs) && IsHead(bs, h) && 0 < k < bs[h].size && NextOf(bs, h) < |bs| && i < |bs|
    ensures BackOk(Split(bs, h, k), i)
  {
    var bs' := Split(bs, h, k);
    assert CellOk(bs, h) && CellOk(bs, i);
    if bs'[i].sizePrevious > 0 && i != h + k && i != NextOf(bs, h) {
      PredecessorOutside(bs, h, i);
    }
  }

  lemma SplitEdge(bs: seq<HeapBlock>, h: nat, k: nat, i: nat)
    requires Layout(bs) && IsHead(bs, h) && 0 < k < bs[h].size && NextOf(bs, h) < |bs| && i < |bs|
    ensures EdgeOk(Split(bs, h, k), i)
  {
    var bs' := Split(bs, h, k);
    var n := NextOf(bs, h);
    assert CellOk(bs, h) && CellOk(bs, i) && CellOk(bs, n);
    if i + 1 < |bs| { assert CellOk(bs, i + 1); }
    if bs[i].Sentinel() { BoundaryOutside(bs, h, i); }
    if bs[i].size > 0 { BoundaryOutside(bs, h, i); }
  }

  // ----- merging -----

  /** Coalesce block `h` with the block after it; the latter's descriptor becomes interior. */
  function Merge(bs: seq<HeapBlock>, h: nat): (bs': seq<HeapBlock>)
    requires IsHead(bs, h) && IsHead(bs, NextOf(bs, h)) && NextOf(bs, NextOf(bs, h)) < |bs|
    ensures |bs'| == |bs|
  {
    var n := NextOf(bs, h);
    var m := NextOf(bs, n);
    var total := bs[h].size + bs[n].size;
    bs[h := bs[h].(size := total)]
      [n := bs[n].(size := 0, sizePrevious := 0, page := 0)]
      [m := bs[m].(sizePrevious := total)]
  }

  lemma NextIn(bs: seq<HeapBlock>, h: nat)
    requires Layout(bs) && IsHead(bs, h)
    ensures NextOf(bs, h) < |bs| && bs[NextOf(bs, h)].sizePrevious == bs[h].size
    ensures IsHead(bs, NextOf(bs, h)) ==> bs[NextOf(bs, h)].page == bs[h].page + bs[h].size
    ensures !IsHead(bs, NextOf(bs, h)) ==> bs[NextOf(bs, h)].Sentinel() && !bs[NextOf(bs, h)].free
  {
    assert CellOk(bs, h) && CellOk(bs, NextOf(bs, h));
  }

  lemma PrevIn(bs: seq<HeapBlock>, h: nat)
    requires Layout(bs) && h < |bs| && bs[h].sizePrevious > 0
    ensures bs[h].sizePrevious <= h
    ensures IsHead(bs, h - bs[h].sizePrevious) && NextOf(bs, h - bs[h].sizePrevious) == h
  {
    assert CellOk(bs, h);
  }

  lemma MergeLayout(bs: seq<HeapBlock>, h: nat)
    requires Layout(bs) && IsHead(bs, h) && IsHead(bs, NextOf(bs, h)) && !bs[NextOf(bs, h)].free
    ensures NextOf(bs, NextOf(bs, h)) < |bs|
    ensures Layout(Merge(bs, h)) && OnlyWithin(bs, Merge(bs, h), h, NextOf(bs, NextOf(bs, h)))
  {
    NextIn(bs, h);
    NextIn(bs, NextOf(bs, h));
    var bs' := Merge(bs, h);
    forall i: nat | i < |bs'| ensures CellOk(bs', i) {
      MergeHead(bs, h, i);
      MergeBack(bs, h, i);
      MergeEdge(bs, h, i);
    }
  }

  ghost predicate Mergeable(bs: seq<HeapBlock>, h: nat) {
    && Layout(bs) && IsHead(bs, h) && IsHead(bs, NextOf(bs, h)) && !bs[NextOf(bs, h)].free
    && NextOf(bs, NextOf(bs, h)) < |bs|
  }

  lemma MergeHead(bs: seq<HeapBlock>, h: nat, i: nat)
    requires Mergeable(bs, h) && i < |bs|
    ensures HeadOk(Merge(bs, h), i)
  {
    var bs', n := Merge(bs, h), NextOf(bs, h);
    assert CellOk(bs, h) && CellOk(bs, n) && CellOk(bs, i);
    if bs'[i].size > 0 && i != h {
      if i < h { HeadsApart(bs, i, h); } else { BoundaryOutside(bs, h, i); BoundaryOutside(bs, n, i); }
    }
  }

  lemma MergeBack(bs: seq<HeapBlock>, h: nat, i: nat)
    requires Mergeable(bs, h) && i < |bs|
    ensures BackOk(Merge(bs, h), i)
  {
    var bs', n := Merge(bs, h), NextOf(bs, h);
    var m := NextOf(bs, n);
    assert CellOk(bs, h) && CellOk(bs, n) && CellOk(bs, i);
    if bs'[i].sizePrevious > 0 && i != m {
      PredecessorOutside(bs, h, i);
      PredecessorOutside(bs, n, i);
    }
  }

  lemma MergeEdge(bs: seq<HeapBlock>, h: nat, i: nat)
    requires Mergeable(bs, h) && i < |bs|
    ensures EdgeOk(Merge(bs, h), i)
  {
    var bs', n := Merge(bs, h), NextOf(bs, h);
    assert CellOk(bs, h) && CellOk(bs, n) && CellOk(bs, i) && CellOk(bs, NextOf(bs, n));
    if i + 1 < |bs| { assert CellOk(bs, i + 1); }
    if bs[i].size > 0 || bs[i].sizePrevious > 0 {
      BoundaryOutside(bs, h, i);
      BoundaryOutside(bs, n, i);
    }
  }

  /** Changing flags of a block leaves the layout alone. */
  lemma FlagsLayout(bs: seq<HeapBlock>, h: nat, b: HeapBlock)
    requires Layout(bs) && IsHead(bs, h) && b == bs[h].(free := b.free, committed := b.committed, dirty := b.dirty)
    ensures Layout(bs[h := b]) && OnlyWithin(bs, bs[h := b], h, NextOf(bs, h))
  {
    var bs' := bs[h := b];
    forall i: nat | i < |bs'| ensures CellOk(bs', i) {
      assert CellOk(bs, i);
    }
  }

  // ----- the pages cells stand for -----

  /** Page `page` belongs to cell `x` of block `b`. */
  ghost predicate Holds(bs: seq<HeapBlock>, b: nat, x: nat, page: nat) {
    IsHead(bs, b) && b <= x < NextOf(bs, b) && page == bs[b].page + (x - b)
  }

  ghost predicate CellHolds(bs: seq<HeapBlock>, x: nat, page: nat) {
    exists b: nat :: Holds(bs, b, x, page)
  }

  /** However the pages are cut into blocks, every cell stands for the page it stood for. */
  ghost predicate SameCells(bs: seq<HeapBlock>, bs': seq<HeapBlock>) {
    forall x: nat, page: nat :: CellHolds(bs, x, page) <==> CellHolds(bs', x, page)
  }

  lemma FlagsSameCells(bs: seq<HeapBlock>, h: nat, b: HeapBlock)
    requires h < |bs| && b == bs[h].(free := b.free, committed := b.committed, dirty := b.dirty)
    ensures SameCells(bs, bs[h := b])
  {
    var bs' := bs[h := b];
    forall x: nat, page: nat ensures CellHolds(bs, x, page) <==> CellHolds(bs', x, page) {
      if c: nat :| Holds(bs, c, x, page) { assert Holds(bs', c, x, page); }
      if c: nat :| Holds(bs', c, x, page) { assert Holds(bs, c, x, page); }
    }
  }

  lemma SameCellsTransitive(a: seq<HeapBlock>, b: seq<HeapBlock>, c: seq<HeapBlock>)
    requires SameCells(a, b) && SameCells(b, c)
    ensures SameCells(a, c)
  {
  }

  lemma SplitSameCells(bs: seq<HeapBlock>, h: nat, k: nat)
    requires Layout(bs) && IsHead(bs, h) && 0 < k < bs[h].size && NextOf(bs, h) < |bs|
    ensures SameCells(bs, Split(bs, h, k))
  {
    var bs' := Split(bs, h, k);
    forall x: nat, page: nat ensures CellHolds(bs, x, page) <==> CellHolds(bs', x, page) {
      if c: nat :| Holds(bs, c, x, page) {
        BoundaryOutside(bs, h, c);
        assert Holds(bs', if c == h && x >= h + k then h + k else c, x, page);
      }
      if c: nat :| Holds(bs', c, x, page) {
        if c != h + k { BoundaryOutside(bs, h, c); }
        assert Holds(bs, if c == h + k then h else c, x, page);
      }
    }
  }

  lemma MergeSameCells(bs: seq<HeapBlock>, h: nat)
    requires Mergeable(bs, h)
    ensures SameCells(bs, Merge(bs, h))
  {
    var bs', n := Merge(bs, h), NextOf(bs, h);
    NextIn(bs, h);
    forall x: nat, page: nat ensures CellHolds(bs, x, page) <==> CellHolds(bs', x, page) {
      if c: nat :| Holds(bs, c, x, page) {
        BoundaryOutside(bs, n, c);
        assert Holds(bs', if c == n then h else c, x, page);
      }
      if c: nat :| Holds(bs', c, x, page) {
        BoundaryOutside(bs, n, c);
        assert Holds(bs, if c == h && x >= n then n else c, x, page);
      }
    }
  }

  // ----- page counts -----

  datatype Kind = Used | Decommitted | All

  function Weight(kind: Kind, b: HeapBlock): nat {
    match kind
    case Used => if b.free then 0 else b.size
    case Decommitted => if b.committed then 0 else b.size
    case All => b.size
  }

  /** The number of pages in blocks of a kind. */
  function Pages(kind: Kind, bs: seq<HeapBlock>): nat {
    if bs == [] then 0 else Pages(kind, bs[..|bs| - 1]) + Weight(kind, bs[|bs| - 1])
  }

  lemma {:induction false} PagesUpdate(kind: Kind, bs: seq<HeapBlock>, i: nat, b: HeapBlock)
    requires i < |bs|
    ensures Pages(kind, bs[i := b]) == Pages(kind, bs) - Weight(kind, bs[i]) + Weight(kind, b)
    decreases |bs|
  {
    var n := |bs| - 1;
    if i == n {
      assert bs[i := b][..n] == bs[..n];
    } else {
      assert bs[i := b][..n] == bs[..n][i := b];
      PagesUpdate(kind, bs[..n], i, b);
    }
  }

  lemma PagesUpdateThree(kind: Kind, bs: seq<HeapBlock>, i: nat, a: HeapBlock, j: nat, b: HeapBlock, k: nat,
                         c: HeapBlock)
    requires i < |bs| && j < |bs| && k < |bs| && i != j && j != k && i != k
    ensures Pages(kind, bs[i := a][j := b][k := c]) == Pages(kind, bs)
      - Weight(kind, bs[i]) - Weight(kind, bs[j]) - Weight(kind, bs[k]) + Weight(kind, a) + Weight(kind, b) + Weight(kind, c)
  {
    hide Pages, Weight;
    PagesUpdate(kind, bs, i, a);
    PagesUpdate(kind, bs[i := a], j, b);
    PagesUpdate(kind, bs[i := a][j := b], k, c);
  }

  /** Splitting a block that is in use changes no count. */
  lemma SplitPages(kind: Kind, bs: seq<HeapBlock>, h: nat, k: nat)
    requires Layout(bs) && IsHead(bs, h) && 0 < k < bs[h].size && !bs[h].free && NextOf(bs, h) < |bs|
    ensures Pages(kind, Split(bs, h, k)) == Pages(kind, bs)
  {
    assert CellOk(bs, h);
    assert bs[h + k].Empty();
    hide Layout, CellOk, HeadOk, BackOk, EdgeOk, Pages;
    var b, n := bs[h], NextOf(bs, h);
    var rest := HeapBlock(b.page + k, b.size - k, k, false, b.committed, b.dirty);
    PagesUpdateThree(kind, bs, h + k, rest, h, b.(size := k), n, bs[n].(sizePrevious := b.size - k));
    assert Weight(kind, rest) + Weight(kind, b.(size := k)) == Weight(kind, b);
    assert Weight(kind, bs[n].(sizePrevious := b.size - k)) == Weight(kind, bs[n]);
  }

  /** Nor does merging, except that the merged block counts as what its first part was. */
  lemma MergePages(kind: Kind, bs: seq<HeapBlock>, h: nat)
    requires Mergeable(bs, h) && !bs[h].free
    ensures Pages(kind, Merge(bs, h)) == Pages(kind, bs) - Weight(kind, bs[h]) - Weight(kind, bs[NextOf(bs, h)])
                                       + Weight(kind, Merge(bs, h)[h])
    ensures kind != Decommitted ==> Pages(kind, Merge(bs, h)) == Pages(kind, bs)
  {
    hide Layout, Pages;
    var n := NextOf(bs, h);
    var m := NextOf(bs, n);
    var total := bs[h].size + bs[n].size;
    PagesUpdateThree(kind, bs, h, bs[h].(size := total), n, bs[n].(size := 0, sizePrevious := 0, page := 0),
                     m, bs[m].(sizePrevious := total));
  }
}
