/**
 Growing the heap: how much memory to ask for when the descriptors themselves need
 room, and what the descriptor array becomes.
 */
module HeapExpansion {
  import opened HeapLayout
  import opened FreeLists
  import opened HeapSteps
  import opened HeapRegions
  import opened Arithmetic
  import opened Coalescing
  import opened HeapRuns
  import opened HeapAlloc

  const BLOCK_SIZE: nat := 4096

  // ----- sizing -----

  function RoundUp(s: nat, inc: nat): (r: nat)
    requires inc > 0
    ensures s <= r < s + inc && r % inc == 0
  {
    RoundsUp(s, inc);
    (s + inc - 1) / inc * inc
  }

  lemma RoundsUp(s: nat, inc: nat)
    requires inc > 0
    ensures s <= (s + inc - 1) / inc * inc < s + inc && (s + inc - 1) / inc * inc % inc == 0
  {
    var q := (s + inc - 1) / inc;
    assert s + inc - 1 == q * inc + (s + inc - 1) % inc;
    assert q * inc % inc == 0 by { MultipleMod(q, inc); }
  }

  /** Pages for `n` descriptors of `bytes` bytes (numHeapBlocksToNumBlocks). */
  function DescriptorPages(n: nat, bytes: nat): (p: nat)
    ensures p * BLOCK_SIZE >= n * bytes && (p > 0 ==> (p - 1) * BLOCK_SIZE < n * bytes)
  {
    LeastPages(n * bytes);
    (n * bytes + BLOCK_SIZE - 1) / BLOCK_SIZE
  }

  lemma LeastPages(b: nat)
    ensures var p := (b + BLOCK_SIZE - 1) / BLOCK_SIZE; p >= 0 && p * 4096 >= b && (p > 0 ==> (p - 1) * 4096 < b)
  {
  }

  /** Room for more bytes is no less. */
  lemma PagesMonotone(a: nat, b: nat)
    requires a <= b
    ensures (a + BLOCK_SIZE - 1) / BLOCK_SIZE <= (b + BLOCK_SIZE - 1) / BLOCK_SIZE
  {
  }

  lemma ProductMonotone(n: nat, m: nat, bytes: nat)
    requires n <= m
    ensures n * bytes <= m * bytes
  {
    assert (m - n) * bytes >= 0;
    assert m * bytes == n * bytes + (m - n) * bytes;
  }

  lemma DescriptorPagesMonotone(n: nat, m: nat, bytes: nat)
    requires n <= m
    ensures DescriptorPages(n, bytes) <= DescriptorPages(m, bytes)
  {
    ProductMonotone(n, m, bytes);
    PagesMonotone(n * bytes, m * bytes);
  }

  /** A page holds at least two descriptors. */
  lemma DescriptorPagesHalf(n: nat, bytes: nat)
    requires bytes <= BLOCK_SIZE / 2
    ensures 2 * DescriptorPages(n, bytes) <= n + 2
  {
    assert n * bytes <= n * (BLOCK_SIZE / 2);
  }

  /** One block descriptor, and another for the region page when no region record is at hand. */
  function ExtraBlocks(haveRegion: bool): nat {
    if haveRegion then 1 else 2
  }

  /**
   The sizing loop of ExpandHeapInternal: the size depends on the pages for the
   descriptors, and these depend on the size.  `moved` tells that the descriptors
   go to the new memory.
   */
  method SizeExpansion(askSize: nat, blocksLen: nat, curSize: nat, haveRegion: bool, bytes: nat) returns (size: nat,
                                                                                                          moved: bool)
    requires bytes <= BLOCK_SIZE / 2
    ensures size % MIN_HEAP_INCREMENT == 0
    ensures var needed := DescriptorPages(blocksLen + size + ExtraBlocks(haveRegion), bytes);
      if moved then size >= askSize + needed + ExtraBlocks(haveRegion)
      else size == RoundUp(askSize, MIN_HEAP_INCREMENT) && needed <= curSize
    ensures moved <==>
      DescriptorPages(blocksLen + RoundUp(askSize, MIN_HEAP_INCREMENT) + ExtraBlocks(haveRegion), bytes) > curSize
  {
    hide RoundUp, DescriptorPages;
    size := RoundUp(askSize, MIN_HEAP_INCREMENT);
    moved := false;
    var extraBlocks := ExtraBlocks(haveRegion);
    var curHeapBlocksSize := curSize;
    var newHeapBlocksSize := DescriptorPages(blocksLen + size + extraBlocks, bytes);
    ghost var bound := blocksLen + askSize + 2 * extraBlocks + MIN_HEAP_INCREMENT + 2;
    DescriptorPagesHalf(blocksLen + size + extraBlocks, bytes);
    while newHeapBlocksSize > curHeapBlocksSize
      invariant size % MIN_HEAP_INCREMENT == 0
      invariant newHeapBlocksSize == DescriptorPages(blocksLen + size + extraBlocks, bytes) <= bound
      invariant if moved then size >= askSize + curHeapBlocksSize + extraBlocks
                else size == RoundUp(askSize, MIN_HEAP_INCREMENT) && curHeapBlocksSize == curSize
      invariant moved ==>
        DescriptorPages(blocksLen + RoundUp(askSize, MIN_HEAP_INCREMENT) + extraBlocks, bytes) > curSize
      decreases bound - curHeapBlocksSize
    {
      size := RoundUp(askSize + newHeapBlocksSize + extraBlocks, MIN_HEAP_INCREMENT);
      moved := true;
      curHeapBlocksSize := newHeapBlocksSize;
      DescriptorPagesHalf(blocksLen + size + extraBlocks, bytes);
      newHeapBlocksSize := DescriptorPages(blocksLen + size + extraBlocks, bytes);
    }
  }

  /** What is left of the new memory when descriptors and a region page have been carved out of it. */
  function Rest(size: nat, moved: bool, newLen: nat, haveRegion: bool, bytes: nat): int {
    size - (if moved then DescriptorPages(newLen, bytes) else 0) - (if haveRegion then 0 else 1)
  }

  /**
   When the loop settles the size, what is left is enough for the request exactly if
   the descriptors moved, or no region page was needed, or the request was rounded up.
   */
  lemma RestSuffices(askSize: nat, blocksLen: nat, size: nat, moved: bool, haveRegion: bool, newLen: nat, bytes: nat)
    requires newLen <= blocksLen + size + 1
    requires if moved then size >= askSize + DescriptorPages(blocksLen + size + ExtraBlocks(haveRegion), bytes) + ExtraBlocks(haveRegion)
             else size == RoundUp(askSize, MIN_HEAP_INCREMENT)
    ensures Rest(size, moved, newLen, haveRegion, bytes) >= askSize
       <==> moved || haveRegion || askSize % MIN_HEAP_INCREMENT != 0
  {
    DescriptorPagesMonotone(newLen, blocksLen + size + ExtraBlocks(haveRegion), bytes);
    if askSize % MIN_HEAP_INCREMENT == 0 {
      assert RoundUp(askSize, MIN_HEAP_INCREMENT) == askSize by {
        var r := RoundUp(askSize, MIN_HEAP_INCREMENT);
        assert (r - askSize) % MIN_HEAP_INCREMENT == 0;
      }
    }
  }

  /**
   A request for 32 pages, in a heap of 96 pages and one sentinel, whose descriptors fill two pages: they
   need not move, and with a page carved off for region records 31 pages are left.
   */
  method OnePageShort() returns (size: nat, moved: bool)
    ensures !moved && Rest(size, moved, 97 + size + 1, false, 48) == 31
  {
    hide *;
    ShortFacts();
    TwoPages();
    RoundUp32();
    size, moved := SizeExpansion(32, 97, 2, false, 48);
  }

  lemma RoundUp32()
    ensures RoundUp(32, MIN_HEAP_INCREMENT) == 32
  {
    hide RoundUp;
    assert RoundUp(32, MIN_HEAP_INCREMENT) % 32 == 0;
  }

  lemma TwoPages()
    ensures DescriptorPages(131, 48) == 2
  {
    hide RoundUp;
    var bytes: int := 131 * 48 + 4095;
    assert bytes == 10383;
    assert bytes / 4096 == 2;
  }

  lemma ShortFacts()
    ensures ExtraBlocks(false) == 2 && Rest(32, false, 130, false, 48) == 31 && 48 <= BLOCK_SIZE / 2
  {
    hide RoundUp, DescriptorPages;
  }

  // ----- the new descriptors -----

  /** Cell `i` is a block's first, a sentinel, or inside a block. */
  ghost predicate Placed(bs: seq<HeapBlock>, i: nat) {
    i < |bs| && (IsHead(bs, i) || bs[i].Sentinel() || exists b: nat :: Inside(bs, b, i))
  }

  ghost predicate Inside(bs: seq<HeapBlock>, b: nat, i: nat) {
    IsHead(bs, b) && b < i < NextOf(bs, b)
  }

  lemma {:induction false} EveryCellPlaced(bs: seq<HeapBlock>, i: nat)
    requires Layout(bs) && i < |bs|
    ensures Placed(bs, i)
  {
    if i > 0 {
      EveryCellPlaced(bs, i - 1);
      assert CellOk(bs, i - 1);
      if IsHead(bs, i - 1) && NextOf(bs, i - 1) > i {
        assert Inside(bs, i - 1, i);
      } else if !IsHead(bs, i - 1) && !bs[i - 1].Sentinel() {
        var b: nat :| Inside(bs, b, i - 1);
        assert CellOk(bs, b);
        if NextOf(bs, b) > i { assert Inside(bs, b, i); }
      }
    }
  }

  /** The array ends on a sentinel. */
  lemma LastIsSentinel(bs: seq<HeapBlock>)
    requires Layout(bs) && |bs| > 0
    ensures bs[|bs| - 1].Sentinel() && 0 < bs[|bs| - 1].sizePrevious <= |bs| - 1 && !bs[|bs| - 1].free
    ensures var l := |bs| - 1 - bs[|bs| - 1].sizePrevious; IsHead(bs, l) && NextOf(bs, l) == |bs| - 1
  {
    var i: nat := |bs| - 1;
    EveryCellPlaced(bs, i);
    assert CellOk(bs, i);
    forall b: nat ensures !Inside(bs, b, i) {
      if IsHead(bs, b) { assert CellOk(bs, b); }
    }
  }

  /** The blocks that stay where they are when the heap grows: all but a sentinel that gives way. */
  function Kept(bs: seq<HeapBlock>, contiguous: bool): (k: nat)
    requires contiguous ==> |bs| > 0
    ensures k <= |bs|
  {
    if contiguous then |bs| - 1 else |bs|
  }

  /** One block in use for all the new memory, empty cells for its interior, and a sentinel on top. */
  function Grown(bs: seq<HeapBlock>, base: nat, size: nat, contiguous: bool, dirty: bool): (bs': seq<HeapBlock>)
    requires size > 0 && (contiguous ==> |bs| > 0)
    ensures |bs'| == Kept(bs, contiguous) + size + 1
    ensures forall i :: 0 <= i < Kept(bs, contiguous) ==> bs'[i] == bs[i]
    ensures bs'[Kept(bs, contiguous)] ==
      HeapBlock(base, size, if contiguous then bs[|bs| - 1].sizePrevious else 0, false, true, dirty)
    ensures forall i :: Kept(bs, contiguous) < i < |bs'| - 1 ==> bs'[i] == CLEAR
    ensures bs'[|bs'| - 1] == CLEAR.(sizePrevious := size)
  {
    bs[..Kept(bs, contiguous)]
    + [HeapBlock(base, size, if contiguous then bs[|bs| - 1].sizePrevious else 0, false, true, dirty)]
    + seq(size - 1, i => CLEAR)
    + [CLEAR.(sizePrevious := size)]
  }

  /** The last block of the heap ends where the new memory begins, if it is contiguous. */
  predicate Adjoins(bs: seq<HeapBlock>, base: nat) {
    && |bs| > 0 && 0 < bs[|bs| - 1].sizePrevious <= |bs| - 1
    && var l := |bs| - 1 - bs[|bs| - 1].sizePrevious; base == bs[l].page + bs[l].size
  }

  lemma GrownLayout(bs: seq<HeapBlock>, base: nat, size: nat, contiguous: bool, dirty: bool)
    requires Layout(bs) && size > 0 && base > 0 && (contiguous ==> Adjoins(bs, base))
    ensures Layout(Grown(bs, base, size, contiguous, dirty))
  {
    var bs' := Grown(bs, base, size, contiguous, dirty);
    hide Grown, CellOk;
    forall i: nat | i < |bs'| ensures CellOk(bs', i) {
      if i < Kept(bs, contiguous) {
        GrownOldCell(bs, base, size, contiguous, dirty, i);
      } else {
        GrownNewCell(bs, base, size, contiguous, dirty, i);
      }
    }
  }

  lemma GrownOldCell(bs: seq<HeapBlock>, base: nat, size: nat, contiguous: bool, dirty: bool, i: nat)
    requires Layout(bs) && size > 0 && (contiguous ==> |bs| > 0) && i < Kept(bs, contiguous)
    ensures CellOk(Grown(bs, base, size, contiguous, dirty), i)
  {
    LastIsSentinel(bs);
    assert CellOk(bs, i) && CellOk(bs, |bs| - 1);
    hide Grown, Layout;
  }

  lemma GrownNewCell(bs: seq<HeapBlock>, base: nat, size: nat, contiguous: bool, dirty: bool, i: nat)
    requires Layout(bs) && size > 0 && base > 0 && (contiguous ==> Adjoins(bs, base))
    requires Kept(bs, contiguous) <= i < |Grown(bs, base, size, contiguous, dirty)|
    ensures CellOk(Grown(bs, base, size, contiguous, dirty), i)
  {
    if |bs| > 0 {
      LastIsSentinel(bs);
      assert CellOk(bs, |bs| - 1);
    }
    hide Grown, Layout;
  }

  lemma GrownHeapOk(bs: seq<HeapBlock>, fl: Lists, base: nat, size: nat, contiguous: bool, dirty: bool)
    requires HeapOk(bs, fl) && size > 0 && base > 0 && (contiguous ==> Adjoins(bs, base))
    ensures HeapOk(Grown(bs, base, size, contiguous, dirty), fl)
    ensures InHand(Grown(bs, base, size, contiguous, dirty), Kept(bs, contiguous))
  {
    GrownLayout(bs, base, size, contiguous, dirty);
    GrownLists(bs, fl, base, size, contiguous, dirty);
    GrownCoalesced(bs, base, size, contiguous, dirty);
    hide Layout, ListsOk, Coalesced;
  }

  lemma GrownLists(bs: seq<HeapBlock>, fl: Lists, base: nat, size: nat, contiguous: bool, dirty: bool)
    requires Layout(bs) && ListsOk(bs, fl) && size > 0 && (contiguous ==> |bs| > 0)
    ensures ListsOk(Grown(bs, base, size, contiguous, dirty), fl)
  {
    var bs' := Grown(bs, base, size, contiguous, dirty);
    if |bs| > 0 { LastIsSentinel(bs); }
    hide Grown, Layout;
    forall h: nat ensures Occurrences(fl, h) == if h < |bs'| && bs'[h].free then 1 else 0 {
      assert Occurrences(fl, h) == if h < |bs| && bs[h].free then 1 else 0;
    }
    forall l: nat | l < |fl| ensures ListOk(bs', l, fl[l]) {
      assert ListOk(bs, l, fl[l]);
      forall i: nat | i < |fl[l]| ensures fl[l][i] < Kept(bs, contiguous) { ListedIsFree(bs, fl, l, i); }
    }
  }

  lemma GrownCoalesced(bs: seq<HeapBlock>, base: nat, size: nat, contiguous: bool, dirty: bool)
    requires Layout(bs) && Coalesced(bs) && size > 0 && (contiguous ==> |bs| > 0)
    ensures Coalesced(Grown(bs, base, size, contiguous, dirty))
  {
    var bs' := Grown(bs, base, size, contiguous, dirty);
    if |bs| > 0 { LastIsSentinel(bs); }
    hide Grown;
    forall i: nat | i < |bs'| && bs'[i].free && NextOf(bs', i) < |bs'| && bs'[NextOf(bs', i)].free
      ensures bs'[i].committed != bs'[NextOf(bs', i)].committed
    {
      assert NextOf(bs, i) < |bs|;
    }
  }

  /**
   The array before and after, in parts: the blocks kept, a sentinel that gives way, the new block,
   and cells of no size.
   */
  lemma GrownParts(bs: seq<HeapBlock>, base: nat, size: nat, contiguous: bool, dirty: bool)
    returns (front: seq<HeapBlock>, gone: seq<HeapBlock>, b: HeapBlock, top: seq<HeapBlock>)
    requires Layout(bs) && size > 0 && (contiguous ==> |bs| > 0)
    ensures bs == front + gone && Grown(bs, base, size, contiguous, dirty) == front + [b] + top
    ensures b.size == size && b.committed && !b.free
    ensures forall i :: 0 <= i < |gone| ==> gone[i].size == 0
    ensures forall i :: 0 <= i < |top| ==> top[i].size == 0
  {
    var bs', k := Grown(bs, base, size, contiguous, dirty), Kept(bs, contiguous);
    if |bs| > 0 { LastIsSentinel(bs); }
    hide Layout, Grown;
    front, gone, b, top := bs[..k], bs[k..], bs'[k], bs'[k + 1..];
  }

  lemma GrownPages(kind: Kind, bs: seq<HeapBlock>, base: nat, size: nat, contiguous: bool, dirty: bool)
    requires Layout(bs) && size > 0 && (contiguous ==> |bs| > 0)
    ensures Pages(kind, Grown(bs, base, size, contiguous, dirty)) == Pages(kind, bs) + if kind == Decommitted then 0 else size
  {
    hide *;
    var front, gone, b, top := GrownParts(bs, base, size, contiguous, dirty);
    PagesConcat(kind, front, gone);
    PagesZero(kind, gone);
    PagesConcat(kind, front + [b], top);
    PagesConcat(kind, front, [b]);
    PagesZero(kind, top);
    PagesOne(kind, b);
  }

  lemma PagesOne(kind: Kind, b: HeapBlock)
    requires b.committed && !b.free
    ensures Pages(kind, [b]) == if kind == Decommitted then 0 else b.size
  {
    assert [b][..0] == [];
  }

  /** Growing moves no block: those in use, and the pages cells stand for, are as they were. */
  ghost predicate Grew(bs: seq<HeapBlock>, bs': seq<HeapBlock>, s: set<nat>) {
    && |bs| <= |bs'| + 1
    && (forall i: nat :: InHand(bs, i) && i !in s ==> i < |bs'| && bs'[i] == bs[i].(sizePrevious := bs'[i].sizePrevious))
    && forall x: nat, page: nat :: CellHolds(bs, x, page) ==> CellHolds(bs', x, page)
  }

  lemma GrownUsers(bs: seq<HeapBlock>, base: nat, size: nat, contiguous: bool, dirty: bool)
    requires Layout(bs) && size > 0 && (contiguous ==> |bs| > 0)
    ensures Grew(bs, Grown(bs, base, size, contiguous, dirty), {})
    ensures Hands(Grown(bs, base, size, contiguous, dirty)) == Hands(bs) + {Kept(bs, contiguous)}
    ensures Kept(bs, contiguous) !in Hands(bs)
  {
    var bs' := Grown(bs, base, size, contiguous, dirty);
    if |bs| > 0 { LastIsSentinel(bs); }
    forall x: nat, page: nat | CellHolds(bs, x, page) ensures CellHolds(bs', x, page) {
      var b: nat :| Holds(bs, b, x, page);
      assert Holds(bs', b, x, page);
    }
  }

  lemma GrewThenKept(a: seq<HeapBlock>, b: seq<HeapBlock>, c: seq<HeapBlock>, s: set<nat>, t: set<nat>)
    requires Grew(a, b, s) && UsersKept(b, c, t) && forall i :: i in t && InHand(a, i) ==> i in s
    ensures Grew(a, c, s)
  {
    forall x: nat, page: nat | CellHolds(a, x, page) ensures CellHolds(c, x, page) {
      assert CellHolds(b, x, page);
    }
    hide SameCells, CellHolds;
  }

  // ----- the steps of ExpandHeapInternal -----

  /** A descriptor has two words of sizes, three pointers and two flags. */
  const HEAP_BLOCK_BYTES: nat := 48

  /** All new memory in one block in hand. */
  lemma ExpandStart(bs: seq<HeapBlock>, fl: Lists, base: nat, size: nat, contiguous: bool, dirty: bool)
    requires HeapOk(bs, fl) && size > 0 && base > 0 && (contiguous ==> Adjoins(bs, base))
    ensures contiguous ==> |bs| > 0
    ensures var bs', h := Grown(bs, base, size, contiguous, dirty), Kept(bs, contiguous);
      && HeapOk(bs', fl) && h < |bs'| && InHand(bs', h) && bs'[h].size == size && bs'[h].committed
      && bs'[h].dirty == dirty
      && Grew(bs, bs', {}) && Hands(bs') == Hands(bs) + {h} && h !in Hands(bs)
      && Pages(Used, bs') == Pages(Used, bs) + size && Pages(All, bs') == Pages(All, bs) + size
      && Pages(Decommitted, bs') == Pages(Decommitted, bs)
      && (forall k: nat :: Serves(bs, k) ==> Serves(bs', k))
      && (UsersCommitted(bs) ==> UsersCommitted(bs'))
      && (forall y: nat :: InHand(bs, y) ==> y in Hands(bs) && y != h && y < |bs'| && InHand(bs', y) && bs'[y].size == bs[y].size)
  {
    GrownServes(bs, base, size, contiguous, dirty);
    if UsersCommitted(bs) { GrownCommitted(bs, base, size, contiguous, dirty); }
    if |bs| > 0 { LastIsSentinel(bs); }
    GrownHeapOk(bs, fl, base, size, contiguous, dirty);
    GrownUsers(bs, base, size, contiguous, dirty);
    GrownPages(Used, bs, base, size, contiguous, dirty);
    GrownPages(All, bs, base, size, contiguous, dirty);
    GrownPages(Decommitted, bs, base, size, contiguous, dirty);
    assert forall y: nat :: InHand(bs, y) ==> y in Hands(bs);
    hide Pages, Layout, ListsOk, Grew, Hands, Serves, UsersCommitted;
  }

  lemma GrownZero(bs: seq<HeapBlock>, base: nat, size: nat, contiguous: bool, dirty: bool, zeroed: set<nat>)
    requires Layout(bs) && size > 0 && (contiguous ==> |bs| > 0) && ZeroOk(bs, zeroed)
    ensures ZeroOk(Grown(bs, base, size, contiguous, dirty), zeroed)
  {
    var bs' := Grown(bs, base, size, contiguous, dirty);
    if |bs| > 0 { LastIsSentinel(bs); }
    forall i: nat | i < |bs'| && bs'[i].free ensures CleanOk(bs', i, zeroed) {
      assert CleanOk(bs, i, zeroed);
      assert NextOf(bs', i) == NextOf(bs, i);
    }
  }

  /** A part of the new memory is split off; both parts are in hand. */
  lemma ExpandSplit(bs: seq<HeapBlock>, b1: seq<HeapBlock>, b2: seq<HeapBlock>, h: nat, n: nat)
    requires Grew(bs, b1, {}) && h !in Hands(bs) && h in Hands(b1) && n !in Hands(b1) && Hands(bs) <= Hands(b1)
    requires UsersKept(b1, b2, {h}) && Hands(b2) == Hands(b1) + {n}
    ensures Grew(bs, b2, {}) && n !in Hands(bs) && Hands(bs) <= Hands(b2) && n in Hands(b2) && h in Hands(b2)
  {
    assert InHand(bs, h) ==> h in Hands(bs);
    GrewThenKept(bs, b1, b2, {}, {h});
  }

  /** The rest of the new memory is filed, or the old descriptors are given back. */
  lemma ExpandFile(bs: seq<HeapBlock>, b1: seq<HeapBlock>, b2: seq<HeapBlock>, h: nat, s: set<nat>)
    requires Grew(bs, b1, s) && UsersKept(b1, b2, {h}) && (h in Hands(bs) ==> h in s)
    ensures Grew(bs, b2, s)
  {
    assert InHand(bs, h) ==> h in Hands(bs);
    GrewThenKept(bs, b1, b2, s, {h});
  }

  lemma GrewWiden(bs: seq<HeapBlock>, bs': seq<HeapBlock>, s: set<nat>)
    requires Grew(bs, bs', {})
    ensures Grew(bs, bs', s)
  {
  }

  /** There is room for what is carved out. */
  lemma CarvingFits(askSize: nat, blocksLen: nat, newLen: nat, size: nat, looped: bool, moved: bool, haveRegion: bool)
    requires (askSize > 0 || looped) && newLen <= blocksLen + size + 1 && (looped ==> moved)
    requires (moved && !looped ==> blocksLen == 0)
    requires if looped then size >= askSize + DescriptorPages(blocksLen + size + ExtraBlocks(haveRegion), HEAP_BLOCK_BYTES) + ExtraBlocks(haveRegion)
             else size == RoundUp(askSize, MIN_HEAP_INCREMENT)
    ensures size > 0 && (moved ==> 0 < DescriptorPages(newLen, HEAP_BLOCK_BYTES) || newLen == 0)
    ensures Rest(size, moved, newLen, haveRegion, HEAP_BLOCK_BYTES) > 0
  {
    DescriptorPagesMonotone(newLen, blocksLen + size + ExtraBlocks(haveRegion), HEAP_BLOCK_BYTES);
    assert !looped ==> RoundUp(askSize, MIN_HEAP_INCREMENT) >= 32 by {
      var r := RoundUp(askSize, MIN_HEAP_INCREMENT);
      assert r % 32 == 0 && (askSize > 0 ==> r > 0);
    }
    hide RoundUp;
  }

  lemma ServesSuffices(bs: seq<HeapBlock>, k: nat)
    requires Serves(bs, k)
    ensures !OnlyRuns(bs, k, 1)
  {
    var i: nat :| i < |bs| && bs[i].free && bs[i].committed && bs[i].size >= k;
    assert Suffices(bs, i, k, 1);
  }

  lemma ServesLess(bs: seq<HeapBlock>, k: nat, j: nat)
    requires Serves(bs, k) && j <= k
    ensures Serves(bs, j)
  {
  }

  lemma GrownCommitted(bs: seq<HeapBlock>, base: nat, size: nat, contiguous: bool, dirty: bool)
    requires UsersCommitted(bs) && size > 0 && (contiguous ==> |bs| > 0)
    ensures UsersCommitted(Grown(bs, base, size, contiguous, dirty))
  {
    var bs' := Grown(bs, base, size, contiguous, dirty);
    forall i: nat | InHand(bs', i) ensures bs'[i].committed {
      assert i < Kept(bs, contiguous) ==> InHand(bs, i);
    }
  }

  lemma SplitCommitted(bs: seq<HeapBlock>, h: nat, k: nat)
    requires UsersCommitted(bs) && InHand(bs, h) && 0 < k < bs[h].size && NextOf(bs, h) < |bs|
    ensures UsersCommitted(Split(bs, h, k))
  {
    var bs' := Split(bs, h, k);
    forall i: nat | InHand(bs', i) ensures bs'[i].committed {
      assert i != h + k ==> InHand(bs, i);
    }
  }

  lemma Constants()
    ensures MIN_HEAP_INCREMENT == 32 && HEAP_BLOCK_BYTES <= BLOCK_SIZE / 2
  {
  }

  /** One part of the new memory is carved off the block in hand, and counted as allocated by the caller. */
  lemma Carve(bs: seq<HeapBlock>, b1: seq<HeapBlock>, fl: Lists, h: nat, k: nat, zeroed: set<nat>)
    requires HeapOk(b1, fl) && UsersCommitted(b1) && Grew(bs, b1, {}) && h !in Hands(bs) && Hands(bs) <= Hands(b1)
    requires h < |b1| && InHand(b1, h) && 0 < k < b1[h].size
    ensures IsHead(b1, h) && NextOf(b1, h) < |b1| && h + k < |b1|
    ensures var b2 := Split(b1, h, k);
      && HeapOk(b2, fl) && UsersCommitted(b2) && Grew(bs, b2, {}) && h + k !in Hands(bs) && Hands(bs) <= Hands(b2)
      && Hands(b2) == Hands(b1) + {h + k}
      && InHand(b2, h) && b2[h].size == k && InHand(b2, h + k) && b2[h + k].size == b1[h].size - k
      && b2[h + k].dirty == b1[h].dirty && b2[h].page == b1[h].page && SameCells(b1, b2)
      && Pages(Used, b2) == Pages(Used, b1) && Pages(All, b2) == Pages(All, b1)
      && Pages(Decommitted, b2) == Pages(Decommitted, b1)
      && (ZeroOk(b1, zeroed) ==> ZeroOk(b2, zeroed))
      && (forall y: nat :: y != h && InHand(b1, y) ==>
            y < |b2| && InHand(b2, y) && b2[y].size == b1[y].size && b2[y].page == b1[y].page)
      && (forall j: nat :: Serves(b1, j) ==> Serves(b2, j))
  {
    hide *;
    SplitFacts(b1, fl, h, k, zeroed);
    SplitCommitted(b1, h, k);
    SplitServes(b1, fl, h, k);
    ExpandSplit(bs, b1, Split(b1, h, k), h, h + k);
    SplitHands(b1, Split(b1, h, k), h);
    SplitPage(b1, fl, h, k);
  }

  lemma SplitHands(b1: seq<HeapBlock>, b2: seq<HeapBlock>, h: nat)
    requires UsersKept(b1, b2, {h})
    ensures forall y: nat :: y != h && InHand(b1, y) ==>
      y < |b2| && InHand(b2, y) && b2[y].size == b1[y].size && b2[y].page == b1[y].page
  {
  }

  lemma SplitPage(bs: seq<HeapBlock>, fl: Lists, h: nat, k: nat)
    requires HeapOk(bs, fl) && InHand(bs, h) && 0 < k < bs[h].size && IsHead(bs, h) && NextOf(bs, h) < |bs|
    ensures h < |Split(bs, h, k)| && Split(bs, h, k)[h].page == bs[h].page && SameCells(bs, Split(bs, h, k))
  {
    SplitSameCells(bs, h, k);
  }

  lemma SplitServes(bs: seq<HeapBlock>, fl: Lists, h: nat, k: nat)
    requires HeapOk(bs, fl) && InHand(bs, h) && 0 < k < bs[h].size && NextOf(bs, h) < |bs|
    ensures forall j: nat :: Serves(bs, j) ==> Serves(Split(bs, h, k), j)
  {
    var bs' := Split(bs, h, k);
    assert bs[h + k].Empty() by { assert CellOk(bs, h); }
    forall j: nat | Serves(bs, j) ensures Serves(bs', j) {
      var i: nat :| i < |bs| && bs[i].free && bs[i].committed && bs[i].size >= j;
      assert bs'[i] == bs[i].(sizePrevious := bs'[i].sizePrevious);
    }
  }

  lemma StartZero(bs: seq<HeapBlock>, fl: Lists, base: nat, size: nat, contiguous: bool, dirty: bool, zeroed: set<nat>)
    requires HeapOk(bs, fl) && size > 0 && (contiguous ==> |bs| > 0) && ZeroOk(bs, zeroed)
    ensures ZeroOk(Grown(bs, base, size, contiguous, dirty), zeroed)
  {
    GrownZero(bs, base, size, contiguous, dirty, zeroed);
  }

  lemma RestIs(size: nat, moved: bool, newLen: nat, haveRegion: bool)
    requires newLen > 0
    ensures Rest(size, moved, newLen, haveRegion, HEAP_BLOCK_BYTES) ==
      size - (if moved then DescriptorPages(newLen, HEAP_BLOCK_BYTES) else 0) - (if haveRegion then 0 else 1)
    ensures DescriptorPages(newLen, HEAP_BLOCK_BYTES) > 0
  {
  }

  lemma KeptAtMost(bs: seq<HeapBlock>, contiguous: bool)
    requires contiguous ==> |bs| > 0
    ensures Kept(bs, contiguous) <= |bs| && (|bs| == 0 ==> Kept(bs, contiguous) == 0)
  {
  }

  lemma GrownServes(bs: seq<HeapBlock>, base: nat, size: nat, contiguous: bool, dirty: bool)
    requires Layout(bs) && size > 0 && (contiguous ==> |bs| > 0)
    ensures forall k: nat :: Serves(bs, k) ==> Serves(Grown(bs, base, size, contiguous, dirty), k)
  {
    var bs' := Grown(bs, base, size, contiguous, dirty);
    if |bs| > 0 { LastIsSentinel(bs); }
    forall k: nat | Serves(bs, k) ensures Serves(bs', k) {
      var i: nat :| i < |bs| && bs[i].free && bs[i].committed && bs[i].size >= k;
      assert bs'[i] == bs[i];
    }
  }

  lemma FreshZero(bs: seq<HeapBlock>, h: nat, zeroed: set<nat>)
    requires h < |bs| && ZeroOk(bs, zeroed)
    ensures ZeroOk(bs, zeroed + Cells(bs, h)) && CleanOk(bs, h, zeroed + Cells(bs, h))
  {
    ZeroGrows(bs, zeroed, Cells(bs, h));
  }

  lemma KeptHand(bs: seq<HeapBlock>, bs': seq<HeapBlock>, s: set<nat>, y: nat)
    requires UsersKept(bs, bs', s) && InHand(bs, y) && y !in s
    ensures y < |bs| == |bs'| && InHand(bs', y) && bs'[y].size == bs[y].size && bs'[y].page == bs[y].page
  {
  }

  lemma CommittedHand(bs: seq<HeapBlock>, h: nat)
    requires UsersCommitted(bs) && InHand(bs, h)
    ensures h < |bs| && bs[h].committed
  {
  }

  /** The outcome of the sizing loop (`looped`), or of doing without it before there are any descriptors. */
  ghost predicate Sized(askSize: nat, blocksLen: nat, size: nat, settled: bool, looped: bool, first: bool,
                        haveRegion: bool, cur: nat) {
    && (askSize > 0 || (first && settled)) && (settled <== blocksLen != 0)
    && (first ==> cur == 0 && blocksLen == 0) && (!first ==> blocksLen != 0) && (!settled ==> !looped)
    && (looped ==> size >= askSize + DescriptorPages(blocksLen + size + ExtraBlocks(haveRegion), HEAP_BLOCK_BYTES) + ExtraBlocks(haveRegion))
    && (!looped ==> size == RoundUp(askSize, MIN_HEAP_INCREMENT))
    && (!looped && settled ==> DescriptorPages(blocksLen + size + ExtraBlocks(haveRegion), HEAP_BLOCK_BYTES) <= cur)
  }

  lemma SizedIs(askSize: nat, blocksLen: nat, size: nat, settled: bool, looped: bool, first: bool, haveRegion: bool,
                cur: nat)
    requires (askSize > 0 || (first && settled)) && (settled <== blocksLen != 0)
    requires (first ==> cur == 0 && blocksLen == 0) && (!first ==> blocksLen != 0) && (!settled ==> !looped)
    requires looped ==>
      size >= askSize + DescriptorPages(blocksLen + size + ExtraBlocks(haveRegion), HEAP_BLOCK_BYTES) + ExtraBlocks(haveRegion)
    requires MIN_HEAP_INCREMENT > 0 && (!looped ==> size == RoundUp(askSize, MIN_HEAP_INCREMENT))
    requires !looped && settled ==> DescriptorPages(blocksLen + size + ExtraBlocks(haveRegion), HEAP_BLOCK_BYTES) <= cur
    ensures Sized(askSize, blocksLen, size, settled, looped, first, haveRegion, cur)
  {
    hide DescriptorPages, RoundUp;
  }

  /** The sizing comes out such that the carving fits, with the exact condition for the request itself. */
  lemma SizingFits(askSize: nat, blocksLen: nat, newLen: nat, size: nat, settled: bool, looped: bool, first: bool,
                   haveRegion: bool, cur: nat)
    requires Sized(askSize, blocksLen, size, settled, looped, first, haveRegion, cur)
    requires 0 < newLen <= blocksLen + size + 1
    ensures size > 0 && Rest(size, looped || first, newLen, haveRegion, HEAP_BLOCK_BYTES) > 0
    ensures !(looped || first) ==> DescriptorPages(newLen, HEAP_BLOCK_BYTES) <= cur
    ensures settled ==> (Rest(size, looped || first, newLen, haveRegion, HEAP_BLOCK_BYTES) >= askSize
                         <==> looped || first || haveRegion || askSize % MIN_HEAP_INCREMENT != 0)
  {
    var moved := looped || first;
    RestIs(size, moved, blocksLen + size + ExtraBlocks(haveRegion), haveRegion);
    CarvingFits(askSize, blocksLen, newLen, size, looped, moved, haveRegion);
    DescriptorPagesMonotone(newLen, blocksLen + size + ExtraBlocks(haveRegion), HEAP_BLOCK_BYTES);
    if settled {
      RestSuffices(askSize, blocksLen, size, looped, haveRegion, newLen, HEAP_BLOCK_BYTES);
    }
  }

  lemma FiledGrew(bs: seq<HeapBlock>, bs1: seq<HeapBlock>, bs2: seq<HeapBlock>, h: nat)
    requires Grew(bs, bs1, {}) && UsersKept(bs1, bs2, {h}) && Hands(bs2) == Hands(bs1) - {h}
    requires h !in Hands(bs) && Hands(bs) <= Hands(bs1) && UsersCommitted(bs1)
    ensures Grew(bs, bs2, {}) && Hands(bs) <= Hands(bs2) && UsersCommitted(bs2)
  {
    ExpandFile(bs, bs1, bs2, h, {});
    UsersStayCommitted(bs1, bs2, {h});
    hide Grew, UsersKept, UsersCommitted;
  }

  lemma FreedGrew(bs: seq<HeapBlock>, bs2: seq<HeapBlock>, bs3: seq<HeapBlock>, x: nat)
    requires Grew(bs, bs2, {}) && UsersKept(bs2, bs3, {x}) && Hands(bs3) == Hands(bs2) - {x} && UsersCommitted(bs2)
    ensures Grew(bs, bs3, {x}) && UsersCommitted(bs3)
  {
    GrewWiden(bs, bs2, {x});
    ExpandFile(bs, bs2, bs3, x, {x});
    UsersStayCommitted(bs2, bs3, {x});
  }

  lemma NothingDropped(bs: seq<HeapBlock>, h: nat, makeDirty: bool)
    requires h < |bs| && (makeDirty || !bs[h].dirty)
    ensures !DirtDropped(bs, h, makeDirty)
  {
  }
}
