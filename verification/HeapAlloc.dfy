/**
 Cutting a committed block to the size asked for, and choosing the block: best fit.
 */
module HeapAlloc {
  import opened HeapLayout
  import opened FreeLists
  import opened HeapSteps
  import opened Coalescing
  import opened HeapRuns
  import opened Arithmetic

  // ----- alignment -----

  /** Pages to skip at the start of a block for the given alignment (the masks of the source, for powers of two). */
  function AlignmentSlop(page: nat, alignment: nat): (slop: nat)
    requires alignment > 0
    ensures slop < alignment && (page + slop) % alignment == 0
    ensures alignment == 1 ==> slop == 0
  {
    SlopAligns(page, alignment);
    (alignment - page % alignment) % alignment
  }

  lemma SlopAligns(page: nat, alignment: nat)
    requires alignment > 0
    ensures (page + (alignment - page % alignment) % alignment) % alignment == 0
  {
    var q, r := page / alignment, page % alignment;
    assert page == q * alignment + r;
    if r != 0 {
      assert (alignment - r) % alignment == alignment - r;
      assert page + (alignment - r) == (q + 1) * alignment;
      assert ((q + 1) * alignment) % alignment == 0 by { MultipleMod(q + 1, alignment); }
    }
  }

  // ----- cutting -----

  /** Both parts of a split block stay in hand, and inherit what is known of it. */
  lemma SplitFacts(bs: seq<HeapBlock>, fl: Lists, h: nat, k: nat, zeroed: set<nat>)
    requires HeapOk(bs, fl) && InHand(bs, h) && 0 < k < bs[h].size
    ensures IsHead(bs, h) && NextOf(bs, h) < |bs| && h + k < |bs|
    ensures var bs' := Split(bs, h, k);
      && HeapOk(bs', fl) && InHand(bs', h) && InHand(bs', h + k)
      && bs'[h] == bs[h].(size := k)
      && bs'[h + k] == HeapBlock(bs[h].page + k, bs[h].size - k, k, false, bs[h].committed, bs[h].dirty)
      && UsersKept(bs, bs', {h}) && Hands(bs') == Hands(bs) + {h + k} && h in Hands(bs) && h + k !in Hands(bs)
      && !DirtDropped(bs', h + k, false)
    ensures var bs' := Split(bs, h, k);
      && Pages(Used, bs') == Pages(Used, bs) && Pages(All, bs') == Pages(All, bs)
      && Pages(Decommitted, bs') == Pages(Decommitted, bs)
    ensures var bs' := Split(bs, h, k);
      && (ZeroOk(bs, zeroed) ==> ZeroOk(bs', zeroed))
      && (CleanOk(bs, h, zeroed) ==> CleanOk(bs', h, zeroed) && CleanOk(bs', h + k, zeroed))
  {
    SplitHand(bs, fl, h, k);
    SplitZero(bs, h, k, zeroed);
    assert bs[h + k].Empty() by { assert CellOk(bs, h); }
    hide Layout, ListsOk, Coalesced, Pages, ZeroOk, CellsZero;
    SplitPages(Used, bs, h, k);
    SplitPages(Decommitted, bs, h, k);
    SplitPages(All, bs, h, k);
  }

  /** A block in hand while another one is filed. */
  lemma Untouched(bs: seq<HeapBlock>, bs': seq<HeapBlock>, x: nat, y: nat, zeroed: set<nat>)
    requires UsersKept(bs, bs', {x}) && Hands(bs') == Hands(bs) - {x} && InHand(bs, y) && y != x
    ensures InHand(bs', y) && bs'[y] == bs[y].(sizePrevious := bs'[y].sizePrevious)
    ensures CleanOk(bs, y, zeroed) ==> CleanOk(bs', y, zeroed)
  {
    assert y in Hands(bs);
    assert y in Hands(bs');
  }

  /** The blocks in use when `x`, one of the two parts x and y of block `h`, has been filed. */
  lemma CutUsers(bs: seq<HeapBlock>, b1: seq<HeapBlock>, b2: seq<HeapBlock>, h: nat, x: nat, y: nat)
    requires UsersKept(bs, b1, {h}) && UsersKept(b1, b2, {x})
    requires x == h || x !in Hands(bs)
    requires Hands(b1) == Hands(bs) + {x} + {y} && Hands(b2) == Hands(b1) - {x} && h in Hands(bs)
    requires (x == h) != (y == h) && (y == h || y !in Hands(bs)) && x != y
    ensures UsersKept(bs, b2, {h}) && Hands(b2) == Hands(bs) - {h} + {y}
  {
    assert InHand(bs, x) ==> x in Hands(bs);
    UsersKeptTransitive(bs, b1, b2, {h}, {x});
    if x != h { assert Hands(b2) == Hands(bs); assert Hands(bs) - {h} + {y} == Hands(bs); }
  }

  lemma CutUsersTwice(bs: seq<HeapBlock>, b1: seq<HeapBlock>, b2: seq<HeapBlock>, h: nat, b: nat)
    requires UsersKept(bs, b1, {h}) && Hands(b1) == Hands(bs) - {h} + {b} && (b == h || b !in Hands(bs))
    requires UsersKept(b1, b2, {b}) && Hands(b2) == Hands(b1) - {b} + {b}
    ensures UsersKept(bs, b2, {h}) && Hands(b2) == Hands(bs) - {h} + {b}
  {
    assert InHand(bs, b) ==> b in Hands(bs);
    UsersKeptTransitive(bs, b1, b2, {h}, {b});
  }

  lemma NothingCut(bs: seq<HeapBlock>, fl: Lists, h: nat)
    requires HeapOk(bs, fl) && InHand(bs, h)
    ensures h < |bs| && UsersKept(bs, bs, {h}) && Hands(bs) == Hands(bs) - {h} + {h} && h in Hands(bs)
  {
    assert h in Hands(bs);
  }

  // ----- choosing -----

  datatype Choice = None | Chosen(block: nat)

  function Need(bs: seq<HeapBlock>, h: nat, size: nat, alignment: nat): nat
    requires h < |bs| && alignment > 0
  {
    size + AlignmentSlop(bs[h].page, alignment)
  }

  /** A single free block from which the request can be met. */
  ghost predicate Suffices(bs: seq<HeapBlock>, h: nat, size: nat, alignment: nat)
    requires alignment > 0
  {
    h < |bs| && bs[h].free && bs[h].size >= Need(bs, h, size, alignment)
  }

  /** The first `i` entries of list `l`, and all entries of the lists from `start` up to it, have been passed over. */
  ghost predicate Passed(fl: Lists, start: nat, l: nat, i: nat, l': nat, i': nat) {
    start <= l' < |fl| && i' < |fl[l']| && (l' < l || (l' == l && i' < i))
  }

  /** No committed block passed so far suffices (nor, if `any` is set, a decommitted one). */
  ghost predicate NothingPassed(bs: seq<HeapBlock>, fl: Lists, start: nat, l: nat, i: nat, size: nat, alignment: nat,
                                any: bool)
    requires alignment > 0
  {
    forall l': nat, i': nat :: Passed(fl, start, l, i, l', i') && Suffices(bs, fl[l'][i'], size, alignment) ==>
      !any && !bs[fl[l'][i']].committed
  }

  /** A block that suffices is in one of the lists that are searched. */
  lemma SufficientIsSearched(bs: seq<HeapBlock>, fl: Lists, size: nat, alignment: nat, h: nat) returns (l: nat, i: nat)
    requires ListsOk(bs, fl) && size > 0 && alignment > 0 && Suffices(bs, h, size, alignment)
    ensures GetFreeListIndex(size) <= l < |fl| && i < |fl[l]| && fl[l][i] == h && Filed(bs, l, h)
  {
    l, i := FreeIsListed(bs, fl, h);
    FreeListIndexMonotone(size, bs[h].size);
  }

  lemma PassedOne(bs: seq<HeapBlock>, fl: Lists, start: nat, l: nat, i: nat, size: nat, alignment: nat, any: bool,
                  any': bool)
    requires alignment > 0 && NothingPassed(bs, fl, start, l, i, size, alignment, any) && (any' ==> any)
    requires l < |fl| && i < |fl[l]|
    requires Suffices(bs, fl[l][i], size, alignment) ==> !any' && !bs[fl[l][i]].committed
    ensures NothingPassed(bs, fl, start, l, i + 1, size, alignment, any')
  {
    forall l': nat, i': nat | Passed(fl, start, l, i + 1, l', i') && Suffices(bs, fl[l'][i'], size, alignment)
      ensures !any' && !bs[fl[l'][i']].committed
    {
      if !(l' == l && i' == i) { assert Passed(fl, start, l, i, l', i'); }
    }
  }

  lemma PassedList(bs: seq<HeapBlock>, fl: Lists, start: nat, l: nat, size: nat, alignment: nat, any: bool)
    requires alignment > 0 && l < |fl| && NothingPassed(bs, fl, start, l, |fl[l]|, size, alignment, any)
    ensures NothingPassed(bs, fl, start, l + 1, 0, size, alignment, any)
  {
    forall l': nat, i': nat | Passed(fl, start, l + 1, 0, l', i') && Suffices(bs, fl[l'][i'], size, alignment)
      ensures !any && !bs[fl[l'][i']].committed
    {
      assert Passed(fl, start, l, |fl[l]|, l', i');
    }
  }

  lemma NothingSuffices(bs: seq<HeapBlock>, fl: Lists, size: nat, alignment: nat, any: bool)
    requires ListsOk(bs, fl) && size > 0 && alignment > 0
    requires NothingPassed(bs, fl, GetFreeListIndex(size), NUM_FREE_LISTS, 0, size, alignment, any)
    ensures forall h: nat :: Suffices(bs, h, size, alignment) ==> !any && !bs[h].committed
  {
    forall h: nat | Suffices(bs, h, size, alignment)
      ensures !any && !bs[h].committed
    {
      var l, i := SufficientIsSearched(bs, fl, size, alignment, h);
      assert Passed(fl, GetFreeListIndex(size), NUM_FREE_LISTS, 0, l, i);
    }
  }

  /** The smallest committed block that is large enough. */
  ghost predicate BestFit(bs: seq<HeapBlock>, h: nat, size: nat) {
    && Suffices(bs, h, size, 1) && bs[h].committed
    && forall x: nat :: Suffices(bs, x, size, 1) && bs[x].committed ==> bs[h].size <= bs[x].size
  }

  /** The first fit in the order of the search is a best fit, if alignment is no concern. */
  lemma FirstFitIsBest(bs: seq<HeapBlock>, fl: Lists, size: nat, l: nat, i: nat, any: bool)
    requires ListsOk(bs, fl) && size > 0 && GetFreeListIndex(size) <= l < |fl| && i < |fl[l]|
    requires NothingPassed(bs, fl, GetFreeListIndex(size), l, i, size, 1, any)
    requires Suffices(bs, fl[l][i], size, 1) && bs[fl[l][i]].committed
    ensures BestFit(bs, fl[l][i], size)
  {
    var h := fl[l][i];
    forall x: nat | Suffices(bs, x, size, 1) && bs[x].committed
      ensures bs[h].size <= bs[x].size
    {
      var k, j := SufficientIsSearched(bs, fl, size, 1, x);
      assert ListOk(bs, l, fl[l]) && Filed(bs, l, h);
      if Passed(fl, GetFreeListIndex(size), l, i, k, j) {
      } else if k > l && bs[h].size > bs[x].size {
        FreeListIndexMonotone(bs[x].size, bs[h].size);
      }
    }
  }

  /** No single committed block suffices. */
  ghost predicate OnlyRuns(bs: seq<HeapBlock>, size: nat, alignment: nat)
    requires alignment > 0
  {
    forall h: nat :: Suffices(bs, h, size, alignment) ==> !bs[h].committed
  }

  /** No single free block suffices at all. */
  ghost predicate NoBlock(bs: seq<HeapBlock>, size: nat, alignment: nat)
    requires alignment > 0
  {
    forall h: nat :: !Suffices(bs, h, size, alignment)
  }

  // ----- maximal runs -----

  /** The block before, if there is one, is in use. */
  ghost predicate NoneBefore(bs: seq<HeapBlock>, a: nat)
    requires a < |bs|
  {
    !(0 < bs[a].sizePrevious <= a && bs[a - bs[a].sizePrevious].free)
  }

  /** Cells a..e are adjacent free blocks with no free block before or after. */
  ghost predicate MaximalSpan(bs: seq<HeapBlock>, a: nat, e: nat) {
    a < e < |bs| && FreeSpan(bs, a, e) && !bs[e].free && NoneBefore(bs, a)
  }

  lemma FreeBlockSpan(bs: seq<HeapBlock>, h: nat)
    requires Layout(bs) && h < |bs| && bs[h].free
    ensures IsHead(bs, h) && h < NextOf(bs, h) < |bs| && FreeSpan(bs, h, NextOf(bs, h))
  {
    assert CellOk(bs, h);
    NextIn(bs, h);
    assert FreeSpan(bs, NextOf(bs, h), NextOf(bs, h));
  }

  lemma PrevOfRun(bs: seq<HeapBlock>, fl: Lists, h: nat)
    requires HeapOk(bs, fl) && h < |bs| && bs[h].sizePrevious > 0
    ensures bs[h].sizePrevious <= h
    ensures IsHead(bs, h - bs[h].sizePrevious) && NextOf(bs, h - bs[h].sizePrevious) == h
  {
    PrevIn(bs, h);
  }

  lemma NextOfRun(bs: seq<HeapBlock>, fl: Lists, h: nat)
    requires HeapOk(bs, fl) && IsHead(bs, h)
    ensures h < NextOf(bs, h) < |bs|
  {
    NextIn(bs, h);
  }

  lemma FreeIsHead(bs: seq<HeapBlock>, fl: Lists, h: nat)
    requires HeapOk(bs, fl) && h < |bs|
    ensures bs[h].free ==> IsHead(bs, h)
  {
    assert CellOk(bs, h);
  }

  lemma SpanPrepend(bs: seq<HeapBlock>, p: nat, a: nat, b: nat)
    requires p < a <= b && a <= |bs| && bs[p].free && bs[p].size > 0 && NextOf(bs, p) == a && FreeSpan(bs, a, b)
    ensures FreeSpan(bs, p, b)
  {
  }

  /** Some adjacent free blocks, block `h` among them, hold the request from the first of them on. */
  ghost predicate RunAround(bs: seq<HeapBlock>, h: nat, size: nat, alignment: nat)
    requires alignment > 0
  {
    exists f: nat, e: nat :: HoldsRequest(bs, h, f, e, size, alignment)
  }

  ghost predicate HoldsRequest(bs: seq<HeapBlock>, h: nat, f: nat, e: nat, size: nat, alignment: nat)
    requires alignment > 0
  {
    f <= h < e && f < |bs| && FreeSpan(bs, f, e) && e - f >= Need(bs, f, size, alignment)
  }

  /** In a span, what is not empty is a free block, and one that is not the first has a free block before it. */
  lemma {:induction false} SpanCell(bs: seq<HeapBlock>, f: nat, e: nat, x: nat)
    requires Layout(bs) && FreeSpan(bs, f, e) && f <= x < e && x < |bs| && !bs[x].Empty()
    ensures bs[x].free && (f < x ==> 0 < bs[x].sizePrevious <= x && bs[x - bs[x].sizePrevious].free)
    ensures bs[x].page == bs[f].page + (x - f)
    decreases e - f
  {
    NextIn(bs, f);
    var n := NextOf(bs, f);
    assert CellOk(bs, f) && CellOk(bs, n);
    if x > n {
      SpanCell(bs, n, e, x);
    }
    if x >= n { assert bs[n].page == bs[f].page + bs[f].size; }
  }

  lemma {:induction false} SpanEnd(bs: seq<HeapBlock>, f: nat, e: nat)
    requires Layout(bs) && FreeSpan(bs, f, e) && f < e
    ensures e < |bs| && bs[e].sizePrevious > 0
    decreases e - f
  {
    NextIn(bs, f);
    if NextOf(bs, f) < e { SpanEnd(bs, NextOf(bs, f), e); }
  }

  /** Starting later wastes no fewer pages than starting earlier. */
  lemma SlopMonotone(page: nat, k: nat, alignment: nat)
    requires alignment > 0
    ensures AlignmentSlop(page, alignment) <= k + AlignmentSlop(page + k, alignment)
    ensures AlignmentSlop(page, alignment) >= k ==>
      AlignmentSlop(page, alignment) == k + AlignmentSlop(page + k, alignment)
  {
    var s, t: nat := AlignmentSlop(page, alignment), k + AlignmentSlop(page + k, alignment);
    hide AlignmentSlop;
    assert (page + s) % alignment == 0 && (page + t) % alignment == 0;
    if t < s {
      SameMultiple(page + t, page + s, alignment);
    } else if s >= k && s < t {
      SameMultiple(page + s, page + t, alignment);
    }
  }

  /** Two multiples of a number are at least that far apart. */
  lemma SameMultiple(x: nat, y: nat, m: nat)
    requires m > 0 && x % m == 0 && y % m == 0 && x < y
    ensures y - x >= m
  {
    var p: nat, q: nat := x / m, y / m;
    assert x == p * m + x % m && y == q * m + y % m;
    if p < q { MulStrict(p, q, m); }
    if q < p { MulStrict(q, p, m); }
  }

  /** A span that shares a block with a maximal one is part of it. */
  lemma SpanInside(bs: seq<HeapBlock>, h: nat, a: nat, e: nat, f: nat, e': nat)
    requires Layout(bs) && MaximalSpan(bs, a, e) && a <= h < e && IsHead(bs, h)
    requires FreeSpan(bs, f, e') && f <= h < e' && f < |bs|
    ensures a <= f && e' <= e && bs[f].page == bs[a].page + (f - a)
  {
    assert CellOk(bs, a);
    SpanEnd(bs, a, e);
    if f < a { SpanCell(bs, f, e', a); assert false; }
    if e < e' { SpanCell(bs, f, e', e); assert false; }
    SpanCell(bs, a, e, f);
  }

  /** If even the whole of a maximal span is too short, nothing around the block will do. */
  lemma NothingAround(bs: seq<HeapBlock>, h: nat, a: nat, e: nat, size: nat, alignment: nat)
    requires Layout(bs) && alignment > 0 && MaximalSpan(bs, a, e) && a <= h < e && IsHead(bs, h)
    requires e - a < Need(bs, a, size, alignment)
    ensures !RunAround(bs, h, size, alignment)
  {
    forall f: nat, e': nat | f <= h < e' && f < |bs| && FreeSpan(bs, f, e')
      ensures e' - f < Need(bs, f, size, alignment)
    {
      SpanInside(bs, h, a, e, f, e');
      SlopMonotone(bs[a].page, f - a, alignment);
    }
  }

  /** No decommitted block in the lists that are searched is part of a run that suffices. */
  ghost predicate NoRunListed(bs: seq<HeapBlock>, fl: Lists, size: nat, alignment: nat)
    requires size > 0 && alignment > 0
  {
    RunsPassed(bs, fl, GetFreeListIndex(size), |fl|, 0, size, alignment)
  }

  /** The heap has a block to give, or a run that the search comes across. */
  ghost predicate AtHand(bs: seq<HeapBlock>, fl: Lists, size: nat, alignment: nat, useVirtualMemory: bool) {
    size > 0 && alignment > 0 && !(OnlyRuns(bs, size, alignment) && (useVirtualMemory ==> NoRunListed(bs, fl, size, alignment)))
  }

  lemma AtHandIs(bs: seq<HeapBlock>, fl: Lists, size: nat, alignment: nat, useVirtualMemory: bool)
    requires size > 0 && alignment > 0
    ensures !AtHand(bs, fl, size, alignment, useVirtualMemory) <==>
      OnlyRuns(bs, size, alignment) && (useVirtualMemory ==> NoRunListed(bs, fl, size, alignment))
  {
  }

  ghost predicate RunsPassed(bs: seq<HeapBlock>, fl: Lists, start: nat, l: nat, i: nat, size: nat, alignment: nat)
    requires alignment > 0
  {
    forall l': nat, i': nat :: Passed(fl, start, l, i, l', i') && fl[l'][i'] < |bs| && !bs[fl[l'][i']].committed ==>
      !RunAround(bs, fl[l'][i'], size, alignment)
  }

  lemma RunsPassedOne(bs: seq<HeapBlock>, fl: Lists, start: nat, l: nat, i: nat, size: nat, alignment: nat)
    requires alignment > 0 && RunsPassed(bs, fl, start, l, i, size, alignment) && l < |fl| && i < |fl[l]|
    requires fl[l][i] < |bs| && !bs[fl[l][i]].committed ==> !RunAround(bs, fl[l][i], size, alignment)
    ensures RunsPassed(bs, fl, start, l, i + 1, size, alignment)
  {
    forall l': nat, i': nat | Passed(fl, start, l, i + 1, l', i') && fl[l'][i'] < |bs| && !bs[fl[l'][i']].committed
      ensures !RunAround(bs, fl[l'][i'], size, alignment)
    {
      if !(l' == l && i' == i) { assert Passed(fl, start, l, i, l', i'); }
    }
  }

  lemma RunsPassedList(bs: seq<HeapBlock>, fl: Lists, start: nat, l: nat, size: nat, alignment: nat)
    requires alignment > 0 && l < |fl| && RunsPassed(bs, fl, start, l, |fl[l]|, size, alignment)
    ensures RunsPassed(bs, fl, start, l + 1, 0, size, alignment)
  {
    forall l': nat, i': nat | Passed(fl, start, l + 1, 0, l', i') && fl[l'][i'] < |bs| && !bs[fl[l'][i']].committed
      ensures !RunAround(bs, fl[l'][i'], size, alignment)
    {
      assert Passed(fl, start, l, |fl[l]|, l', i');
    }
  }

  lemma RunListed(bs: seq<HeapBlock>, fl: Lists, l: nat, i: nat, size: nat, alignment: nat)
    requires size > 0 && alignment > 0 && GetFreeListIndex(size) <= l < |fl| && i < |fl[l]|
    requires fl[l][i] < |bs| && !bs[fl[l][i]].committed && RunAround(bs, fl[l][i], size, alignment)
    ensures !NoRunListed(bs, fl, size, alignment)
  {
    assert Passed(fl, GetFreeListIndex(size), |fl|, 0, l, i);
  }

  // ----- zero pages in front of an aligned block -----

  /** No free block stands before block `h`, or the first aligned page is in the block itself. */
  ghost predicate FrontSafe(bs: seq<HeapBlock>, h: nat, alignment: nat)
    requires alignment > 0
  {
    h < |bs| && (AlignmentSlop(bs[h].page, alignment) < bs[h].size || NoneBefore(bs, h))
  }

  /** A run that `k` more pages in front made long enough has its first aligned page among them. */
  lemma SlopInFirst(page: nat, k: nat, total: nat, size: nat, alignment: nat)
    requires alignment > 0 && total < size + AlignmentSlop(page + k, alignment)
    requires total + k >= size + AlignmentSlop(page, alignment)
    ensures AlignmentSlop(page, alignment) < k
  {
    SlopMonotone(page, k, alignment);
  }

  /** What is before the finished block is as it was. */
  lemma BuiltFront(bs: seq<HeapBlock>, bs1: seq<HeapBlock>, h: nat, need: nat)
    requires Layout(bs) && Built(bs, bs1, h, need)
    ensures h < |bs| == |bs1| && bs1[h].page == bs[h].page && bs1[h].size >= need
    ensures bs1[h].sizePrevious == bs[h].sizePrevious <= h
    ensures bs[h].sizePrevious > 0 ==>
      bs1[h - bs[h].sizePrevious] == bs[h - bs[h].sizePrevious] && NextOf(bs, h - bs[h].sizePrevious) == h
  {
    assert CellOk(bs, h);
    hide Pages, FreeRun, RunEnd, UsersKept, Hands;
  }

  /**
   The pages in front of the aligned ones can be given back: they do not join a clean
   block, or they belong to a block that has just come back zero.
   */
  lemma FrontZero(bs: seq<HeapBlock>, bs1: seq<HeapBlock>, h: nat, need: nat, alignment: nat, zeroed: set<nat>)
    requires Layout(bs) && Coalesced(bs) && Built(bs, bs1, h, need) && bs[h].free
    requires alignment > 0 && FrontSafe(bs, h, alignment) && need >= AlignmentSlop(bs[h].page, alignment)
    requires !bs[h].committed ==> forall x :: h <= x < NextOf(bs, h) && x < NextOf(bs1, h) ==> x in zeroed
    ensures h < |bs1| && FrontClear(bs1, h, h + AlignmentSlop(bs1[h].page, alignment), zeroed)
  {
    BuiltFront(bs, bs1, h, need);
    hide Built, Layout, AlignmentSlop;
  }

  /** The pages of block `h` before cell `b` do not join a clean block, or are zero themselves. */
  ghost predicate FrontClear(bs: seq<HeapBlock>, h: nat, b: nat, zeroed: set<nat>)
    requires h < |bs|
  {
    PrevDiffers(bs, h, true) || zeroed == {} || forall x :: h <= x < b ==> x in zeroed
  }

  /** Giving back the pages in front of the aligned ones drops no dirt that matters. */
  lemma SlopKept(bs: seq<HeapBlock>, fl: Lists, h: nat, k: nat, zeroed: set<nat>)
    requires HeapOk(bs, fl) && InHand(bs, h) && 0 < k < bs[h].size
    requires ZeroOk(bs, zeroed) && FrontClear(bs, h, h + k, zeroed)
    ensures NextOf(bs, h) < |bs|
    ensures h < |Split(bs, h, k)|
    ensures DirtDropped(Split(bs, h, k), h, false) ==> CellsZero(Split(bs, h, k), h, zeroed)
  {
    NextIn(bs, h);
    var bs' := Split(bs, h, k);
    assert CellOk(bs, h);
    hide HeapOk;
    if DirtDropped(bs', h, false) {
      var p := h - bs[h].sizePrevious;
      assert bs'[p] == bs[p];
      if zeroed == {} { FreeIsDirty(bs, p); assert false; }
    }
  }

  lemma FitFront(bs: seq<HeapBlock>, h: nat, b: nat, zeroed: set<nat>)
    requires h < |bs| && bs[h].committed && PrevDiffers(bs, h, bs[h].committed)
    ensures FrontClear(bs, h, b, zeroed)
  {
  }

  lemma DirtyFront(bs: seq<HeapBlock>, h: nat, b: nat)
    requires h < |bs|
    ensures FrontClear(bs, h, b, {})
  {
  }

  lemma RunZero(bs: seq<HeapBlock>, fl: Lists, bs1: seq<HeapBlock>, h: nat, size: nat, alignment: nat, zeroed: set<nat>)
    requires HeapOk(bs, fl) && alignment > 0 && h < |bs| && bs[h].free && FrontSafe(bs, h, alignment)
    requires Built(bs, bs1, h, size + AlignmentSlop(bs[h].page, alignment))
    requires !bs[h].committed ==> forall x :: h <= x < NextOf(bs, h) && x < NextOf(bs1, h) ==> x in zeroed
    ensures h < |bs1| && FrontClear(bs1, h, h + AlignmentSlop(bs1[h].page, alignment), zeroed)
  {
    FrontZero(bs, bs1, h, size + AlignmentSlop(bs[h].page, alignment), alignment, zeroed);
  }

  lemma ThisRunAround(bs: seq<HeapBlock>, h: nat, f: nat, e: nat, size: nat, alignment: nat)
    requires alignment > 0 && f <= h < e && f < |bs| && FreeSpan(bs, f, e) && e - f >= Need(bs, f, size, alignment)
    ensures RunAround(bs, h, size, alignment)
  {
    assert HoldsRequest(bs, h, f, e, size, alignment);
  }

  lemma BackPages(bs: seq<HeapBlock>, p: nat)
    requires Layout(bs) && IsHead(bs, p) && NextOf(bs, p) < |bs| && IsHead(bs, NextOf(bs, p))
    ensures bs[NextOf(bs, p)].page == bs[p].page + bs[p].size
  {
    assert CellOk(bs, p) && CellOk(bs, NextOf(bs, p));
  }

  /** The run that the search comes back with. */
  ghost predicate RunFound(bs: seq<HeapBlock>, h: nat, size: nat, alignment: nat)
    requires alignment > 0
  {
    && h < |bs| && bs[h].free && IsHead(bs, h)
    && FreeRun(bs, h, Need(bs, h, size, alignment)) && FrontSafe(bs, h, alignment)
  }

  lemma RunIsFound(bs: seq<HeapBlock>, h: nat, size: nat, alignment: nat)
    requires alignment > 0 && h < |bs| && bs[h].free && IsHead(bs, h)
    requires FreeRun(bs, h, Need(bs, h, size, alignment)) && FrontSafe(bs, h, alignment)
    ensures RunFound(bs, h, size, alignment)
  {
  }

  lemma FoundRun(bs: seq<HeapBlock>, h: nat, size: nat, alignment: nat)
    requires alignment > 0 && RunFound(bs, h, size, alignment)
    ensures h < |bs| && bs[h].free && IsHead(bs, h)
    ensures FreeRun(bs, h, Need(bs, h, size, alignment)) && FrontSafe(bs, h, alignment)
  {
  }

  lemma NotOnlyRuns(bs: seq<HeapBlock>, h: nat, size: nat, alignment: nat)
    requires alignment > 0 && Suffices(bs, h, size, alignment) && bs[h].committed
    ensures !OnlyRuns(bs, size, alignment)
  {
  }

  lemma NoRunLeft(bs: seq<HeapBlock>, fl: Lists, size: nat, alignment: nat)
    requires HeapOk(bs, fl) && size > 0 && alignment > 0
    requires RunsPassed(bs, fl, GetFreeListIndex(size), NUM_FREE_LISTS, 0, size, alignment)
    ensures NoRunListed(bs, fl, size, alignment)
  {
    assert |fl| == NUM_FREE_LISTS;
  }

  // ----- the search -----

  lemma NothingYet(bs: seq<HeapBlock>, fl: Lists, start: nat, size: nat, alignment: nat, any: bool)
    requires alignment > 0
    ensures NothingPassed(bs, fl, start, start, 0, size, alignment, any)
    ensures RunsPassed(bs, fl, start, start, 0, size, alignment)
  {
  }

  lemma SufficesIs(bs: seq<HeapBlock>, h: nat, size: nat, alignment: nat)
    requires alignment > 0 && h < |bs| && bs[h].free
    ensures Suffices(bs, h, size, alignment) <==> bs[h].size >= size + AlignmentSlop(bs[h].page, alignment)
  {
  }

  lemma ListedFree(bs: seq<HeapBlock>, fl: Lists, l: nat, i: nat)
    requires HeapOk(bs, fl) && l < |fl| && i < |fl[l]|
    ensures fl[l][i] < |bs| && bs[fl[l][i]].free
  {
    ListedIsFree(bs, fl, l, i);
  }

  lemma ChosenIsBest(bs: seq<HeapBlock>, fl: Lists, size: nat, l: nat, i: nat, any: bool)
    requires HeapOk(bs, fl) && size > 0 && GetFreeListIndex(size) <= l < |fl| && i < |fl[l]|
    requires NothingPassed(bs, fl, GetFreeListIndex(size), l, i, size, 1, any)
    requires Suffices(bs, fl[l][i], size, 1) && bs[fl[l][i]].committed
    ensures BestFit(bs, fl[l][i], size)
  {
    FirstFitIsBest(bs, fl, size, l, i, any);
  }

  lemma NothingLeft(bs: seq<HeapBlock>, fl: Lists, size: nat, alignment: nat, any: bool)
    requires HeapOk(bs, fl) && size > 0 && alignment > 0
    requires NothingPassed(bs, fl, GetFreeListIndex(size), NUM_FREE_LISTS, 0, size, alignment, any)
    ensures OnlyRuns(bs, size, alignment) && (any ==> NoBlock(bs, size, alignment))
  {
    NothingSuffices(bs, fl, size, alignment, any);
  }

  // ----- the result -----

  /**
   Block `b`, cut out of what began at the free block `h`, is in use, committed, aligned and of the
   size asked for.
   */
  ghost predicate Allocated(bs: seq<HeapBlock>, bs': seq<HeapBlock>, h: nat, b: nat, size: nat, alignment: nat)
    requires alignment > 0
  {
    && h < |bs| && bs[h].free && b < |bs'|
    && b == h + AlignmentSlop(bs[h].page, alignment)
    && InHand(bs', b) && bs'[b].size == size && bs'[b].committed
    && bs'[b].page == bs[h].page + (b - h) && bs'[b].page % alignment == 0
    && UsersKept(bs, bs', {}) && Hands(bs') == Hands(bs) + {b} && b !in Hands(bs)
    && Pages(Used, bs') == Pages(Used, bs) + size && Pages(All, bs') == Pages(All, bs)
  }

  /** Block `h` is a committed block that suffices, or, where there is none, it begins a run of free blocks that do. */
  ghost predicate ChosenFrom(bs: seq<HeapBlock>, h: nat, size: nat, alignment: nat, virtual: bool)
    requires alignment > 0
  {
    || (Suffices(bs, h, size, alignment) && bs[h].committed)
    || (OnlyRuns(bs, size, alignment) && virtual && h < |bs| && FreeRun(bs, h, Need(bs, h, size, alignment)))
  }

  lemma FitFacts(bs: seq<HeapBlock>, fl: Lists, h: nat, size: nat, alignment: nat, zeroed: set<nat>)
    requires HeapOk(bs, fl) && alignment > 0 && size > 0 && Suffices(bs, h, size, alignment) && bs[h].committed
    ensures h < |bs| && bs[h].free && forall virtual :: ChosenFrom(bs, h, size, alignment, virtual)
    ensures var bs1 := Unlinked(bs, h);
      && InHand(bs1, h) && bs1[h] == bs[h].(free := false)
      && bs1[h].size >= size + AlignmentSlop(bs1[h].page, alignment)
      && Pages(Used, bs1) == Pages(Used, bs) + bs[h].size
      && Pages(Decommitted, bs1) == Pages(Decommitted, bs) && Pages(All, bs1) == Pages(All, bs)
      && (ZeroOk(bs, zeroed) ==> ZeroOk(bs1, zeroed) && CleanOk(bs1, h, zeroed))
  {
    FreeIsHead(bs, fl, h);
    UnlinkPages(bs, h);
    if ZeroOk(bs, zeroed) { UnlinkZero(bs, h, zeroed); }
  }

  /** Both ways of allocating end with a block cut out of a committed block in hand. */
  lemma CutAllocated(bs: seq<HeapBlock>, bs1: seq<HeapBlock>, bs2: seq<HeapBlock>, h: nat, b: nat, size: nat,
                     alignment: nat)
    requires alignment > 0 && h < |bs| == |bs1| && bs[h].free && bs1[h].page == bs[h].page
    requires UsersKept(bs, bs1, {}) && Hands(bs1) == Hands(bs) + {h} && h !in Hands(bs)
    requires Pages(Used, bs1) == Pages(Used, bs) + bs1[h].size && Pages(All, bs1) == Pages(All, bs)
    requires UsersKept(bs1, bs2, {h}) && Hands(bs2) == Hands(bs1) - {h} + {b} && (b == h || b !in Hands(bs1))
    requires b == h + AlignmentSlop(bs1[h].page, alignment) && b < |bs2| && InHand(bs2, b) && bs2[b].size == size
    requires bs2[b].committed && bs2[b].page == bs1[h].page + (b - h)
    requires Pages(Used, bs2) == Pages(Used, bs1) - bs1[h].size + size && Pages(All, bs2) == Pages(All, bs1)
    ensures Allocated(bs, bs2, h, b, size, alignment)
  {
    hide Pages, UsersKept, Hands;
    CutFreeUsers(bs, bs1, bs2, h, b);
  }

  lemma CutFreeUsers(bs: seq<HeapBlock>, bs1: seq<HeapBlock>, bs2: seq<HeapBlock>, h: nat, b: nat)
    requires h < |bs| && bs[h].free
    requires UsersKept(bs, bs1, {}) && Hands(bs1) == Hands(bs) + {h} && h !in Hands(bs)
    requires UsersKept(bs1, bs2, {h}) && Hands(bs2) == Hands(bs1) - {h} + {b} && (b == h || b !in Hands(bs1))
    ensures UsersKept(bs, bs2, {}) && Hands(bs2) == Hands(bs) + {b} && b !in Hands(bs)
  {
    assert Hands(bs2) == Hands(bs) + {b};
    UsersKeptTransitive(bs, bs1, bs2, {}, {h});
  }

  /** The run found for want of a committed block can be handed to CreateCommittedBlock. */
  lemma RunFacts(bs: seq<HeapBlock>, h: nat, size: nat, alignment: nat, virtual: bool)
    requires virtual && alignment > 0 && h < |bs| && bs[h].free && OnlyRuns(bs, size, alignment)
    requires FreeRun(bs, h, Need(bs, h, size, alignment))
    ensures Need(bs, h, size, alignment) == size + AlignmentSlop(bs[h].page, alignment)
    ensures bs[h].committed ==> bs[h].size < size + AlignmentSlop(bs[h].page, alignment)
    ensures Suffices(bs, h, size, alignment) <==> bs[h].size >= size + AlignmentSlop(bs[h].page, alignment)
    ensures ChosenFrom(bs, h, size, alignment, virtual)
  {
    assert Suffices(bs, h, size, alignment) ==> !bs[h].committed;
  }

  lemma BuiltFacts(bs: seq<HeapBlock>, bs1: seq<HeapBlock>, h: nat, size: nat, alignment: nat)
    requires alignment > 0 && h < |bs| && Built(bs, bs1, h, size + AlignmentSlop(bs[h].page, alignment))
    ensures h < |bs1| == |bs| && InHand(bs1, h) && bs1[h].committed && bs1[h].page == bs[h].page
    ensures bs1[h].size >= size + AlignmentSlop(bs1[h].page, alignment)
    ensures UsersKept(bs, bs1, {}) && Hands(bs1) == Hands(bs) + {h} && h !in Hands(bs)
    ensures Pages(Used, bs1) == Pages(Used, bs) + bs1[h].size && Pages(All, bs1) == Pages(All, bs)
  {
    hide Pages, FreeRun, RunEnd, Hands;
  }

  // ----- between operations -----

  /** A block in use is committed; only while an operation is under way a decommitted block may be in hand. */
  ghost predicate UsersCommitted(bs: seq<HeapBlock>) {
    forall i: nat :: InHand(bs, i) ==> bs[i].committed
  }

  lemma UsersStayCommitted(bs: seq<HeapBlock>, bs': seq<HeapBlock>, s: set<nat>)
    requires UsersCommitted(bs) && UsersKept(bs, bs', s) && Hands(bs') <= Hands(bs)
    requires forall i :: i in s ==> i !in Hands(bs')
    ensures UsersCommitted(bs')
  {
    forall i: nat | InHand(bs', i) ensures bs'[i].committed {
      assert i in Hands(bs');
      assert i in Hands(bs);
    }
  }

  lemma AllocatedBlock(bs: seq<HeapBlock>, bs': seq<HeapBlock>, fl': Lists, h: nat, b: nat, size: nat, alignment: nat,
                       zeroed: set<nat>)
    requires alignment > 0 && Allocated(bs, bs', h, b, size, alignment) && HeapOk(bs', fl')
    ensures b < |bs'| && InHand(bs', b) && bs'[b].size == size && bs'[b].page > 0 && bs'[b].page % alignment == 0
    ensures CleanOk(bs', b, zeroed) && !bs'[b].dirty ==> CellsZero(bs', b, zeroed)
  {
    hide UsersKept, Hands, Pages, ListsOk, Coalesced;
    assert CellOk(bs', b);
  }

  lemma WriteKeepsZero(bs: seq<HeapBlock>, fl: Lists, h: nat, zeroed: set<nat>)
    requires HeapOk(bs, fl) && InHand(bs, h) && ZeroOk(bs, zeroed)
    ensures ZeroOk(bs, zeroed - Cells(bs, h))
  {
    forall i: nat | i < |bs| && bs[i].free ensures CleanOk(bs, i, zeroed - Cells(bs, h)) {
      assert CleanOk(bs, i, zeroed);
      FreeIsHead(bs, fl, i);
      if i < h { HeadsApart(bs, i, h); } else { HeadsApart(bs, h, i); }
    }
  }
}
