/**
 Runs of adjacent free blocks, and the building of one committed block out of a
 run: what CreateCommittedBlock keeps from one block of the run to the next.
 */
module HeapRuns {
  import opened HeapLayout
  import opened FreeLists
  import opened HeapSteps

  // ----- runs -----

  /** The free blocks from cell `i` on hold at least `need` pages. */
  ghost predicate FreeRun(bs: seq<HeapBlock>, i: nat, need: int)
    decreases need
  {
    need > 0 ==> i < |bs| && bs[i].free && bs[i].size > 0 && FreeRun(bs, NextOf(bs, i), need - bs[i].size)
  }

  /** Where the blocks of a run that are needed end. */
  ghost function RunEnd(bs: seq<HeapBlock>, i: nat, need: int): nat
    requires FreeRun(bs, i, need)
    decreases need
  {
    if need <= 0 then i else RunEnd(bs, NextOf(bs, i), need - bs[i].size)
  }

  /** The last of them. */
  ghost function RunLast(bs: seq<HeapBlock>, i: nat, need: int): (last: nat)
    requires FreeRun(bs, i, need) && need > 0
    ensures last < |bs| && bs[last].free && NextOf(bs, last) == RunEnd(bs, i, need)
    decreases need
  {
    if need <= bs[i].size then i else RunLast(bs, NextOf(bs, i), need - bs[i].size)
  }

  /** Cells a..b are exactly some adjacent free blocks. */
  ghost predicate FreeSpan(bs: seq<HeapBlock>, a: nat, b: nat)
    decreases b - a
  {
    a != b ==> a < b && a < |bs| && bs[a].free && bs[a].size > 0 && NextOf(bs, a) <= b && FreeSpan(bs, NextOf(bs, a), b)
  }

  lemma {:induction false} SpanAppend(bs: seq<HeapBlock>, a: nat, b: nat)
    requires FreeSpan(bs, a, b) && b < |bs| && bs[b].free && bs[b].size > 0
    ensures FreeSpan(bs, a, NextOf(bs, b))
    decreases b - a
  {
    if a == b {
      assert FreeSpan(bs, NextOf(bs, b), NextOf(bs, b));
    } else {
      SpanAppend(bs, NextOf(bs, a), b);
    }
  }

  lemma {:induction false} SpanIsRun(bs: seq<HeapBlock>, a: nat, b: nat, need: int)
    requires FreeSpan(bs, a, b) && b - a >= need
    ensures FreeRun(bs, a, need)
    decreases b - a
  {
    if need > 0 { SpanIsRun(bs, NextOf(bs, a), b, need - bs[a].size); }
  }

  /** No block in use lies in a span. */
  lemma {:induction false} SpanHasNoUsers(bs: seq<HeapBlock>, a: nat, b: nat, x: nat)
    requires Layout(bs) && FreeSpan(bs, a, b) && a <= x < b
    ensures x < |bs| && !InHand(bs, x)
    decreases b - a
  {
    assert CellOk(bs, a);
    if x >= NextOf(bs, a) {
      SpanHasNoUsers(bs, NextOf(bs, a), b, x);
    } else if x > a {
      assert bs[x].Empty();
    }
  }

  // ----- pruning -----

  /** How much of a decommitted block is used when it is the last of a run. */
  function PrunedSize(size: nat, available: nat, request: nat): (k: nat)
    requires request <= available < request + size
    ensures 0 < k <= size
  {
    var toCommit := if request > MIN_HEAP_INCREMENT then request else MIN_HEAP_INCREMENT;
    var leftOver := available - request;
    if available > toCommit && leftOver > 0 then size - leftOver else size
  }

  /** How much is taken of the next block of a run that has `have` of the `need` pages. */
  function TakenSize(size: nat, committed: bool, have: nat, need: nat): nat
    requires have < need
  {
    if !committed && have + size > Most(need, MIN_HEAP_INCREMENT) then need - have else size
  }

  /**
   The blocks of the run from `h` up to cell `e` make `size` pages, `amount` of which were
   decommitted.  Of the last block that is needed a part has been split off exactly if it
   was decommitted and taking all of it would make more than is needed and more than 32
   pages.
   */
  ghost predicate WellCut(bs0: seq<HeapBlock>, h: nat, e: nat, need: nat, size: nat, amount: int) {
    && 0 < need && h <= e && FreeRun(bs0, h, need)
    && (if e - h < need
        then size == e - h && FreeRun(bs0, e, need - (e - h)) && RunLast(bs0, e, need - (e - h)) == RunLast(bs0, h, need)
        else size == if !bs0[RunLast(bs0, h, need)].committed && e - h > Most(need, 32) then need else e - h)
    && 0 <= amount <= size && amount <= Most(need, 32)
  }

  lemma WellCutStart(bs0: seq<HeapBlock>, h: nat, need: nat)
    requires FreeRun(bs0, h, need) && 0 < need && bs0[h].size < need
    ensures WellCut(bs0, h, NextOf(bs0, h), need, bs0[h].size, if bs0[h].committed then 0 else bs0[h].size)
  {
  }

  lemma WellCutStep(bs0: seq<HeapBlock>, h: nat, e: nat, need: nat, size: nat, amount: nat)
    requires WellCut(bs0, h, e, need, size, amount) && size < need
    ensures e == h + size && e < |bs0|
    ensures var k := TakenSize(bs0[e].size, bs0[e].committed, size, need);
      WellCut(bs0, h, NextOf(bs0, e), need, size + k, if bs0[e].committed then amount else amount + k)
  {
  }

  /** A run of one block. */
  lemma WellCutOne(bs0: seq<HeapBlock>, h: nat, need: nat)
    requires FreeRun(bs0, h, need) && 0 < need <= bs0[h].size && !bs0[h].committed
    ensures var k := PrunedSize(bs0[h].size, bs0[h].size, need); WellCut(bs0, h, RunEnd(bs0, h, need), need, k, k)
  {
    assert RunEnd(bs0, h, need) == NextOf(bs0, h);
  }

  /** The same in terms of sizes. */
  lemma WellCutSizes(bs0: seq<HeapBlock>, h: nat, need: nat, size: nat, amount: int)
    requires FreeRun(bs0, h, need) && need > 0 && WellCut(bs0, h, RunEnd(bs0, h, need), need, size, amount)
    ensures var last, e := RunLast(bs0, h, need), RunEnd(bs0, h, need);
      && need <= size <= e - h && 0 <= amount <= Most(need, 32)
      && (!bs0[last].committed ==> size <= Most(need, 32))
      && (size < e - h ==> !bs0[last].committed && size == need && e - h > 32)
  {
    EndIsFar(bs0, h, need);
  }

  lemma {:induction false} EndIsFar(bs0: seq<HeapBlock>, h: nat, need: int)
    requires FreeRun(bs0, h, need)
    ensures RunEnd(bs0, h, need) >= h + need
    decreases need
  {
    if need > 0 { EndIsFar(bs0, NextOf(bs0, h), need - bs0[h].size); }
  }

  /** Only the first k pages of block n stay in hand. */
  function Trimmed(bs: seq<HeapBlock>, n: nat, k: nat): (bs': seq<HeapBlock>)
    requires IsHead(bs, n) && 0 < k <= bs[n].size && NextOf(bs, n) < |bs|
    ensures |bs'| == |bs|
  {
    if k == bs[n].size then bs else Linked(Split(bs, n, k), n + k)
  }

  /** The rest of a decommitted block can be filed as it is. */
  lemma SplitFiled(bs: seq<HeapBlock>, fl: Lists, n: nat, k: nat)
    requires HeapOk(bs, fl) && InHand(bs, n) && 0 < k < bs[n].size && !bs[n].committed && NextDiffers(bs, n, false)
    ensures NextOf(bs, n) < |bs|
    ensures var bs' := Split(bs, n, k);
      && HeapOk(bs', fl) && InHand(bs', n + k) && !bs'[n + k].committed
      && PrevDiffers(bs', n + k, false) && NextDiffers(bs', n + k, false)
      && Linked(Reflagged(bs', n + k, false, bs'[n + k].dirty || false), n + k) == Trimmed(bs, n, k)
  {
    SplitHand(bs, fl, n, k);
    hide HeapOk;
    var bs' := Split(bs, n, k);
    assert Reflagged(bs', n + k, false, bs'[n + k].dirty) == bs';
  }

  /** What PruneDecommittedBlock decides. */
  lemma PruneReady(bs: seq<HeapBlock>, fl: Lists, n: nat, available: nat, request: nat)
    requires HeapOk(bs, fl) && InHand(bs, n) && request <= available < request + bs[n].size
    ensures n < |bs| && IsHead(bs, n) && NextOf(bs, n) < |bs| && Trimmed(bs, n, bs[n].size) == bs
    ensures PrunedSize(bs[n].size, available, request) ==
      if available > MIN_HEAP_INCREMENT && available > request then bs[n].size - (available - request) else bs[n].size
  {
    NextIn(bs, n);
  }

  /** Reading of a trim: cell by cell. */
  lemma TrimmedCells(bs: seq<HeapBlock>, n: nat, k: nat)
    requires Layout(bs) && InHand(bs, n) && 0 < k <= bs[n].size && NextOf(bs, n) < |bs|
    ensures var bs' := Trimmed(bs, n, k);
      && InHand(bs', n) && bs'[n] == bs[n].(size := k) && OnlyWithin(bs, bs', n, NextOf(bs, n))
      && (k < bs[n].size ==> bs'[n + k].free && NextOf(bs', n + k) == NextOf(bs, n) && bs'[n + k].committed == bs[n].committed)
  {
  }

  lemma TrimmedPages(bs: seq<HeapBlock>, n: nat, k: nat)
    requires Layout(bs) && InHand(bs, n) && 0 < k <= bs[n].size && NextOf(bs, n) < |bs|
    ensures var bs' := Trimmed(bs, n, k);
      && Pages(Used, bs') == Pages(Used, bs) - bs[n].size + k
      && Pages(Decommitted, bs') == Pages(Decommitted, bs) && Pages(All, bs') == Pages(All, bs)
  {
    hide Pages, Layout;
    if k < bs[n].size {
      SplitPages(Used, bs, n, k);
      SplitPages(Decommitted, bs, n, k);
      SplitPages(All, bs, n, k);
      InsertPages(Split(bs, n, k), n + k);
    }
  }

  lemma TrimmedZero(bs: seq<HeapBlock>, n: nat, k: nat, zeroed: set<nat>)
    requires Layout(bs) && InHand(bs, n) && 0 < k <= bs[n].size && NextOf(bs, n) < |bs|
    requires !bs[n].committed && ZeroOk(bs, zeroed)
    ensures ZeroOk(Trimmed(bs, n, k), zeroed)
  {
    if k < bs[n].size {
      SplitZero(bs, n, k, zeroed);
      InsertZero(Split(bs, n, k), n + k, zeroed);
    }
  }

  // ----- gathering a run into one block -----

  /**
   The block in hand at `h` has grown over the free blocks of `bs0` up to cell `e`,
   except for a trimmed rest, which is free; nothing else has changed.
   */
  ghost predicate Gathering(bs0: seq<HeapBlock>, bs: seq<HeapBlock>, h: nat, e: nat, need: nat) {
    && IsHead(bs0, h) && bs0[h].free && InHand(bs, h) && bs[h].page == bs0[h].page
    && bs[h].sizePrevious == bs0[h].sizePrevious
    && NextOf(bs, h) <= e < |bs| && OnlyWithin(bs0, bs, h, e) && FreeSpan(bs0, h, e)
    && (NextOf(bs, h) < e ==> bs[h].size == need && bs[NextOf(bs, h)].free && NextOf(bs, NextOf(bs, h)) == e)
    && FreeRun(bs0, h, need) && FreeRun(bs0, e, need - (e - h))
    && RunEnd(bs0, e, need - (e - h)) == RunEnd(bs0, h, need)
  }

  lemma GatherStart(bs0: seq<HeapBlock>, h: nat, need: nat)
    requires Layout(bs0) && IsHead(bs0, h) && bs0[h].free && FreeRun(bs0, h, need) && need > 0
    ensures Gathering(bs0, Unlinked(bs0, h), h, NextOf(bs0, h), need)
  {
    NextIn(bs0, h);
    assert FreeSpan(bs0, NextOf(bs0, h), NextOf(bs0, h));
  }

  /** Unlink the block after `h`, keep its first `k` pages and merge them in. */
  function Taken(bs: seq<HeapBlock>, h: nat, k: nat, commit: bool, dirty: bool): seq<HeapBlock>
    requires IsHead(bs, h) && IsHead(bs, NextOf(bs, h)) && NextOf(bs, NextOf(bs, h)) < |bs|
    requires 0 < k <= bs[NextOf(bs, h)].size
  {
    Merge(Prepared(bs, NextOf(bs, h), k, commit, dirty), h)
  }

  /** Block `n` just before it is merged. */
  function Prepared(bs: seq<HeapBlock>, n: nat, k: nat, commit: bool, dirty: bool): (bs': seq<HeapBlock>)
    requires IsHead(bs, n) && NextOf(bs, n) < |bs| && 0 < k <= bs[n].size
    ensures |bs'| == |bs|
  {
    var b1 := Trimmed(Unlinked(bs, n), n, k);
    if commit then Reflagged(b1, n, true, dirty) else b1
  }

  /** As long as the run is too short, the next block is free and as it was. */
  lemma GatherNext(bs0: seq<HeapBlock>, bs: seq<HeapBlock>, h: nat, e: nat, need: nat)
    requires Layout(bs0) && Layout(bs) && Gathering(bs0, bs, h, e, need) && bs[h].size < need
    ensures NextOf(bs, h) == e && bs0[e].free && bs[e].free && IsHead(bs, e)
    ensures bs[e] == bs0[e].(sizePrevious := bs[h].size) && NextOf(bs, e) < |bs|
  {
    NextIn(bs, h);
    NextIn(bs, e);
  }

  lemma TakenCells(bs: seq<HeapBlock>, h: nat, k: nat, commit: bool, dirty: bool)
    requires Layout(bs) && InHand(bs, h) && IsHead(bs, NextOf(bs, h)) && NextOf(bs, NextOf(bs, h)) < |bs|
    requires 0 < k <= bs[NextOf(bs, h)].size
    ensures var bs', n := Taken(bs, h, k, commit, dirty), NextOf(bs, h);
      && bs'[h] == bs[h].(size := bs[h].size + k) && OnlyWithin(bs, bs', h, NextOf(bs, n))
      && (k < bs[n].size ==> bs'[n + k].free && NextOf(bs', n + k) == NextOf(bs, n))
  {
    var n := NextOf(bs, h);
    UnlinkLayout(bs, n);
    hide Layout;
    TrimmedCells(Unlinked(bs, n), n, k);
    hide Trimmed;
  }

  lemma GatherStep(bs0: seq<HeapBlock>, bs: seq<HeapBlock>, h: nat, e: nat, need: nat, k: nat, commit: bool,
                   dirty: bool)
    requires Layout(bs0) && Layout(bs) && Gathering(bs0, bs, h, e, need) && bs[h].size < need
    requires IsHead(bs, e) && NextOf(bs, h) == e && NextOf(bs, e) < |bs| && 0 < k <= bs[e].size
    requires bs0[e].free && bs[e] == bs0[e].(sizePrevious := bs[h].size)
    requires k < bs[e].size ==> bs[h].size + k == need
    ensures Gathering(bs0, Taken(bs, h, k, commit, dirty), h, NextOf(bs, e), need)
    ensures Taken(bs, h, k, commit, dirty)[h] == bs[h].(size := bs[h].size + k)
  {
    SpanAppend(bs0, h, e);
    TakenCells(bs, h, k, commit, dirty);
    hide Layout, FreeSpan, RunEnd, Taken;
    assert NextOf(bs0, e) == NextOf(bs, e);
  }

  /** The blocks in use, when the run has been gathered. */
  lemma GatherUsers(bs0: seq<HeapBlock>, bs: seq<HeapBlock>, h: nat, e: nat, need: nat)
    requires Layout(bs0) && Layout(bs) && Gathering(bs0, bs, h, e, need) && SameCells(bs0, bs)
    ensures UsersKept(bs0, bs, {}) && Hands(bs) == Hands(bs0) + {h} && h !in Hands(bs0)
  {
    forall x: nat | x < |bs| && x != h
      ensures InHand(bs, x) <==> InHand(bs0, x)
      ensures InHand(bs0, x) ==> bs[x] == bs0[x].(sizePrevious := bs[x].sizePrevious)
    {
      if h < x < e {
        SpanHasNoUsers(bs0, h, e, x);
        assert CellOk(bs, h);
        if x > NextOf(bs, h) { assert CellOk(bs, NextOf(bs, h)); }
        assert x == NextOf(bs, h) || bs[x].Empty();
      }
    }
  }

  lemma GatherEnd(bs0: seq<HeapBlock>, bs: seq<HeapBlock>, h: nat, e: nat, need: nat)
    requires Gathering(bs0, bs, h, e, need) && bs[h].size >= need
    ensures e == RunEnd(bs0, h, need)
  {
  }

  // ----- the counts while gathering -----

  /** `amount` of the pages gathered so far were decommitted. */
  ghost predicate GatherPages(bs0: seq<HeapBlock>, bs: seq<HeapBlock>, h: nat, amount: nat)
    requires h < |bs|
  {
    && Pages(Used, bs) == Pages(Used, bs0) + bs[h].size
    && Pages(All, bs) == Pages(All, bs0)
    && Pages(Decommitted, bs) - Weight(Decommitted, bs[h]) == Pages(Decommitted, bs0) - amount
  }

  lemma PreparedPages(bs: seq<HeapBlock>, n: nat, k: nat, commit: bool, dirty: bool)
    requires Layout(bs) && IsHead(bs, n) && bs[n].free && NextOf(bs, n) < |bs| && 0 < k <= bs[n].size
    ensures var b2 := Prepared(bs, n, k, commit, dirty);
      && Pages(Used, b2) == Pages(Used, bs) + k && Pages(All, b2) == Pages(All, bs)
      && Pages(Decommitted, b2) == Pages(Decommitted, bs) - (if commit && !bs[n].committed then k else 0)
      && InHand(b2, n) && b2[n].size == k && b2[n].committed == (commit || bs[n].committed)
      && (forall i: nat :: i < n ==> b2[i] == bs[i])
  {
    UnlinkLayout(bs, n);
    UnlinkPages(bs, n);
    hide Layout, Pages;
    var b0 := Unlinked(bs, n);
    TrimmedPages(b0, n, k);
    TrimmedCells(b0, n, k);
    var b1 := Trimmed(b0, n, k);
    hide Trimmed;
    ReflagPages(b1, n, true, dirty);
  }

  lemma TakenPages(bs: seq<HeapBlock>, h: nat, k: nat, commit: bool, dirty: bool)
    requires Layout(bs) && InHand(bs, h) && IsHead(bs, NextOf(bs, h)) && bs[NextOf(bs, h)].free
    requires NextOf(bs, NextOf(bs, h)) < |bs| && 0 < k <= bs[NextOf(bs, h)].size
    requires Mergeable(Prepared(bs, NextOf(bs, h), k, commit, dirty), h)
    ensures var bs' := Taken(bs, h, k, commit, dirty);
      && Pages(Used, bs') == Pages(Used, bs) + k && Pages(All, bs') == Pages(All, bs)
      && Pages(Decommitted, bs') - Weight(Decommitted, bs'[h]) ==
         Pages(Decommitted, bs) - Weight(Decommitted, bs[h]) - (if bs[NextOf(bs, h)].committed then 0 else k)
  {
    var n := NextOf(bs, h);
    PreparedPages(bs, n, k, commit, dirty);
    hide Layout, Pages, Prepared;
    var b2 := Prepared(bs, n, k, commit, dirty);
    assert NextOf(b2, h) == n && b2[h] == bs[h];
    MergePages(Used, b2, h);
    MergePages(All, b2, h);
    MergePages(Decommitted, b2, h);
  }

  /** All there is to say about layout and counts in the middle of a run. */
  ghost predicate Gathered(bs0: seq<HeapBlock>, bs: seq<HeapBlock>, h: nat, e: nat, need: nat, amount: nat) {
    && Gathering(bs0, bs, h, e, need) && GatherPages(bs0, bs, h, amount) && SameCells(bs0, bs)
    && amount <= bs[h].size && (bs[h].size > bs0[h].size ==> 0 < amount < bs[h].size)
    && (bs[h].size == bs0[h].size ==> amount == Weight(Decommitted, bs0[h]))
  }

  lemma GatheredStart(bs0: seq<HeapBlock>, bs: seq<HeapBlock>, h: nat, need: nat)
    requires Layout(bs0) && IsHead(bs0, h) && bs0[h].free && FreeRun(bs0, h, need) && need > 0
    requires bs == Unlinked(bs0, h)
    ensures Gathered(bs0, bs, h, NextOf(bs0, h), need, Weight(Decommitted, bs0[h]))
  {
    GatherStart(bs0, h, need);
    UnlinkPages(bs0, h);
    FlagsSameCells(bs0, h, bs0[h].(free := false));
    hide SameCells;
  }

  /** Committing the block in hand leaves it so: its pages are counted in `amount`. */
  lemma GatheredReflag(bs0: seq<HeapBlock>, bs: seq<HeapBlock>, h: nat, e: nat, need: nat, amount: nat, c: bool,
                       d: bool)
    requires Gathered(bs0, bs, h, e, need, amount)
    ensures Gathered(bs0, Reflagged(bs, h, c, d), h, e, need, amount)
  {
    ReflagPages(bs, h, c, d);
    FlagsSameCells(bs, h, bs[h].(committed := c, dirty := d));
    SameCellsTransitive(bs0, bs, Reflagged(bs, h, c, d));
    hide Pages, FreeRun, FreeSpan, RunEnd, SameCells;
  }

  lemma GatheredStep(bs0: seq<HeapBlock>, bs: seq<HeapBlock>, h: nat, e: nat, need: nat, amount: nat,
                     k: nat, commit: bool, dirty: bool)
    requires Layout(bs0) && Coalesced(bs0) && Layout(bs) && Gathered(bs0, bs, h, e, need, amount) && bs[h].size < need
    requires IsHead(bs, e) && NextOf(bs, h) == e && NextOf(bs, e) < |bs| && 0 < k <= bs[e].size
    requires bs0[e].free && bs[e] == bs0[e].(sizePrevious := bs[h].size)
    requires k < bs[e].size ==> bs[h].size + k == need
    requires Mergeable(Prepared(bs, e, k, commit, dirty), h)
    ensures Gathered(bs0, Taken(bs, h, k, commit, dirty), h, NextOf(bs, e), need,
                     amount + if bs[e].committed then 0 else k)
  {
    hide Pages, FreeRun, FreeSpan, RunEnd, Layout, Taken, Prepared, Gathering, Coalesced, SameCells;
    TakenSameCells(bs, h, k, commit, dirty);
    SameCellsTransitive(bs0, bs, Taken(bs, h, k, commit, dirty));
    GatheringHead(bs0, bs, h, e, need);
    GatherStep(bs0, bs, h, e, need, k, commit, dirty);
    GatherFirst(bs0, bs, h, e);
    TakenPages(bs, h, k, commit, dirty);
  }

  lemma TrimmedSameCells(bs: seq<HeapBlock>, n: nat, k: nat)
    requires Layout(bs) && IsHead(bs, n) && 0 < k <= bs[n].size && NextOf(bs, n) < |bs|
    ensures SameCells(bs, Trimmed(bs, n, k))
  {
    if k < bs[n].size {
      SplitSameCells(bs, n, k);
      var bs' := Split(bs, n, k);
      FlagsSameCells(bs', n + k, bs'[n + k].(free := true));
      hide SameCells;
      SameCellsTransitive(bs, bs', Trimmed(bs, n, k));
    }
  }

  lemma TakenSameCells(bs: seq<HeapBlock>, h: nat, k: nat, commit: bool, dirty: bool)
    requires Layout(bs) && IsHead(bs, h) && IsHead(bs, NextOf(bs, h)) && NextOf(bs, NextOf(bs, h)) < |bs|
    requires 0 < k <= bs[NextOf(bs, h)].size && Mergeable(Prepared(bs, NextOf(bs, h), k, commit, dirty), h)
    ensures SameCells(bs, Taken(bs, h, k, commit, dirty))
  {
    var n := NextOf(bs, h);
    var b0, b2 := Unlinked(bs, n), Prepared(bs, n, k, commit, dirty);
    FlagsSameCells(bs, n, bs[n].(free := false));
    UnlinkLayout(bs, n);
    TrimmedSameCells(b0, n, k);
    MergeSameCells(b2, h);
    var b1 := Trimmed(b0, n, k);
    FlagsSameCells(b1, n, b1[n].(committed := true, dirty := dirty));
    hide SameCells, Layout, Trimmed;
    SameCellsTransitive(bs, b0, b1);
    if commit { SameCellsTransitive(bs, b1, b2); }
    SameCellsTransitive(bs, b2, Taken(bs, h, k, commit, dirty));
  }

  lemma GatheringHead(bs0: seq<HeapBlock>, bs: seq<HeapBlock>, h: nat, e: nat, need: nat)
    requires Gathering(bs0, bs, h, e, need)
    ensures h < |bs0| == |bs| && bs0[h].free && IsHead(bs0, h) && InHand(bs, h) && e < |bs|
    ensures NextOf(bs, h) == e ==> bs[h].size >= bs0[h].size
  {
  }

  /** The second block of a run is not in the same state as the first. */
  lemma GatherFirst(bs0: seq<HeapBlock>, bs: seq<HeapBlock>, h: nat, e: nat)
    requires Coalesced(bs0) && h < |bs0| && bs0[h].free && h < |bs| && NextOf(bs, h) == e
    requires e < |bs0| && bs0[e].free
    ensures bs[h].size == bs0[h].size ==> bs0[h].committed != bs0[e].committed
  {
    assert bs[h].size == bs0[h].size ==> NextOf(bs0, h) == e;
  }

  // ----- zero pages while gathering -----

  predicate NotBefore(h: nat, x: nat) {
    h <= x
  }

  ghost function Cells(bs: seq<HeapBlock>, h: nat): set<nat>
    requires h < |bs|
  {
    set x: nat | x < NextOf(bs, h) && NotBefore(h, x)
  }

  lemma ZeroGrows(bs: seq<HeapBlock>, zeroed: set<nat>, more: set<nat>)
    requires ZeroOk(bs, zeroed)
    ensures ZeroOk(bs, zeroed + more)
  {
    forall i: nat | i < |bs| && bs[i].free ensures CleanOk(bs, i, zeroed + more) {
      assert CleanOk(bs, i, zeroed);
    }
  }

  /**
   Where nothing is known to be zero, free committed blocks are dirty, and one that is taken makes
   the whole dirty.
   */
  lemma TakenDirty(bs: seq<HeapBlock>, h: nat, k: nat, commit: bool, dirty: bool)
    requires Layout(bs) && InHand(bs, h) && IsHead(bs, NextOf(bs, h)) && bs[NextOf(bs, h)].free
    requires NextOf(bs, NextOf(bs, h)) < |bs| && 0 < k <= bs[NextOf(bs, h)].size
    requires Mergeable(Prepared(bs, NextOf(bs, h), k, commit, dirty), h)
    requires k < bs[NextOf(bs, h)].size ==> !bs[NextOf(bs, h)].committed
    requires ZeroOk(bs, {})
    ensures ZeroOk(Taken(bs, h, k, commit, dirty), {})
    ensures bs[NextOf(bs, h)].committed ==> bs[NextOf(bs, h)].dirty
  {
    TakenZero(bs, h, k, commit, dirty, {}, {});
    hide Layout, Taken, Mergeable;
    FreeIsDirty(bs, NextOf(bs, h));
  }

  lemma FreeIsDirty(bs: seq<HeapBlock>, i: nat)
    requires IsHead(bs, i) && bs[i].free && ZeroOk(bs, {})
    ensures bs[i].committed ==> bs[i].dirty
  {
    var none: set<nat> := {};
    assert CleanOk(bs, i, none) && i !in none;
  }

  /** The block taken is clean if it was committed and clean, or has just become zero. */
  lemma TakenZero(bs: seq<HeapBlock>, h: nat, k: nat, commit: bool, dirty: bool, zeroed: set<nat>, more: set<nat>)
    requires Layout(bs) && InHand(bs, h) && IsHead(bs, NextOf(bs, h)) && bs[NextOf(bs, h)].free
    requires NextOf(bs, NextOf(bs, h)) < |bs| && 0 < k <= bs[NextOf(bs, h)].size
    requires Mergeable(Prepared(bs, NextOf(bs, h), k, commit, dirty), h)
    requires k < bs[NextOf(bs, h)].size ==> !bs[NextOf(bs, h)].committed
    requires ZeroOk(bs, zeroed) && zeroed <= more
    ensures ZeroOk(Taken(bs, h, k, commit, dirty), zeroed)
    ensures var n := NextOf(bs, h);
      CellsZero(bs, h, more) && ((bs[n].committed && !bs[n].dirty) || (forall x :: n <= x < n + k ==> x in more)) ==>
        CellsZero(Taken(bs, h, k, commit, dirty), h, more)
  {
  }

  lemma CellsGrow(bs: seq<HeapBlock>, h: nat, zeroed: set<nat>, more: set<nat>)
    requires h < |bs| && CellsZero(bs, h, zeroed) && zeroed <= more
    ensures CellsZero(bs, h, more)
  {
  }

  /** What a block gathered so far is known to be, when nothing dirty has gone into it. */
  ghost predicate CleanSoFar(bs: seq<HeapBlock>, h: nat, dirty: bool, zeroed: set<nat>, blank: set<nat>)
    requires h < |bs|
  {
    ZeroOk(bs, zeroed) && (!dirty ==> CellsZero(bs, h, zeroed + blank))
  }

  lemma RoundZero(bs: seq<HeapBlock>, h: nat, k: nat, commit: bool, dirty: bool, zeroed: set<nat>, blank: set<nat>)
    requires Layout(bs) && InHand(bs, h) && IsHead(bs, NextOf(bs, h)) && bs[NextOf(bs, h)].free
    requires NextOf(bs, NextOf(bs, h)) < |bs| && 0 < k <= bs[NextOf(bs, h)].size
    requires Mergeable(Prepared(bs, NextOf(bs, h), k, commit, false), h)
    requires k < bs[NextOf(bs, h)].size ==> !bs[NextOf(bs, h)].committed
    requires CleanSoFar(bs, h, dirty, zeroed, blank)
    ensures var n, bs' := NextOf(bs, h), Taken(bs, h, k, commit, false);
      var more := Cells(Prepared(bs, n, k, commit, false), n);
      if bs[n].committed then CleanSoFar(bs', h, dirty || bs[n].dirty, zeroed, blank)
      else CleanSoFar(bs', h, dirty, zeroed + more, blank) && CleanSoFar(bs', h, dirty, zeroed, blank + more)
  {
    var n := NextOf(bs, h);
    var more := Cells(Prepared(bs, n, k, commit, false), n);
    UnlinkLayout(bs, n);
    TrimmedCells(Unlinked(bs, n), n, k);
    hide Layout, Taken, Mergeable, ZeroOk, Trimmed;
    assert NextOf(Prepared(bs, n, k, commit, false), n) == n + k;
    assert forall x :: n <= x < n + k ==> x in more;
    TakenZero(bs, h, k, commit, false, zeroed, zeroed + blank);
    ZeroGrows(bs, zeroed, more);
    TakenZero(bs, h, k, commit, false, zeroed + more, zeroed + more + blank);
    TakenZero(bs, h, k, commit, false, zeroed, zeroed + (blank + more));
    if !dirty {
      CellsGrow(bs, h, zeroed + blank, zeroed + (blank + more));
      CellsGrow(bs, h, zeroed + blank, zeroed + more + blank);
    }
  }

  /** Before the next block is unlinked: what each way of preparing it comes to. */
  lemma PrepareReady(bs: seq<HeapBlock>, fl: Lists, n: nat, have: nat, need: nat)
    requires HeapOk(bs, fl) && IsHead(bs, n) && bs[n].free && have < need
    ensures Layout(bs) && NextOf(bs, n) < |bs| && n < |bs| && bs[n].size > 0
    ensures var b0 := Unlinked(bs, n); InHand(b0, n) && b0[n] == bs[n].(free := false) && Trimmed(b0, n, bs[n].size) == b0
    ensures Prepared(bs, n, bs[n].size, false, true) == Unlinked(bs, n)
    ensures have + bs[n].size >= need ==>
      have + bs[n].size < need + bs[n].size
      && var k := PrunedSize(bs[n].size, have + bs[n].size, need);
         k == TakenSize(bs[n].size, false, have, need) && (k < bs[n].size ==> have + k == need)
    ensures have + bs[n].size < need || bs[n].committed ==>
      TakenSize(bs[n].size, bs[n].committed, have, need) == bs[n].size
  {
    NextIn(bs, n);
    UnlinkLayout(bs, n);
  }

  lemma TakeReady(bs0: seq<HeapBlock>, bs: seq<HeapBlock>, fl: Lists, h: nat, e: nat, need: nat, amount: nat)
    requires Layout(bs0) && HeapOk(bs, fl) && Gathered(bs0, bs, h, e, need, amount) && bs[h].size < need
    ensures Layout(bs) && IsHead(bs, h) && InHand(bs, h) && NextOf(bs, h) == h + bs[h].size == e
    ensures e < |bs0| && IsHead(bs, e) && bs[e].free && bs0[e].free && bs[e] == bs0[e].(sizePrevious := bs[h].size)
    ensures e < NextOf(bs0, e) == NextOf(bs, e) < |bs| == |bs0|
  {
    GatherNext(bs0, bs, h, e, need);
  }

  lemma PreparedIs(bs: seq<HeapBlock>, n: nat, k: nat, dirty: bool)
    requires Layout(bs) && IsHead(bs, n) && NextOf(bs, n) < |bs| && 0 < k <= bs[n].size
    ensures var b1 := Trimmed(Unlinked(bs, n), n, k);
      && InHand(b1, n) && b1[n].size == k && b1[n].committed == bs[n].committed
      && Prepared(bs, n, k, false, dirty) == b1
      && Prepared(bs, n, k, true, dirty) == Reflagged(b1, n, true, dirty)
      && Cells(Reflagged(b1, n, true, dirty), n) == Cells(b1, n) && Reflagged(b1, n, true, dirty)[n].size == k
  {
    UnlinkLayout(bs, n);
    TrimmedCells(Unlinked(bs, n), n, k);
    hide Layout, Trimmed;
    var b1 := Trimmed(Unlinked(bs, n), n, k);
    assert NextOf(Reflagged(b1, n, true, dirty), n) == NextOf(b1, n);
  }

  /** One round of the loop, put together. */
  lemma TakeRound(bs0: seq<HeapBlock>, bs: seq<HeapBlock>, fl': Lists, h: nat, e: nat, need: nat, amount: nat,
                  k: nat, commit: bool, dirty: bool)
    requires Layout(bs0) && Coalesced(bs0) && Layout(bs) && Gathered(bs0, bs, h, e, need, amount) && bs[h].size < need
    requires InHand(bs, h) && IsHead(bs, e) && NextOf(bs, h) == e && NextOf(bs, e) < |bs| && 0 < k <= bs[e].size
    requires NextOf(bs0, e) == NextOf(bs, e) && bs0[e].free && bs[e] == bs0[e].(sizePrevious := bs[h].size)
    requires k < bs[e].size ==> bs[h].size + k == need
    requires HeapOk(Prepared(bs, e, k, commit, dirty), fl')
    ensures var b2 := Prepared(bs, e, k, commit, dirty);
      && Mergeable(b2, h) && IsHead(b2, h) && IsHead(b2, NextOf(b2, h)) && NextOf(b2, NextOf(b2, h)) < |b2|
      && Merge(b2, h) == Taken(bs, h, k, commit, dirty)
    ensures var bs' := Taken(bs, h, k, commit, dirty);
      && HeapOk(bs', fl') && bs'[h].committed == bs[h].committed && bs'[h].size == bs[h].size + k
      && Gathered(bs0, bs', h, NextOf(bs0, e), need, amount + if bs[e].committed then 0 else k)
  {
    hide *;
    PreparedShape(bs, h, k, commit, dirty);
    MergeHand(Prepared(bs, e, k, commit, dirty), fl', h);
    MergeableIntro(Prepared(bs, e, k, commit, dirty), fl', h);
    GatheredStep(bs0, bs, h, e, need, amount, k, commit, dirty);
  }

  lemma MergeableIntro(bs: seq<HeapBlock>, fl: Lists, h: nat)
    requires HeapOk(bs, fl) && InHand(bs, h) && InHand(bs, NextOf(bs, h))
    ensures Mergeable(bs, h) && IsHead(bs, h) && IsHead(bs, NextOf(bs, h)) && NextOf(bs, NextOf(bs, h)) < |bs|
  {
    NextIn(bs, h);
    NextIn(bs, NextOf(bs, h));
  }

  lemma PreparedShape(bs: seq<HeapBlock>, h: nat, k: nat, commit: bool, dirty: bool)
    requires Layout(bs) && InHand(bs, h) && IsHead(bs, NextOf(bs, h)) && NextOf(bs, NextOf(bs, h)) < |bs|
    requires 0 < k <= bs[NextOf(bs, h)].size
    ensures var e := NextOf(bs, h); var b2 := Prepared(bs, e, k, commit, dirty);
      && InHand(b2, h) && InHand(b2, e) && NextOf(b2, h) == e && NextOf(b2, e) < |b2|
      && Merge(b2, h) == Taken(bs, h, k, commit, dirty)
      && Taken(bs, h, k, commit, dirty)[h].committed == bs[h].committed
      && Taken(bs, h, k, commit, dirty)[h].size == bs[h].size + k
  {
    var e := NextOf(bs, h);
    UnlinkLayout(bs, e);
    TrimmedCells(Unlinked(bs, e), e, k);
    hide Layout, Trimmed;
  }

  // ----- the finished block -----

  /**
   What CreateCommittedBlock makes of the run at `h`: one block of `need` pages or
   more in hand, built from that run only, with a trimmed rest, if any, still free.
   */
  ghost predicate Built(bs0: seq<HeapBlock>, bs: seq<HeapBlock>, h: nat, need: nat) {
    && IsHead(bs0, h) && InHand(bs, h) && bs[h].committed && bs[h].size >= need
    && bs[h].page == bs0[h].page && bs[h].sizePrevious == bs0[h].sizePrevious && FreeRun(bs0, h, need)
    && OnlyWithin(bs0, bs, h, RunEnd(bs0, h, need))
    && (NextOf(bs, h) == RunEnd(bs0, h, need)
        || (bs[h].size == need && NextOf(bs, h) < |bs| && bs[NextOf(bs, h)].free
            && NextOf(bs, NextOf(bs, h)) == RunEnd(bs0, h, need)))
    && UsersKept(bs0, bs, {}) && Hands(bs) == Hands(bs0) + {h} && h !in Hands(bs0)
    && Pages(Used, bs) == Pages(Used, bs0) + bs[h].size && Pages(All, bs) == Pages(All, bs0)
  }

  lemma GatheredDone(bs0: seq<HeapBlock>, bs: seq<HeapBlock>, h: nat, e: nat, need: nat, amount: nat, dirty: bool)
    requires Layout(bs0) && Layout(bs) && Gathered(bs0, bs, h, e, need, amount) && bs[h].size >= need
    ensures var bs' := Reflagged(bs, h, true, dirty);
      Built(bs0, bs', h, need) && Pages(Decommitted, bs') == Pages(Decommitted, bs0) - amount
  {
    GatheredReflag(bs0, bs, h, e, need, amount, true, dirty);
    FlagsLayout(bs, h, bs[h].(committed := true, dirty := dirty));
    var bs' := Reflagged(bs, h, true, dirty);
    GatherUsers(bs0, bs', h, e, need);
    GatherEnd(bs0, bs', h, e, need);
    hide Layout, FreeRun, FreeSpan, RunEnd, Pages, UsersKept, Hands;
  }

  /** A single decommitted block that is large enough is a run by itself. */
  lemma GatheredTrim(bs0: seq<HeapBlock>, h: nat, need: nat, k: nat)
    requires Layout(bs0) && IsHead(bs0, h) && bs0[h].free && !bs0[h].committed && FreeRun(bs0, h, need)
    requires 0 < need <= k <= bs0[h].size && (k < bs0[h].size ==> k == need) && NextOf(bs0, h) < |bs0|
    ensures var bs := Trimmed(Unlinked(bs0, h), h, k);
      Gathered(bs0, bs, h, NextOf(bs0, h), need, k) && bs[h].size == k
  {
    UnlinkLayout(bs0, h);
    GatherStart(bs0, h, need);
    UnlinkPages(bs0, h);
    TrimmedCells(Unlinked(bs0, h), h, k);
    TrimmedPages(Unlinked(bs0, h), h, k);
    FlagsSameCells(bs0, h, bs0[h].(free := false));
    TrimmedSameCells(Unlinked(bs0, h), h, k);
    hide Layout, Pages, Trimmed, SameCells;
    SameCellsTransitive(bs0, Unlinked(bs0, h), Trimmed(Unlinked(bs0, h), h, k));
  }

  lemma ReflagClean(bs: seq<HeapBlock>, h: nat, dirty: bool, zeroed: set<nat>, blank: set<nat>)
    requires InHand(bs, h) && CleanSoFar(bs, h, dirty, zeroed, blank)
    ensures var bs' := Reflagged(bs, h, true, dirty);
      ZeroOk(bs', zeroed + blank) && CleanOk(bs', h, zeroed + blank)
  {
    ZeroGrows(bs, zeroed, blank);
    ReflagZero(bs, h, true, dirty, zeroed + blank);
  }

  /** The start of the coalescing loop. */
  lemma CoalesceReady(bs0: seq<HeapBlock>, bs: seq<HeapBlock>, h: nat, need: nat, zeroed: set<nat>)
    requires Layout(bs0) && IsHead(bs0, h) && bs0[h].free && FreeRun(bs0, h, need) && bs0[h].size < need
    requires bs == Unlinked(bs0, h)
    ensures h < |bs| == |bs0| && InHand(bs, h) && NextOf(bs0, h) == NextOf(bs, h) < |bs0|
    ensures bs[h].size == bs0[h].size < need && bs[h].committed == bs0[h].committed && Cells(bs, h) == Cells(bs0, h)
    ensures Gathered(bs0, bs, h, NextOf(bs0, h), need, if bs[h].committed then 0 else bs[h].size)
    ensures WellCut(bs0, h, NextOf(bs0, h), need, bs[h].size, if bs[h].committed then 0 else bs[h].size)
    ensures ZeroOk(bs0, zeroed) ==>
      if bs[h].committed then CleanSoFar(bs, h, bs[h].dirty, zeroed, {})
      else CleanSoFar(bs, h, bs[h].dirty, zeroed, Cells(bs, h))
           && CleanSoFar(Reflagged(bs, h, true, false), h, bs[h].dirty, zeroed + Cells(bs, h), {})
  {
    GatheredStart(bs0, bs, h, need);
    WellCutStart(bs0, h, need);
    if ZeroOk(bs0, zeroed) {
      UnlinkZero(bs0, h, zeroed);
      if bs[h].committed {
        assert zeroed + {} == zeroed;
      } else {
        var more := Cells(bs, h);
        ZeroGrows(bs, zeroed, more);
        ReflagZero(bs, h, true, false, zeroed + more);
        assert zeroed + more + {} == zeroed + more;
      }
    }
  }

  lemma HeapLaidOut(bs: seq<HeapBlock>, fl: Lists)
    requires HeapOk(bs, fl)
    ensures Layout(bs)
  {
  }

  lemma CellsAre(bs: seq<HeapBlock>, h: nat)
    requires h < |bs|
    ensures forall x :: h <= x < NextOf(bs, h) ==> x in Cells(bs, h)
    ensures forall d: bool, c: bool :: NextOf(Reflagged(bs, h, c, d), h) == NextOf(bs, h)
  {
    forall x | h <= x < NextOf(bs, h) ensures x in Cells(bs, h) { assert NotBefore(h, x); }
  }

  /** At the start, what is committed of the run is dirty where nothing is known to be zero. */
  lemma FirstDirty(bs0: seq<HeapBlock>, bs: seq<HeapBlock>, h: nat, zeroed: set<nat>)
    requires Layout(bs0) && IsHead(bs0, h) && bs0[h].free && bs == Unlinked(bs0, h) && ZeroOk(bs0, zeroed)
    ensures h < |bs| && (zeroed == {} ==> ZeroOk(bs, {}) && (bs[h].committed ==> bs[h].dirty))
    ensures zeroed == {} ==> ZeroOk(Reflagged(bs, h, true, true), {})
  {
    UnlinkZero(bs0, h, zeroed);
    UnlinkLayout(bs0, h);
    if zeroed == {} {
      FreeIsDirty(bs0, h);
      ReflagZero(bs, h, true, true, {});
    }
  }

  /** Where nothing is known to be zero, a block flagged dirty is as it should be. */
  lemma DoneDirty(bs: seq<HeapBlock>, h: nat)
    requires InHand(bs, h) && ZeroOk(bs, {})
    ensures ZeroOk(Reflagged(bs, h, true, true), {}) && CleanOk(Reflagged(bs, h, true, true), h, {})
  {
    ReflagZero(bs, h, true, true, {});
  }

  lemma DirtyIs(bs: seq<HeapBlock>, h: nat, dirty: bool)
    requires h < |bs| && bs[h].committed
    ensures bs[h := bs[h].(dirty := dirty)] == Reflagged(bs, h, true, dirty)
  {
  }

  /** The end of the coalescing loop. */
  lemma CoalesceDone(bs0: seq<HeapBlock>, bs: seq<HeapBlock>, fl: Lists, h: nat, e: nat, need: nat, amount: nat,
                     dirty: bool, zeroed: set<nat>, blank: set<nat>, clean: bool)
    requires Layout(bs0) && HeapOk(bs, fl) && Gathered(bs0, bs, h, e, need, amount) && bs[h].size >= need
    requires bs[h].size > bs0[h].size
    requires clean ==> CleanSoFar(bs, h, dirty, zeroed, blank)
    ensures FreeRun(bs0, h, need) && e == RunEnd(bs0, h, need)
    ensures h < |bs| && InHand(bs, h) && 0 < amount < bs[h].size
    ensures var bs' := Reflagged(bs, h, true, dirty);
      && HeapOk(bs', fl) && Built(bs0, bs', h, need)
      && Pages(Decommitted, bs') == Pages(Decommitted, bs0) - amount
      && bs'[h].size == bs[h].size
      && (forall d :: Reflagged(bs, h, true, d)[h].committed && Reflagged(Reflagged(bs, h, true, d), h, true, dirty) == bs')
      && (clean ==> ZeroOk(bs', zeroed + blank) && CleanOk(bs', h, zeroed + blank))
      && bs'[h].dirty == dirty
  {
    GatheredDone(bs0, bs, h, e, need, amount, dirty);
    GatherEnd(bs0, bs, h, e, need);
    Reflag(bs, fl, h, true, dirty);
    if clean { ReflagClean(bs, h, dirty, zeroed, blank); }
  }

  /** The other branch of CreateCommittedBlock: its first block is large enough. */
  lemma CreateTrimmed(bs0: seq<HeapBlock>, bs: seq<HeapBlock>, fl: Lists, h: nat, need: nat, dirty: bool,
                      zeroed: set<nat>)
    requires Layout(bs0) && IsHead(bs0, h) && bs0[h].free && !bs0[h].committed && FreeRun(bs0, h, need)
    requires 0 < need <= bs0[h].size && NextOf(bs0, h) < |bs0|
    requires HeapOk(bs, fl) && Trimmable(bs0, bs, h, need)
    ensures h < |bs| && InHand(bs, h) && !bs[h].committed
    ensures bs[h].size == Reflagged(bs, h, true, dirty)[h].size == PrunedSize(bs0[h].size, bs0[h].size, need)
    ensures Built(bs0, Reflagged(bs, h, true, dirty), h, need)
    ensures Pages(Decommitted, Reflagged(bs, h, true, dirty)) == Pages(Decommitted, bs0) - bs[h].size
    ensures ZeroOk(bs0, zeroed) && !dirty ==>
      var bs', more := Reflagged(bs, h, true, false), zeroed + Cells(bs, h); ZeroOk(bs', more) && CleanOk(bs', h, more)
    ensures ZeroOk(bs0, zeroed) && dirty ==>
      var bs' := Reflagged(bs, h, true, true); ZeroOk(bs', zeroed) && CleanOk(bs', h, zeroed)
  {
    var k := PrunedSize(bs0[h].size, bs0[h].size, need);
    UnlinkLayout(bs0, h);
    GatheredTrim(bs0, h, need, k);
    TrimmedCells(Unlinked(bs0, h), h, k);
    hide HeapOk, FreeRun, Gathered, Built;
    GatheredDone(bs0, bs, h, NextOf(bs0, h), need, k, dirty);
    if ZeroOk(bs0, zeroed) {
      UnlinkZero(bs0, h, zeroed);
      TrimmedZero(Unlinked(bs0, h), h, k, zeroed);
      if dirty {
        ReflagZero(bs, h, true, true, zeroed);
      } else {
        ReflagClean(bs, h, false, zeroed, Cells(bs, h));
      }
    }
  }

  ghost predicate Trimmable(bs0: seq<HeapBlock>, bs: seq<HeapBlock>, h: nat, need: nat)
    requires IsHead(bs0, h) && NextOf(bs0, h) < |bs0| && 0 < need <= bs0[h].size
  {
    bs == Trimmed(Unlinked(bs0, h), h, PrunedSize(bs0[h].size, bs0[h].size, need))
  }

  lemma CreateReady(bs0: seq<HeapBlock>, fl: Lists, h: nat, need: nat)
    requires HeapOk(bs0, fl) && IsHead(bs0, h) && bs0[h].free && need > 0
    ensures Layout(bs0) && Coalesced(bs0) && h < |bs0| && NextOf(bs0, h) < |bs0|
    ensures var b := Unlinked(bs0, h)[h];
      b.size == bs0[h].size && b.page == bs0[h].page && b.committed == bs0[h].committed && InHand(Unlinked(bs0, h), h)
    ensures need <= bs0[h].size && FreeRun(bs0, h, need) && !bs0[h].committed ==>
      var k := PrunedSize(bs0[h].size, bs0[h].size, need); WellCut(bs0, h, RunEnd(bs0, h, need), need, k, k)
    ensures need <= bs0[h].size ==>
      && IsHead(Unlinked(bs0, h), h) && NextOf(Unlinked(bs0, h), h) < |bs0|
      && Trimmable(bs0, Trimmed(Unlinked(bs0, h), h, PrunedSize(bs0[h].size, bs0[h].size, need)), h, need)
  {
    NextIn(bs0, h);
    UnlinkLayout(bs0, h);
    if need <= bs0[h].size && FreeRun(bs0, h, need) && !bs0[h].committed { WellCutOne(bs0, h, need); }
  }
}
