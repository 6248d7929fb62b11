/**
 Eager coalescing: how AddToFreeList takes free neighbours into a block in hand,
 and what the whole of it keeps.
 */
module Coalescing {
  import opened HeapLayout
  import opened FreeLists
  import opened HeapSteps

  // ----- taking a free neighbour into a block in hand -----

  /** A committed block's predecessor, if there is one that is free and committed too. */
  ghost predicate PrevJoins(bs: seq<HeapBlock>, h: nat) {
    && InHand(bs, h) && bs[h].committed && 0 < bs[h].sizePrevious <= h
    && bs[h - bs[h].sizePrevious].free && bs[h - bs[h].sizePrevious].committed
  }

  ghost predicate NextJoins(bs: seq<HeapBlock>, h: nat) {
    && InHand(bs, h) && bs[h].committed && NextOf(bs, h) < |bs|
    && bs[NextOf(bs, h)].free && bs[NextOf(bs, h)].committed
  }

  lemma MergePrevDiffers(bs: seq<HeapBlock>, h: nat, c: bool)
    requires Mergeable(bs, h) && PrevDiffers(bs, h, c)
    ensures PrevDiffers(Merge(bs, h), h, c)
  {
    if bs[h].sizePrevious > 0 { PrevIn(bs, h); }
  }

  lemma MergeNextDiffers(bs: seq<HeapBlock>, h: nat, c: bool)
    requires Mergeable(bs, h) && NextDiffers(bs, NextOf(bs, h), c)
    ensures NextDiffers(Merge(bs, h), h, c)
  {
  }

  lemma UnlinkPrevDiffers(bs: seq<HeapBlock>, h: nat, x: nat, c: bool)
    requires h < |bs| && x < |bs| && PrevDiffers(bs, h, c)
    ensures PrevDiffers(Unlinked(bs, x), h, c)
  {
  }

  /** The result of unlinking the block after `h` and merging it in. */
  function WithNext(bs: seq<HeapBlock>, h: nat): seq<HeapBlock>
    requires IsHead(bs, h) && IsHead(bs, NextOf(bs, h)) && NextOf(bs, NextOf(bs, h)) < |bs|
  {
    Merge(Unlinked(bs, NextOf(bs, h)), h)
  }

  /** The result of unlinking the block before `h` and merging `h` into it. */
  function WithPrev(bs: seq<HeapBlock>, h: nat): seq<HeapBlock>
    requires h < |bs| && 0 < bs[h].sizePrevious <= h
    requires var p := h - bs[h].sizePrevious; IsHead(bs, p) && NextOf(bs, p) == h && IsHead(bs, h) && NextOf(bs, h) < |bs|
  {
    Merge(Unlinked(bs, h - bs[h].sizePrevious), h - bs[h].sizePrevious)
  }

  lemma NextShape(bs: seq<HeapBlock>, h: nat)
    requires Layout(bs) && InHand(bs, h) && NextOf(bs, h) < |bs| && bs[NextOf(bs, h)].free
    ensures h < |bs| && h <= NextOf(bs, h) < |bs|
    ensures IsHead(bs, h) && IsHead(bs, NextOf(bs, h)) && NextOf(bs, NextOf(bs, h)) < |bs|
    ensures var n := NextOf(bs, h); var b1 := Unlinked(bs, n);
      && Mergeable(b1, h) && InHand(b1, h) && InHand(b1, n) && NextOf(b1, h) == n
      && b1[h] == bs[h] && b1[n].committed == bs[n].committed && Merge(b1, h) == WithNext(bs, h)
      && UsersKept(bs, b1, {h}) && Hands(b1) == Hands(bs) + {n} && n !in Hands(bs)
  {
    var n := NextOf(bs, h);
    assert CellOk(bs, n);
    NextIn(bs, n);
    UnlinkLayout(bs, n);
    FlagsSameCells(bs, n, bs[n].(free := false));
    hide SameCells;
  }

  lemma PrevShape(bs: seq<HeapBlock>, h: nat)
    requires Layout(bs) && InHand(bs, h) && 0 < bs[h].sizePrevious <= h && bs[h - bs[h].sizePrevious].free
    ensures h < |bs| && 0 <= h - bs[h].sizePrevious < |bs|
    ensures var p := h - bs[h].sizePrevious; IsHead(bs, p) && NextOf(bs, p) == h && IsHead(bs, h) && NextOf(bs, h) < |bs|
    ensures var p := h - bs[h].sizePrevious; var b1 := Unlinked(bs, p);
      && Mergeable(b1, p) && InHand(b1, p) && InHand(b1, h) && NextOf(b1, p) == h
      && b1[h] == bs[h] && b1[p].committed == bs[p].committed && Merge(b1, p) == WithPrev(bs, h)
      && UsersKept(bs, b1, {h}) && Hands(b1) == Hands(bs) + {p} && p !in Hands(bs)
  {
    PrevIn(bs, h);
    NextIn(bs, h);
    var p := h - bs[h].sizePrevious;
    UnlinkLayout(bs, p);
    FlagsSameCells(bs, p, bs[p].(free := false));
    hide SameCells;
  }

  lemma WithNextUsers(bs: seq<HeapBlock>, fl: Lists, fl': Lists, h: nat)
    requires HeapOk(bs, fl) && InHand(bs, h) && NextOf(bs, h) < |bs| && bs[NextOf(bs, h)].free
    requires HeapOk(Unlinked(bs, NextOf(bs, h)), fl')
    ensures IsHead(bs, h) && IsHead(bs, NextOf(bs, h)) && NextOf(bs, NextOf(bs, h)) < |bs|
    ensures UsersKept(bs, WithNext(bs, h), {h}) && Hands(WithNext(bs, h)) == Hands(bs)
    ensures HeapOk(WithNext(bs, h), fl') && InHand(WithNext(bs, h), h)
    ensures NextOf(WithNext(bs, h), h) == NextOf(bs, NextOf(bs, h))
    ensures Mergeable(Unlinked(bs, NextOf(bs, h)), h)
  {
    NextShape(bs, h);
    hide Layout, ListsOk, Coalesced, Mergeable;
    var n := NextOf(bs, h);
    MergeHand(Unlinked(bs, n), fl', h);
    UsersKeptTransitive(bs, Unlinked(bs, n), WithNext(bs, h), {h}, {h, n});
  }

  lemma WithPrevUsers(bs: seq<HeapBlock>, fl: Lists, fl': Lists, h: nat)
    requires HeapOk(bs, fl) && InHand(bs, h) && 0 < bs[h].sizePrevious <= h && bs[h - bs[h].sizePrevious].free
    requires HeapOk(Unlinked(bs, h - bs[h].sizePrevious), fl')
    ensures var p := h - bs[h].sizePrevious; IsHead(bs, p) && NextOf(bs, p) == h && IsHead(bs, h) && NextOf(bs, h) < |bs|
    ensures var p := h - bs[h].sizePrevious;
      && UsersKept(bs, WithPrev(bs, h), {h}) && Hands(WithPrev(bs, h)) == Hands(bs) - {h} + {p} && p !in Hands(bs)
      && HeapOk(WithPrev(bs, h), fl') && InHand(WithPrev(bs, h), p)
      && Mergeable(Unlinked(bs, p), p)
  {
    PrevShape(bs, h);
    hide Layout, ListsOk, Coalesced, Mergeable;
    var p := h - bs[h].sizePrevious;
    MergeHand(Unlinked(bs, p), fl', p);
    UsersKeptTransitive(bs, Unlinked(bs, p), WithPrev(bs, h), {h}, {p, h});
  }

  /** Two blocks in the same committed state can be merged without changing a count. */
  lemma MergeSamePages(bs: seq<HeapBlock>, a: nat)
    requires Mergeable(bs, a) && InHand(bs, a) && bs[a].committed == bs[NextOf(bs, a)].committed
    ensures Pages(Used, Merge(bs, a)) == Pages(Used, bs)
    ensures Pages(Decommitted, Merge(bs, a)) == Pages(Decommitted, bs)
    ensures Pages(All, Merge(bs, a)) == Pages(All, bs)
  {
    hide Layout, Pages;
    MergePages(Used, bs, a);
    MergePages(Decommitted, bs, a);
    MergePages(All, bs, a);
  }

  lemma WithNextPages(bs: seq<HeapBlock>, h: nat)
    requires Layout(bs) && InHand(bs, h) && NextOf(bs, h) < |bs| && bs[NextOf(bs, h)].free
    requires bs[h].committed == bs[NextOf(bs, h)].committed
    ensures IsHead(bs, h) && IsHead(bs, NextOf(bs, h)) && NextOf(bs, NextOf(bs, h)) < |bs|
    ensures Pages(Used, WithNext(bs, h)) == Pages(Used, bs) + bs[NextOf(bs, h)].size
    ensures Pages(Decommitted, WithNext(bs, h)) == Pages(Decommitted, bs)
    ensures Pages(All, WithNext(bs, h)) == Pages(All, bs)
  {
    hide *;
    NextShape(bs, h);
    UnlinkPages(bs, NextOf(bs, h));
    MergeSamePages(Unlinked(bs, NextOf(bs, h)), h);
  }

  lemma WithPrevPages(bs: seq<HeapBlock>, h: nat)
    requires Layout(bs) && InHand(bs, h) && 0 < bs[h].sizePrevious <= h && bs[h - bs[h].sizePrevious].free
    requires bs[h].committed == bs[h - bs[h].sizePrevious].committed
    ensures var p := h - bs[h].sizePrevious; IsHead(bs, p) && NextOf(bs, p) == h && IsHead(bs, h) && NextOf(bs, h) < |bs|
    ensures Pages(Used, WithPrev(bs, h)) == Pages(Used, bs) + bs[h - bs[h].sizePrevious].size
    ensures Pages(Decommitted, WithPrev(bs, h)) == Pages(Decommitted, bs)
    ensures Pages(All, WithPrev(bs, h)) == Pages(All, bs)
  {
    hide *;
    PrevShape(bs, h);
    UnlinkPages(bs, h - bs[h].sizePrevious);
    MergeSamePages(Unlinked(bs, h - bs[h].sizePrevious), h - bs[h].sizePrevious);
  }

  /** What is known about zero pages when the block after `h` is merged in. */
  lemma WithNextZero(bs: seq<HeapBlock>, h: nat, zeroed: set<nat>)
    requires Layout(bs) && NextJoins(bs, h) && ZeroOk(bs, zeroed)
    ensures IsHead(bs, NextOf(bs, h)) && NextOf(bs, NextOf(bs, h)) < |bs|
    ensures ZeroOk(WithNext(bs, h), zeroed)
    ensures !bs[NextOf(bs, h)].dirty ==>
      (CellsZero(WithNext(bs, h), h, zeroed) <==> CellsZero(bs, h, zeroed))
  {
    var n := NextOf(bs, h);
    assert CellOk(bs, n);
    NextIn(bs, n);
    UnlinkLayout(bs, n);
    UnlinkZero(bs, n, zeroed);
    var b1 := Unlinked(bs, n);
    MergeZero(b1, h, zeroed);
    MergeCells(b1, h, zeroed);
    assert NextOf(b1, h) == n && NextOf(b1, n) == NextOf(bs, n);
  }

  /** ... and when `h` is merged into the block before. */
  lemma WithPrevZero(bs: seq<HeapBlock>, h: nat, zeroed: set<nat>)
    requires Layout(bs) && PrevJoins(bs, h) && ZeroOk(bs, zeroed)
    ensures var p := h - bs[h].sizePrevious; IsHead(bs, p) && NextOf(bs, p) == h && NextOf(bs, h) < |bs|
    ensures ZeroOk(WithPrev(bs, h), zeroed)
    ensures !bs[h - bs[h].sizePrevious].dirty ==>
      (CellsZero(WithPrev(bs, h), h - bs[h].sizePrevious, zeroed) <==> CellsZero(bs, h, zeroed))
  {
    PrevIn(bs, h);
    NextIn(bs, h);
    var p := h - bs[h].sizePrevious;
    UnlinkLayout(bs, p);
    UnlinkZero(bs, p, zeroed);
    var b1 := Unlinked(bs, p);
    MergeZero(b1, p, zeroed);
    MergeCells(b1, p, zeroed);
    assert NextOf(b1, p) == h && NextOf(b1, h) == NextOf(bs, h);
  }

  /**
   Merging into the predecessor keeps only the predecessor's dirty flag.  This is
   the case in which the dirt of the block being filed is forgotten altogether.
   */
  ghost predicate DirtDropped(bs: seq<HeapBlock>, h: nat, makeDirty: bool) {
    && PrevJoins(bs, h) && bs[h].dirty && !makeDirty
    && !bs[h - bs[h].sizePrevious].dirty
    && !(NextJoins(bs, h) && bs[NextOf(bs, h)].dirty)
  }

  ghost predicate SameFlags(a: HeapBlock, b: HeapBlock) {
    a.free == b.free && a.committed == b.committed && a.dirty == b.dirty
  }

  /** The page counts differ only by what the block in hand has gained. */
  ghost predicate SamePages(bs: seq<HeapBlock>, h: nat, bs': seq<HeapBlock>, h': nat)
    requires h < |bs| && h' < |bs'|
  {
    && Pages(Used, bs') - bs'[h'].size == Pages(Used, bs) - bs[h].size
    && Pages(Decommitted, bs') == Pages(Decommitted, bs)
    && Pages(All, bs') == Pages(All, bs)
  }

  lemma HandStays(bs: seq<HeapBlock>, h: nat)
    requires Layout(bs) && InHand(bs, h)
    ensures UsersKept(bs, bs, {h}) && Hands(bs) - {h} + {h} == Hands(bs) && NextOf(bs, h) < |bs|
    ensures bs[h].committed && !PrevJoins(bs, h) ==> PrevDiffers(bs, h, true)
    ensures bs[h].committed && !NextJoins(bs, h) ==> NextDiffers(bs, h, true)
  {
    NextIn(bs, h);
  }

  // ----- what is on offer -----

  /** Some committed free block has `k` pages or more. */
  ghost predicate Serves(bs: seq<HeapBlock>, k: nat) {
    exists i: nat :: i < |bs| && bs[i].free && bs[i].committed && bs[i].size >= k
  }

  /** Every committed free block is still there, or has gone into block `b`, which was in hand and has grown. */
  ghost predicate NotLost(bs: seq<HeapBlock>, h: nat, bs': seq<HeapBlock>, b: nat) {
    && |bs'| == |bs| && h < |bs| && b < |bs| && bs'[b].size >= bs[h].size
    && forall i: nat :: i < |bs| && bs[i].free && bs[i].committed ==>
         (bs'[i].free && bs'[i].committed && bs'[i].size == bs[i].size) || bs[i].size <= bs'[b].size
  }

  lemma NotLostTransitive(bs: seq<HeapBlock>, h: nat, bs1: seq<HeapBlock>, b: nat, bs2: seq<HeapBlock>)
    requires NotLost(bs, h, bs1, b) && NotLost(bs1, b, bs2, b)
    ensures NotLost(bs, h, bs2, b)
  {
  }

  lemma WithPrevNotLost(bs: seq<HeapBlock>, h: nat)
    requires Layout(bs) && PrevJoins(bs, h)
    ensures var p := h - bs[h].sizePrevious; IsHead(bs, p) && NextOf(bs, p) == h && IsHead(bs, h) && NextOf(bs, h) < |bs|
    ensures NotLost(bs, h, WithPrev(bs, h), h - bs[h].sizePrevious)
  {
    PrevShape(bs, h);
    hide Layout, Mergeable, UsersKept, Hands;
  }

  lemma WithNextNotLost(bs: seq<HeapBlock>, h: nat)
    requires Layout(bs) && NextJoins(bs, h)
    ensures IsHead(bs, h) && IsHead(bs, NextOf(bs, h)) && NextOf(bs, NextOf(bs, h)) < |bs|
    ensures NotLost(bs, h, WithNext(bs, h), h)
  {
    NextShape(bs, h);
    hide Layout, Mergeable, UsersKept, Hands;
  }

  /** Once the grown block is filed, the heap serves whatever it served before, and the block's own pages. */
  lemma FiledServes(bs: seq<HeapBlock>, h: nat, bs2: seq<HeapBlock>, b: nat, dirty: bool)
    requires NotLost(bs, h, bs2, b) && bs2[b].committed && InHand(bs2, b)
    ensures var bs4 := Linked(Reflagged(bs2, b, true, dirty), b);
      Serves(bs4, bs[h].size) && forall k: nat :: Serves(bs, k) ==> Serves(bs4, k)
  {
    var bs4 := Linked(Reflagged(bs2, b, true, dirty), b);
    assert bs4[b].free && bs4[b].committed && bs4[b].size == bs2[b].size;
    forall k: nat | Serves(bs, k) ensures Serves(bs4, k) {
      var i: nat :| i < |bs| && bs[i].free && bs[i].committed && bs[i].size >= k;
      assert bs4[if bs[i].size <= bs2[b].size then b else i].free;
    }
  }

  // ----- the two halves of AddToFreeList -----

  /** JoinPrev's effect: block `h` has become part of block `b`. */
  ghost predicate JoinedPrev(bs: seq<HeapBlock>, h: nat, bs': seq<HeapBlock>, b: nat, d: bool, zeroed: set<nat>) {
    && InHand(bs, h) && InHand(bs', b) && |bs'| == |bs|
    && b == (if PrevJoins(bs, h) then h - bs[h].sizePrevious else h)
    && (d <==> PrevJoins(bs, h) && bs[b].dirty)
    && bs'[b].committed == bs[h].committed && bs'[b].dirty == bs[b].dirty
    && NextOf(bs', b) == NextOf(bs, h) < |bs| && SameFlags(bs[NextOf(bs, h)], bs'[NextOf(bs, h)])
    && UsersKept(bs, bs', {h}) && Hands(bs') == Hands(bs) - {h} + {b} && (b != h ==> b !in Hands(bs))
    && (bs'[b].committed ==> PrevDiffers(bs', b, true))
    && (!bs[h].committed ==> bs' == bs) && NotLost(bs, h, bs', b)
    && SamePages(bs, h, bs', b)
    && (ZeroOk(bs, zeroed) ==> ZeroOk(bs', zeroed) && (!d ==> (CellsZero(bs', b, zeroed) <==> CellsZero(bs, h, zeroed))))
  }

  ghost predicate JoinedNext(bs: seq<HeapBlock>, b: nat, bs': seq<HeapBlock>, d: bool, zeroed: set<nat>) {
    && InHand(bs, b) && InHand(bs', b) && |bs'| == |bs|
    && (d <==> NextJoins(bs, b) && bs[NextOf(bs, b)].dirty)
    && bs'[b].committed == bs[b].committed && bs'[b].dirty == bs[b].dirty
    && UsersKept(bs, bs', {b}) && Hands(bs') == Hands(bs)
    && (bs'[b].committed ==> PrevDiffers(bs', b, true) && NextDiffers(bs', b, true))
    && (!bs[b].committed ==> bs' == bs) && NotLost(bs, b, bs', b)
    && SamePages(bs, b, bs', b)
    && (ZeroOk(bs, zeroed) ==> ZeroOk(bs', zeroed) && (!d ==> (CellsZero(bs', b, zeroed) <==> CellsZero(bs, b, zeroed))))
  }

  lemma StayedPrev(bs: seq<HeapBlock>, fl: Lists, h: nat, zeroed: set<nat>)
    requires HeapOk(bs, fl) && InHand(bs, h)
    ensures bs[h].committed && bs[h].sizePrevious > 0 ==> bs[h].sizePrevious <= h
    ensures !PrevJoins(bs, h) ==> JoinedPrev(bs, h, bs, h, false, zeroed)
  {
    HandStays(bs, h);
    if bs[h].sizePrevious > 0 { PrevIn(bs, h); }
    hide HeapOk, Hands, UsersKept, PrevDiffers, Pages, ZeroOk, CellsZero;
  }

  lemma TookPrev(bs: seq<HeapBlock>, fl: Lists, fl': Lists, h: nat, zeroed: set<nat>)
    requires HeapOk(bs, fl) && PrevJoins(bs, h)
    requires HeapOk(Unlinked(bs, h - bs[h].sizePrevious), fl')
    requires PrevDiffers(Unlinked(bs, h - bs[h].sizePrevious), h - bs[h].sizePrevious, true)
    ensures var p := h - bs[h].sizePrevious; IsHead(bs, p) && NextOf(bs, p) == h && NextOf(bs, h) < |bs|
    ensures var p := h - bs[h].sizePrevious;
      HeapOk(WithPrev(bs, h), fl') && JoinedPrev(bs, h, WithPrev(bs, h), p, bs[p].dirty, zeroed)
  {
    hide Hands, UsersKept, PrevDiffers, Pages, ZeroOk, CellsZero, NotLost, Layout, ListsOk, Coalesced;
    var p := h - bs[h].sizePrevious;
    WithPrevUsers(bs, fl, fl', h);
    MergePrevDiffers(Unlinked(bs, p), p, true);
    WithPrevPages(bs, h);
    WithPrevNotLost(bs, h);
    if ZeroOk(bs, zeroed) { WithPrevZero(bs, h, zeroed); }
  }

  lemma StayedNext(bs: seq<HeapBlock>, fl: Lists, b: nat, zeroed: set<nat>)
    requires HeapOk(bs, fl) && InHand(bs, b)
    requires bs[b].committed ==> PrevDiffers(bs, b, true)
    ensures NextOf(bs, b) < |bs|
    ensures !NextJoins(bs, b) ==> JoinedNext(bs, b, bs, false, zeroed)
  {
    HandStays(bs, b);
    hide HeapOk, Hands, UsersKept, PrevDiffers, NextDiffers, Pages, ZeroOk, CellsZero;
  }

  lemma TookNext(bs: seq<HeapBlock>, fl: Lists, fl': Lists, b: nat, zeroed: set<nat>)
    requires HeapOk(bs, fl) && NextJoins(bs, b) && PrevDiffers(bs, b, true)
    requires HeapOk(Unlinked(bs, NextOf(bs, b)), fl')
    requires NextDiffers(Unlinked(bs, NextOf(bs, b)), NextOf(bs, b), true)
    ensures IsHead(bs, NextOf(bs, b)) && NextOf(bs, NextOf(bs, b)) < |bs|
    ensures HeapOk(WithNext(bs, b), fl') && JoinedNext(bs, b, WithNext(bs, b), bs[NextOf(bs, b)].dirty, zeroed)
  {
    var n := NextOf(bs, b);
    WithNextUsers(bs, fl, fl', b);
    UnlinkPrevDiffers(bs, b, n, true);
    MergePrevDiffers(Unlinked(bs, n), b, true);
    MergeNextDiffers(Unlinked(bs, n), b, true);
    WithNextPages(bs, b);
    WithNextNotLost(bs, b);
    if ZeroOk(bs, zeroed) { WithNextZero(bs, b, zeroed); }
    hide HeapOk, Hands, UsersKept, PrevDiffers, NextDiffers, Pages, ZeroOk, CellsZero, NotLost;
  }

  lemma JoinedPrevHand(bs: seq<HeapBlock>, h: nat, bs': seq<HeapBlock>, b: nat, d: bool, zeroed: set<nat>)
    requires JoinedPrev(bs, h, bs', b, d, zeroed)
    ensures b < |bs'| && InHand(bs', b) && (bs'[b].committed ==> PrevDiffers(bs', b, true))
  {
  }

  lemma JoinedNextHand(bs: seq<HeapBlock>, b: nat, bs': seq<HeapBlock>, d: bool, zeroed: set<nat>)
    requires JoinedNext(bs, b, bs', d, zeroed)
    ensures b < |bs'| && InHand(bs', b)
  {
  }

  // ----- all of AddToFreeList -----

  /** The coalesced block can be filed. */
  lemma AddReady(bs: seq<HeapBlock>, bs1: seq<HeapBlock>, bs2: seq<HeapBlock>, fl: Lists,
                 h: nat, b: nat, d1: bool, d2: bool, dirty: bool, zeroed: set<nat>)
    requires JoinedPrev(bs, h, bs1, b, d1, zeroed) && JoinedNext(bs1, b, bs2, d2, zeroed) && HeapOk(bs2, fl)
    requires !bs[h].committed ==> PrevDiffers(bs, h, false) && NextDiffers(bs, h, false)
    ensures b < |bs2| && InHand(bs2, b)
    ensures var bs3 := Reflagged(bs2, b, bs2[b].committed, dirty);
      && bs2[b := bs2[b].(dirty := dirty)] == bs3 && HeapOk(bs3, fl) && InHand(bs3, b)
      && PrevDiffers(bs3, b, bs3[b].committed) && NextDiffers(bs3, b, bs3[b].committed)
  {
    hide HeapOk, Hands, UsersKept, PrevDiffers, NextDiffers, Pages, ZeroOk, CellsZero;
    Reflag(bs2, fl, b, bs2[b].committed, dirty);
    ReflagDiffers(bs2, b, bs2[b].committed, dirty);
  }

  /** What AddToFreeList as a whole does to the blocks in use, the page counts and the zero pages. */
  lemma AddKept(bs: seq<HeapBlock>, bs1: seq<HeapBlock>, bs2: seq<HeapBlock>,
                h: nat, b: nat, d1: bool, d2: bool, makeDirty: bool, zeroed: set<nat>)
    requires JoinedPrev(bs, h, bs1, b, d1, zeroed) && JoinedNext(bs1, b, bs2, d2, zeroed)
    ensures b < |bs2| && InHand(bs2, b)
    ensures var dirty := bs2[b].dirty || makeDirty || d1 || d2;
      var bs4 := Linked(Reflagged(bs2, b, bs2[b].committed, dirty), b);
      && UsersKept(bs, bs4, {h}) && Hands(bs4) == Hands(bs) - {h}
      && Pages(Used, bs4) == Pages(Used, bs) - bs[h].size
      && Pages(Decommitted, bs4) == Pages(Decommitted, bs) && Pages(All, bs4) == Pages(All, bs)
      && (ZeroOk(bs, zeroed) && (makeDirty || CleanOk(bs, h, zeroed)) ==>
            (ZeroOk(bs4, zeroed) <==> (DirtDropped(bs, h, makeDirty) ==> CellsZero(bs, h, zeroed))))
      && (!bs[h].committed ==> bs4 == Linked(Reflagged(bs, h, false, bs[h].dirty || makeDirty), h))
      && (bs[h].committed ==> Serves(bs4, bs[h].size) && forall k: nat :: Serves(bs, k) ==> Serves(bs4, k))
  {
    AddServes(bs, h, bs1, b, d1, bs2, d2, bs2[b].dirty || makeDirty || d1 || d2, zeroed);
    AddUsers(bs, h, bs1, b, bs2, bs2[b].dirty || makeDirty || d1 || d2);
    AddPages(bs, h, bs1, b, bs2, bs2[b].dirty || makeDirty || d1 || d2);
    AddZero(bs, bs1, bs2, h, b, d1, d2, makeDirty, zeroed);
    hide Hands, UsersKept, PrevDiffers, NextDiffers, Pages, ZeroOk, CellsZero, CleanOk, DirtDropped, NotLost, Serves;
  }

  lemma AddServes(bs: seq<HeapBlock>, h: nat, bs1: seq<HeapBlock>, b: nat, d1: bool, bs2: seq<HeapBlock>, d2: bool,
                  dirty: bool, zeroed: set<nat>)
    requires JoinedPrev(bs, h, bs1, b, d1, zeroed) && JoinedNext(bs1, b, bs2, d2, zeroed)
    ensures InHand(bs2, b) && bs2[b].committed == bs[h].committed
    ensures var bs4 := Linked(Reflagged(bs2, b, bs2[b].committed, dirty), b);
      bs[h].committed ==> Serves(bs4, bs[h].size) && forall k: nat :: Serves(bs, k) ==> Serves(bs4, k)
  {
    hide Hands, UsersKept, PrevDiffers, NextDiffers, Pages, ZeroOk, CellsZero, SamePages, NotLost;
    NotLostTransitive(bs, h, bs1, b, bs2);
    if bs[h].committed { FiledServes(bs, h, bs2, b, dirty); }
  }

  lemma AddUsers(bs: seq<HeapBlock>, h: nat, bs1: seq<HeapBlock>, b: nat, bs2: seq<HeapBlock>, dirty: bool)
    requires InHand(bs, h) && InHand(bs2, b)
    requires UsersKept(bs, bs1, {h}) && Hands(bs1) == Hands(bs) - {h} + {b} && (b != h ==> b !in Hands(bs))
    requires UsersKept(bs1, bs2, {b}) && Hands(bs2) == Hands(bs1)
    ensures var bs4 := Linked(Reflagged(bs2, b, bs2[b].committed, dirty), b);
      UsersKept(bs, bs4, {h}) && Hands(bs4) == Hands(bs) - {h}
  {
    hide SameCells;
    var bs4 := Linked(Reflagged(bs2, b, bs2[b].committed, dirty), b);
    assert bs4 == bs2[b := bs4[b]];
    FlagsSameCells(bs2, b, bs4[b]);
    assert InHand(bs, b) ==> b in Hands(bs);
    assert h in Hands(bs);
    UsersKeptTransitive(bs, bs1, bs2, {h}, {b});
    UsersKeptTransitive(bs, bs2, bs4, {h}, {b});
    assert Hands(bs4) == Hands(bs2) - {b};
  }

  lemma AddPages(bs: seq<HeapBlock>, h: nat, bs1: seq<HeapBlock>, b: nat, bs2: seq<HeapBlock>, dirty: bool)
    requires InHand(bs, h) && InHand(bs1, b) && InHand(bs2, b)
    requires SamePages(bs, h, bs1, b) && SamePages(bs1, b, bs2, b)
    ensures var bs4 := Linked(Reflagged(bs2, b, bs2[b].committed, dirty), b);
      && Pages(Used, bs4) == Pages(Used, bs) - bs[h].size
      && Pages(Decommitted, bs4) == Pages(Decommitted, bs) && Pages(All, bs4) == Pages(All, bs)
  {
    hide Pages;
    ReflagPages(bs2, b, bs2[b].committed, dirty);
    InsertPages(Reflagged(bs2, b, bs2[b].committed, dirty), b);
  }

  lemma AddZero(bs: seq<HeapBlock>, bs1: seq<HeapBlock>, bs2: seq<HeapBlock>,
                h: nat, b: nat, d1: bool, d2: bool, makeDirty: bool, zeroed: set<nat>)
    requires JoinedPrev(bs, h, bs1, b, d1, zeroed) && JoinedNext(bs1, b, bs2, d2, zeroed)
    ensures b < |bs2| && InHand(bs2, b)
    ensures var dirty := bs2[b].dirty || makeDirty || d1 || d2;
      var bs4 := Linked(Reflagged(bs2, b, bs2[b].committed, dirty), b);
      ZeroOk(bs, zeroed) && (makeDirty || CleanOk(bs, h, zeroed)) ==>
        (ZeroOk(bs4, zeroed) <==> (DirtDropped(bs, h, makeDirty) ==> CellsZero(bs, h, zeroed)))
  {
    hide Hands, UsersKept, PrevDiffers, NextDiffers, Pages, ZeroOk, CellsZero, SamePages;
    var dirty := bs2[b].dirty || makeDirty || d1 || d2;
    var bs3 := Reflagged(bs2, b, bs2[b].committed, dirty);
    if ZeroOk(bs, zeroed) {
      ReflagZero(bs2, b, bs2[b].committed, dirty, zeroed);
      InsertZero(bs3, b, zeroed);
      assert NextJoins(bs, h) <==> NextJoins(bs1, b);
    }
  }
}
