/**
 Giving memory back to the system: what decommitting one free block keeps.
 */
module HeapDecommit {
  import opened HeapLayout
  import opened FreeLists
  import opened HeapSteps
  import opened Coalescing
  import opened HeapRuns
  import opened HeapAlloc
  import opened HeapRegions

  /** Every committed free block was one before, of the same size. */
  ghost predicate NoneCommitted(bs: seq<HeapBlock>, bs': seq<HeapBlock>) {
    && |bs'| == |bs|
    && forall i: nat :: i < |bs| && bs'[i].free && bs'[i].committed ==>
         bs[i].free && bs[i].committed && bs'[i].size == bs[i].size
  }

  lemma NoneCommittedTransitive(a: seq<HeapBlock>, b: seq<HeapBlock>, c: seq<HeapBlock>)
    requires NoneCommitted(a, b) && NoneCommitted(b, c)
    ensures NoneCommitted(a, c)
  {
  }

  /** Block `h`, in hand and decommitted, has become part of block `b`. */
  ghost predicate Absorbed(bs: seq<HeapBlock>, h: nat, bs': seq<HeapBlock>, b: nat, zeroed: set<nat>) {
    && InHand(bs, h) && InHand(bs', b) && |bs'| == |bs| && !bs'[b].committed && NextOf(bs', b) < |bs'|
    && UsersKept(bs, bs', {h}) && Hands(bs') == Hands(bs) - {h} + {b} && (b == h || b !in Hands(bs))
    && SamePages(bs, h, bs', b) && PrevDiffers(bs', b, false)
    && NoneCommitted(bs, bs') && (ZeroOk(bs, zeroed) ==> ZeroOk(bs', zeroed))
  }

  ghost predicate PrevAbsorbs(bs: seq<HeapBlock>, h: nat) {
    && InHand(bs, h) && 0 < bs[h].sizePrevious <= h
    && bs[h - bs[h].sizePrevious].free && !bs[h - bs[h].sizePrevious].committed
  }

  ghost predicate NextAbsorbs(bs: seq<HeapBlock>, h: nat) {
    && InHand(bs, h) && NextOf(bs, h) < |bs| && bs[NextOf(bs, h)].free && !bs[NextOf(bs, h)].committed
  }

  lemma AbsorbReady(bs: seq<HeapBlock>, fl: Lists, h: nat, zeroed: set<nat>)
    requires HeapOk(bs, fl) && InHand(bs, h) && !bs[h].committed
    ensures h < |bs| && NextOf(bs, h) < |bs| && (bs[h].sizePrevious > 0 ==> bs[h].sizePrevious <= h)
    ensures !PrevAbsorbs(bs, h) ==> Absorbed(bs, h, bs, h, zeroed)
    ensures PrevDiffers(bs, h, false) ==> Absorbed(bs, h, bs, h, zeroed)
    ensures !NextAbsorbs(bs, h) ==> NextDiffers(bs, h, false)
    ensures bs[NextOf(bs, h)].free ==> IsHead(bs, NextOf(bs, h))
  {
    HandStays(bs, h);
    if bs[h].sizePrevious > 0 { PrevIn(bs, h); }
    FreeIsHead(bs, fl, NextOf(bs, h));
    hide HeapOk, Hands, UsersKept, Pages, ZeroOk;
  }

  lemma AbsorbedPrev(bs: seq<HeapBlock>, fl: Lists, fl': Lists, h: nat, zeroed: set<nat>)
    requires HeapOk(bs, fl) && PrevAbsorbs(bs, h) && !bs[h].committed
    requires HeapOk(Unlinked(bs, h - bs[h].sizePrevious), fl')
    requires PrevDiffers(Unlinked(bs, h - bs[h].sizePrevious), h - bs[h].sizePrevious, false)
    ensures var p := h - bs[h].sizePrevious; IsHead(bs, p) && NextOf(bs, p) == h && IsHead(bs, h) && NextOf(bs, h) < |bs|
    ensures var p := h - bs[h].sizePrevious; var b1 := Unlinked(bs, p);
      && IsHead(b1, p) && IsHead(b1, NextOf(b1, p)) && NextOf(b1, NextOf(b1, p)) < |b1|
      && Merge(b1, p) == WithPrev(bs, h)
      && HeapOk(WithPrev(bs, h), fl') && Absorbed(bs, h, WithPrev(bs, h), p, zeroed)
  {
    var p := h - bs[h].sizePrevious;
    WithPrevUsers(bs, fl, fl', h);
    PrevShape(bs, h);
    MergePrevDiffers(Unlinked(bs, p), p, false);
    WithPrevPages(bs, h);
    WithPrevFrees(bs, h, zeroed);
    hide HeapOk, Hands, UsersKept, PrevDiffers, Pages, ZeroOk, NoneCommitted, Mergeable;
  }

  lemma WithPrevFrees(bs: seq<HeapBlock>, h: nat, zeroed: set<nat>)
    requires Layout(bs) && PrevAbsorbs(bs, h) && !bs[h].committed
    ensures var p := h - bs[h].sizePrevious; IsHead(bs, p) && NextOf(bs, p) == h && IsHead(bs, h) && NextOf(bs, h) < |bs|
    ensures NoneCommitted(bs, WithPrev(bs, h)) && (ZeroOk(bs, zeroed) ==> ZeroOk(WithPrev(bs, h), zeroed))
    ensures !WithPrev(bs, h)[h - bs[h].sizePrevious].committed
    ensures SameFlags(WithPrev(bs, h)[NextOf(bs, h)], bs[NextOf(bs, h)])
  {
    PrevShape(bs, h);
    var p := h - bs[h].sizePrevious;
    if ZeroOk(bs, zeroed) {
      UnlinkZero(bs, p, zeroed);
      MergeZero(Unlinked(bs, p), p, zeroed);
    }
    hide Layout, Mergeable, UsersKept, Hands, ZeroOk;
  }

  lemma AbsorbedNext(bs: seq<HeapBlock>, fl: Lists, fl': Lists, h: nat, zeroed: set<nat>)
    requires HeapOk(bs, fl) && NextAbsorbs(bs, h) && !bs[h].committed && PrevDiffers(bs, h, false)
    requires HeapOk(Unlinked(bs, NextOf(bs, h)), fl')
    requires NextDiffers(Unlinked(bs, NextOf(bs, h)), NextOf(bs, h), false)
    ensures IsHead(bs, h) && IsHead(bs, NextOf(bs, h)) && NextOf(bs, NextOf(bs, h)) < |bs|
    ensures var b1 := Unlinked(bs, NextOf(bs, h));
      && IsHead(b1, h) && IsHead(b1, NextOf(b1, h)) && NextOf(b1, NextOf(b1, h)) < |b1|
      && Merge(b1, h) == WithNext(bs, h)
      && HeapOk(WithNext(bs, h), fl') && Absorbed(bs, h, WithNext(bs, h), h, zeroed)
      && NextDiffers(WithNext(bs, h), h, false)
  {
    var n := NextOf(bs, h);
    WithNextUsers(bs, fl, fl', h);
    NextShape(bs, h);
    UnlinkPrevDiffers(bs, h, n, false);
    MergePrevDiffers(Unlinked(bs, n), h, false);
    MergeNextDiffers(Unlinked(bs, n), h, false);
    WithNextPages(bs, h);
    WithNextFrees(bs, h, zeroed);
    hide HeapOk, Hands, UsersKept, PrevDiffers, NextDiffers, Pages, ZeroOk, NoneCommitted, Mergeable;
  }

  lemma WithNextFrees(bs: seq<HeapBlock>, h: nat, zeroed: set<nat>)
    requires Layout(bs) && NextAbsorbs(bs, h) && !bs[h].committed
    ensures IsHead(bs, h) && IsHead(bs, NextOf(bs, h)) && NextOf(bs, NextOf(bs, h)) < |bs|
    ensures NoneCommitted(bs, WithNext(bs, h)) && (ZeroOk(bs, zeroed) ==> ZeroOk(WithNext(bs, h), zeroed))
    ensures !WithNext(bs, h)[h].committed
  {
    NextShape(bs, h);
    var n := NextOf(bs, h);
    if ZeroOk(bs, zeroed) {
      UnlinkZero(bs, n, zeroed);
      MergeZero(Unlinked(bs, n), h, zeroed);
    }
    hide Layout, Mergeable, UsersKept, Hands, ZeroOk;
  }

  // ----- the whole of one step -----

  /**
   Decommitting `n` pages of the free block `h`: nothing in use changes, `n` more
   pages are decommitted, and no free block becomes committed unless a rest of `h`
   was left over.
   */
  ghost predicate Released(bs: seq<HeapBlock>, bs': seq<HeapBlock>, h: nat, n: nat) {
    && h < |bs| && bs[h].free && bs[h].committed && 0 < n <= bs[h].size
    && UsersKept(bs, bs', {}) && Hands(bs') == Hands(bs)
    && Pages(Used, bs') == Pages(Used, bs) && Pages(All, bs') == Pages(All, bs)
    && Pages(Decommitted, bs') == Pages(Decommitted, bs) + n
    && (n == bs[h].size ==> NoneCommitted(bs, bs'))
  }

  /** After the pages have been taken from block `h`, and before the block is absorbed and filed. */
  ghost predicate Blank(bs: seq<HeapBlock>, bs': seq<HeapBlock>, h: nat) {
    && h < |bs| && bs[h].free && bs[h].committed && InHand(bs', h) && !bs'[h].committed && 0 < bs'[h].size <= bs[h].size
    && UsersKept(bs, bs', {}) && Hands(bs') == Hands(bs) + {h} && h !in Hands(bs)
    && Pages(Used, bs') == Pages(Used, bs) + bs'[h].size && Pages(All, bs') == Pages(All, bs)
    && Pages(Decommitted, bs') == Pages(Decommitted, bs) + bs'[h].size
    && (bs'[h].size == bs[h].size ==> NoneCommitted(bs, bs'))
  }

  /** Block `h`, or the front part of it, has been taken in hand, and the rest is free. */
  ghost predicate Detached(bs: seq<HeapBlock>, bs': seq<HeapBlock>, h: nat) {
    && h < |bs| && bs[h].free && bs[h].committed
    && InHand(bs', h) && bs'[h].committed && bs'[h].page == bs[h].page && 0 < bs'[h].size <= bs[h].size
    && UsersKept(bs, bs', {}) && Hands(bs') == Hands(bs) + {h} && h !in Hands(bs)
    && Pages(Used, bs') == Pages(Used, bs) + bs'[h].size && Pages(All, bs') == Pages(All, bs)
    && Pages(Decommitted, bs') == Pages(Decommitted, bs)
    && (bs'[h].size == bs[h].size ==> NoneCommitted(bs, bs'))
  }

  lemma DetachedParts(bs: seq<HeapBlock>, bs': seq<HeapBlock>, h: nat)
    requires Detached(bs, bs', h)
    ensures h < |bs| == |bs'| && InHand(bs', h) && bs'[h].committed && 0 < bs'[h].size <= bs[h].size
    ensures UsersKept(bs, bs', {}) && Hands(bs') == Hands(bs) + {h} && h !in Hands(bs)
    ensures Pages(Used, bs') == Pages(Used, bs) + bs'[h].size && Pages(All, bs') == Pages(All, bs)
    ensures Pages(Decommitted, bs') == Pages(Decommitted, bs)
  {
    hide Pages, Hands, InHand, SameCells;
  }

  lemma DetachWhole(bs: seq<HeapBlock>, fl: Lists, h: nat, zeroed: set<nat>)
    requires HeapOk(bs, fl) && h < |bs| && bs[h].free && bs[h].committed
    ensures Detached(bs, Unlinked(bs, h), h) && Unlinked(bs, h)[h].size == bs[h].size
    ensures ZeroOk(bs, zeroed) ==> ZeroOk(Unlinked(bs, h), zeroed) && CleanOk(Unlinked(bs, h), h, zeroed)
  {
    FreeIsHead(bs, fl, h);
    hide HeapOk;
    UnlinkPages(bs, h);
    if ZeroOk(bs, zeroed) { UnlinkZero(bs, h, zeroed); }
    hide Pages, ZeroOk, CleanOk;
    FlagsSameCells(bs, h, bs[h].(free := false));
    hide SameCells;
    assert Hands(Unlinked(bs, h)) == Hands(bs) + {h};
  }

  /** The block in hand is cut down to `k` pages, and the rest is filed. */
  lemma DetachLess(bs: seq<HeapBlock>, bs1: seq<HeapBlock>, bs2: seq<HeapBlock>, bs3: seq<HeapBlock>, h: nat, k: nat)
    requires Detached(bs, bs1, h) && 0 < k < bs1[h].size
    requires InHand(bs2, h) && bs2[h] == bs1[h].(size := k) && UsersKept(bs1, bs2, {h})
    requires Hands(bs2) == Hands(bs1) + {h + k} && h + k !in Hands(bs1)
    requires UsersKept(bs2, bs3, {h + k}) && Hands(bs3) == Hands(bs2) - {h + k}
    requires Pages(Used, bs3) == Pages(Used, bs1) - (bs1[h].size - k) && Pages(All, bs3) == Pages(All, bs1)
    requires Pages(Decommitted, bs3) == Pages(Decommitted, bs1)
    ensures Detached(bs, bs3, h) && bs3[h].size == k
  {
    hide Pages, SameCells;
    assert InHand(bs, h) ==> h in Hands(bs);
    assert InHand(bs, h + k) ==> h + k in Hands(bs);
    UsersKeptTransitive(bs, bs1, bs2, {}, {h});
    UsersKeptTransitive(bs, bs2, bs3, {}, {h + k});
    assert Hands(bs3) == Hands(bs) + {h};
    KeptInHand(bs2, bs3, h + k, h);
  }

  lemma KeptInHand(bs: seq<HeapBlock>, bs': seq<HeapBlock>, x: nat, y: nat)
    requires UsersKept(bs, bs', {x}) && InHand(bs, y) && y != x
    ensures y < |bs'| && InHand(bs', y) && bs'[y] == bs[y].(sizePrevious := bs'[y].sizePrevious)
  {
    hide SameCells;
  }

  /** Decommitting the block in hand. */
  lemma DetachedBlank(bs: seq<HeapBlock>, bs1: seq<HeapBlock>, fl: Lists, h: nat)
    requires Detached(bs, bs1, h) && HeapOk(bs1, fl)
    ensures h < |bs1|
    ensures Blank(bs, Reflagged(bs1, h, false, false), h) && HeapOk(Reflagged(bs1, h, false, false), fl)
  {
    Reflag(bs1, fl, h, false, false);
    ReflagPages(bs1, h, false, false);
    hide Pages, HeapOk, SameCells;
    assert InHand(bs, h) ==> h in Hands(bs);
    UsersKeptTransitive(bs, bs1, Reflagged(bs1, h, false, false), {}, {h});
    hide UsersKept, Hands;
    if bs1[h].size == bs[h].size { BlankNone(bs, bs1, h); }
  }

  lemma BlankNone(bs: seq<HeapBlock>, bs1: seq<HeapBlock>, h: nat)
    requires NoneCommitted(bs, bs1) && h < |bs1|
    ensures NoneCommitted(bs, Reflagged(bs1, h, false, false))
  {
  }

  /** From the blank block to the end of the step. */
  lemma ReleaseDone(bs: seq<HeapBlock>, bs1: seq<HeapBlock>, h: nat, bs2: seq<HeapBlock>, b: nat, bs3: seq<HeapBlock>,
                    zeroed: set<nat>)
    requires Blank(bs, bs1, h) && Absorbed(bs1, h, bs2, b, zeroed) && Absorbed(bs2, b, bs3, b, zeroed)
    ensures InHand(bs3, b) && Released(bs, Linked(bs3, b), h, bs1[h].size)
    ensures ZeroOk(bs1, zeroed) ==> ZeroOk(Linked(bs3, b), zeroed)
  {
    ReleaseUsers(bs, bs1, h, bs2, b, bs3);
    InsertPages(bs3, b);
    ReleaseFrees(bs1, bs2, bs3, b);
    if ZeroOk(bs1, zeroed) {
      InsertZero(bs3, b, zeroed);
    }
    hide Pages, UsersKept, Hands, ZeroOk;
    if bs1[h].size == bs[h].size { NoneCommittedTransitive(bs, bs1, Linked(bs3, b)); }
  }

  lemma ReleaseUsers(bs: seq<HeapBlock>, bs1: seq<HeapBlock>, h: nat, bs2: seq<HeapBlock>, b: nat, bs3: seq<HeapBlock>)
    requires h < |bs| && bs[h].free && UsersKept(bs, bs1, {}) && Hands(bs1) == Hands(bs) + {h} && h !in Hands(bs)
    requires UsersKept(bs1, bs2, {h}) && Hands(bs2) == Hands(bs1) - {h} + {b} && (b == h || b !in Hands(bs1))
    requires UsersKept(bs2, bs3, {b}) && Hands(bs3) == Hands(bs2) && InHand(bs3, b)
    ensures UsersKept(bs, Linked(bs3, b), {}) && Hands(Linked(bs3, b)) == Hands(bs)
  {
    hide SameCells;
    CutFreeUsers(bs, bs1, bs2, h, b);
    assert InHand(bs, b) ==> b in Hands(bs);
    UsersKeptTransitive(bs, bs2, bs3, {}, {b});
    FlagsSameCells(bs3, b, bs3[b].(free := true));
    UsersKeptTransitive(bs, bs3, Linked(bs3, b), {}, {b});
    assert Hands(Linked(bs3, b)) == Hands(bs3) - {b};
  }

  lemma ReleaseFrees(bs1: seq<HeapBlock>, bs2: seq<HeapBlock>, bs3: seq<HeapBlock>, b: nat)
    requires NoneCommitted(bs1, bs2) && NoneCommitted(bs2, bs3) && b < |bs3| && !bs3[b].committed
    ensures NoneCommitted(bs1, Linked(bs3, b))
  {
  }

  // ----- small readings -----

  lemma PrevAbsorbsIs(bs: seq<HeapBlock>, h: nat)
    requires InHand(bs, h) && h < |bs| && (bs[h].sizePrevious > 0 ==> bs[h].sizePrevious <= h)
    ensures PrevAbsorbs(bs, h) <==>
      bs[h].sizePrevious != 0 && bs[h - bs[h].sizePrevious].free && !bs[h - bs[h].sizePrevious].committed
  {
  }

  lemma NextAbsorbsIs(bs: seq<HeapBlock>, h: nat)
    requires InHand(bs, h) && h < |bs| && NextOf(bs, h) < |bs| && (bs[NextOf(bs, h)].free ==> IsHead(bs, NextOf(bs, h)))
    ensures NextOf(bs, h) == h + bs[h].size
    ensures NextAbsorbs(bs, h) <==>
      bs[h + bs[h].size].size != 0 && bs[h + bs[h].size].free && !bs[h + bs[h].size].committed
  {
  }

  lemma BlankParts(bs: seq<HeapBlock>, bs': seq<HeapBlock>, h: nat)
    requires Blank(bs, bs', h)
    ensures h < |bs'| && InHand(bs', h) && !bs'[h].committed
  {
  }

  lemma AbsorbedParts(bs: seq<HeapBlock>, h: nat, bs': seq<HeapBlock>, b: nat, zeroed: set<nat>)
    requires Absorbed(bs, h, bs', b, zeroed)
    ensures b < |bs'| && InHand(bs', b) && !bs'[b].committed && PrevDiffers(bs', b, false)
    ensures ZeroOk(bs, zeroed) ==> ZeroOk(bs', zeroed)
  {
  }

  lemma ReleaseBlank(bs: seq<HeapBlock>, fl: Lists, h: nat, zeroed: set<nat>)
    requires HeapOk(bs, fl) && InHand(bs, h)
    ensures h < |bs| && bs[h := bs[h].(committed := false, dirty := false)] == Reflagged(bs, h, false, false)
    ensures HeapOk(Reflagged(bs, h, false, false), fl)
    ensures ZeroOk(bs, zeroed) ==> ZeroOk(Reflagged(bs, h, false, false), zeroed - Cells(bs, h))
  {
    Reflag(bs, fl, h, false, false);
    if ZeroOk(bs, zeroed) {
      WriteKeepsZero(bs, fl, h, zeroed);
      ReflagZero(bs, h, false, false, zeroed - Cells(bs, h));
    }
  }

  // ----- how far Decommit has come -----

  /** Block `h` fills a region. */
  ghost predicate Fills(bs: seq<HeapBlock>, rs: seq<Region>, h: nat)
    requires h < |bs|
  {
    exists g :: g in rs && g.base == bs[h].page && g.commitTop == bs[h].page + bs[h].size
  }

  /** Without virtual memory only a block that fills a region can be given back. */
  ghost predicate Stays(bs: seq<HeapBlock>, rs: seq<Region>, virtual: bool, h: nat)
    requires h < |bs|
  {
    !bs[h].committed || (!virtual && !Fills(bs, rs, h))
  }

  /** The free blocks that can still be given back belong to lists below `l`. */
  ghost predicate DoneAbove(bs: seq<HeapBlock>, rs: seq<Region>, virtual: bool, l: nat) {
    forall h: nat :: h < |bs| && bs[h].free && bs[h].size > 0 && !Stays(bs, rs, virtual, h) ==> GetFreeListIndex(bs[h].size) < l
  }

  /** From entry `i` on, no block of list `l` can be given back. */
  ghost predicate DoneFrom(bs: seq<HeapBlock>, rs: seq<Region>, virtual: bool, fl: Lists, l: nat, i: nat) {
    l < |fl| && forall j :: i <= j < |fl[l]| ==> fl[l][j] < |bs| && Stays(bs, rs, virtual, fl[l][j])
  }

  lemma StaysIs(bs: seq<HeapBlock>, rs: seq<Region>, virtual: bool)
    ensures virtual ==> forall h: nat :: h < |bs| && Stays(bs, rs, virtual, h) ==> !bs[h].committed
    ensures !virtual ==> forall h: nat :: h < |bs| && Stays(bs, rs, virtual, h) && bs[h].committed ==> !Fills(bs, rs, h)
  {
    hide Fills;
  }

  lemma ListCount(bs: seq<HeapBlock>, fl: Lists)
    requires HeapOk(bs, fl)
    ensures |fl| == NUM_FREE_LISTS
  {
  }

  lemma DecommitStart(bs: seq<HeapBlock>, rs: seq<Region>, virtual: bool, l: nat)
    requires l == NUM_FREE_LISTS
    ensures DoneAbove(bs, rs, virtual, l)
  {
  }

  lemma DecommitBack(bs: seq<HeapBlock>, rs: seq<Region>, virtual: bool, fl: Lists, l: nat)
    requires l < |fl|
    ensures DoneFrom(bs, rs, virtual, fl, l, |fl[l]|)
  {
  }

  lemma DecommitSkip(bs: seq<HeapBlock>, rs: seq<Region>, virtual: bool, fl: Lists, l: nat, i: nat)
    requires l < |fl| && i < |fl[l]| && fl[l][i] < |bs| && Stays(bs, rs, virtual, fl[l][i])
    ensures DoneFrom(bs, rs, virtual, fl, l, i + 1) ==> DoneFrom(bs, rs, virtual, fl, l, i)
  {
  }

  lemma CommittedStays(bs: seq<HeapBlock>, rs: seq<Region>, virtual: bool, h: nat)
    requires h < |bs| && !bs[h].committed
    ensures Stays(bs, rs, virtual, h)
  {
  }

  /** The region found by the block's address is the only one that the block could fill. */
  lemma PartlyStays(bs: seq<HeapBlock>, rs: seq<Region>, h: nat, i: nat)
    requires RegionsOk(bs, rs) && h < |bs| && i < |rs| && rs[i].base <= bs[h].page < rs[i].reserveTop
    requires !(bs[h].page == rs[i].base && rs[i].commitTop == bs[h].page + bs[h].size)
    ensures Stays(bs, rs, false, h)
  {
    forall g | g in rs ensures !(g.base == bs[h].page && g.commitTop == bs[h].page + bs[h].size) {
      var j: nat :| j < |rs| && rs[j] == g;
      assert RegionOk(bs, rs[j]);
      OneRegion(bs, rs, i, bs[h].page);
    }
  }

  /** A list in which nothing can be given back is done with. */
  lemma DecommitList(bs: seq<HeapBlock>, rs: seq<Region>, virtual: bool, fl: Lists, l: nat)
    requires HeapOk(bs, fl) && l < NUM_FREE_LISTS && DoneAbove(bs, rs, virtual, l + 1)
    requires DoneFrom(bs, rs, virtual, fl, l, 0)
    ensures DoneAbove(bs, rs, virtual, l)
  {
    forall h: nat | h < |bs| && bs[h].free && bs[h].size > 0 && !Stays(bs, rs, virtual, h)
      ensures GetFreeListIndex(bs[h].size) < l
    {
      var k, j := FreeIsListed(bs, fl, h);
    }
  }

  lemma DecommitAll(bs: seq<HeapBlock>, fl: Lists, rs: seq<Region>, virtual: bool)
    requires HeapOk(bs, fl) && DoneAbove(bs, rs, virtual, 0)
    ensures forall h: nat :: h < |bs| && bs[h].free ==> Stays(bs, rs, virtual, h)
  {
    forall h: nat | h < |bs| && bs[h].free ensures Stays(bs, rs, virtual, h) {
      assert CellOk(bs, h);
    }
  }

  lemma ReleasedParts(bs: seq<HeapBlock>, bs': seq<HeapBlock>, h: nat, n: nat)
    requires Released(bs, bs', h, n)
    ensures UsersKept(bs, bs', {}) && Hands(bs') == Hands(bs) && n > 0 && |bs'| == |bs|
    ensures Pages(Used, bs') == Pages(Used, bs) && Pages(All, bs') == Pages(All, bs)
    ensures Pages(Decommitted, bs') == Pages(Decommitted, bs) + n
  {
    hide Pages, Hands, SameCells;
  }

  /** No list that was done with comes to life again unless nothing more is wanted. */
  lemma ReleasedDone(bs: seq<HeapBlock>, bs': seq<HeapBlock>, h: nat, n: nat, rs: seq<Region>, l: nat)
    requires Released(bs, bs', h, n) && h < |bs| && n == bs[h].size
    ensures DoneAbove(bs, rs, true, l) ==> DoneAbove(bs', rs, true, l)
  {
    hide Pages, UsersKept, Hands;
  }
}
