/**
 The elementary steps of the page heap (unlink, insert, split, merge, change of
 flags) and what each keeps: the layout, the free lists, eager coalescing, the
 blocks in use, and the knowledge of which pages are zero.  A block is "in hand"
 while an operation works on it: it is on no list.
 */
module HeapSteps {
  import opened HeapLayout
  import opened FreeLists

  /** No two adjacent free blocks are in the same committed state. */
  ghost predicate Coalesced(bs: seq<HeapBlock>) {
    forall i: nat :: i < |bs| && bs[i].free && NextOf(bs, i) < |bs| && bs[NextOf(bs, i)].free ==>
      bs[i].committed != bs[NextOf(bs, i)].committed
  }

  ghost predicate HeapOk(bs: seq<HeapBlock>, fl: Lists) {
    Layout(bs) && ListsOk(bs, fl) && Coalesced(bs)
  }

  lemma EmptyHeap(bs: seq<HeapBlock>, fl: Lists)
    requires bs == [] && |fl| == NUM_FREE_LISTS && forall l :: 0 <= l < |fl| ==> fl[l] == []
    ensures HeapOk(bs, fl)
  {
    forall h: nat ensures Occurrences(fl, h) == 0 { EmptyLists(fl, h); }
  }

  ghost predicate InHand(bs: seq<HeapBlock>, h: nat) {
    IsHead(bs, h) && !bs[h].free
  }

  /** The neighbour before (after) block `h`, if free, is not in committed state `c`. */
  ghost predicate PrevDiffers(bs: seq<HeapBlock>, h: nat, c: bool)
    requires h < |bs|
  {
    0 < bs[h].sizePrevious <= h && bs[h - bs[h].sizePrevious].free ==> bs[h - bs[h].sizePrevious].committed != c
  }

  ghost predicate NextDiffers(bs: seq<HeapBlock>, h: nat, c: bool)
    requires h < |bs|
  {
    NextOf(bs, h) < |bs| && bs[NextOf(bs, h)].free ==> bs[NextOf(bs, h)].committed != c
  }

  /** Every block in use, other than those of `s`, is as it was, and no cell stands for another page. */
  ghost predicate UsersKept(bs: seq<HeapBlock>, bs': seq<HeapBlock>, s: set<nat>) {
    && |bs'| == |bs| && SameCells(bs, bs')
    && forall i: nat :: InHand(bs, i) && i !in s ==> bs'[i] == bs[i].(sizePrevious := bs'[i].sizePrevious)
  }

  lemma UsersKeptTransitive(a: seq<HeapBlock>, b: seq<HeapBlock>, c: seq<HeapBlock>, s: set<nat>, t: set<nat>)
    requires UsersKept(a, b, s) && UsersKept(b, c, t)
    requires forall i :: i in t && InHand(a, i) ==> i in s
    ensures UsersKept(a, c, s)
  {
    SameCellsTransitive(a, b, c);
    hide SameCells;
  }

  // ----- which pages are zero -----

  /** All pages of block `h` are zero; `zeroed` holds the cells whose page is known to be. */
  ghost predicate CellsZero(bs: seq<HeapBlock>, h: nat, zeroed: set<nat>)
    requires h < |bs|
  {
    forall x :: h <= x < NextOf(bs, h) ==> x in zeroed
  }

  ghost predicate CleanOk(bs: seq<HeapBlock>, h: nat, zeroed: set<nat>)
    requires h < |bs|
  {
    bs[h].committed && !bs[h].dirty ==> CellsZero(bs, h, zeroed)
  }

  /** A free committed block that is not dirty has only zero pages. */
  ghost predicate ZeroOk(bs: seq<HeapBlock>, zeroed: set<nat>) {
    forall i: nat :: i < |bs| && bs[i].free ==> CleanOk(bs, i, zeroed)
  }

  // ----- the elementary steps -----

  /** Steps that free nothing, and leave what stays free alone, keep the heap coalesced. */
  lemma CoalescedFrame(bs: seq<HeapBlock>, bs': seq<HeapBlock>)
    requires Coalesced(bs) && |bs'| == |bs|
    requires forall i :: 0 <= i < |bs| && bs'[i].free ==>
      bs[i].free && bs'[i].size == bs[i].size && bs'[i].committed == bs[i].committed
    ensures Coalesced(bs')
  {
    forall i: nat | i < |bs'| && bs'[i].free && NextOf(bs', i) < |bs'| && bs'[NextOf(bs', i)].free
      ensures bs'[i].committed != bs'[NextOf(bs', i)].committed
    {
      assert NextOf(bs', i) == NextOf(bs, i);
    }
  }

  /** ... and lose no knowledge about zero pages. */
  lemma ZeroFrame(bs: seq<HeapBlock>, bs': seq<HeapBlock>, zeroed: set<nat>)
    requires ZeroOk(bs, zeroed) && |bs'| == |bs|
    requires forall i :: 0 <= i < |bs| && bs'[i].free ==>
      bs[i].free && bs'[i].size == bs[i].size && bs'[i].committed == bs[i].committed && bs'[i].dirty == bs[i].dirty
    ensures ZeroOk(bs', zeroed)
  {
    forall i: nat | i < |bs'| && bs'[i].free ensures CleanOk(bs', i, zeroed) {
      assert CleanOk(bs, i, zeroed);
      assert NextOf(bs', i) == NextOf(bs, i);
    }
  }

  function Unlinked(bs: seq<HeapBlock>, h: nat): (bs': seq<HeapBlock>)
    requires h < |bs|
    ensures |bs'| == |bs| && bs'[h] == bs[h].(free := false)
  {
    bs[h := bs[h].(free := false)]
  }

  /** The blocks in hand or in use. */
  ghost function Hands(bs: seq<HeapBlock>): set<nat> {
    set i: nat | i < |bs| && InHand(bs, i)
  }

  lemma Unlink(bs: seq<HeapBlock>, fl: Lists, l: nat, i: nat)
    requires HeapOk(bs, fl) && l < |fl| && i < |fl[l]|
    ensures fl[l][i] < |bs| && IsHead(bs, fl[l][i]) && bs[fl[l][i]].free
    ensures var h := fl[l][i];
      && HeapOk(Unlinked(bs, h), fl[l := Cut(fl[l], i)])
      && UsersKept(bs, Unlinked(bs, h), {}) && Hands(Unlinked(bs, h)) == Hands(bs) + {h} && h !in Hands(bs)
      && PrevDiffers(Unlinked(bs, h), h, bs[h].committed) && NextDiffers(Unlinked(bs, h), h, bs[h].committed)
  {
    hide ListsOk, SameCells;
    UnlinkKeeps(bs, fl, l, i);
    var h := fl[l][i];
    FlagsSameCells(bs, h, bs[h].(free := false));
    var bs' := Unlinked(bs, h);
    assert CellOk(bs, h);
    UnlinkLayout(bs, h);
    CoalescedFrame(bs, bs');
    UnlinkNeighbours(bs, h);
  }

  lemma UnlinkZero(bs: seq<HeapBlock>, h: nat, zeroed: set<nat>)
    requires h < |bs| && bs[h].free && ZeroOk(bs, zeroed)
    ensures ZeroOk(Unlinked(bs, h), zeroed) && CleanOk(Unlinked(bs, h), h, zeroed)
  {
    ZeroFrame(bs, Unlinked(bs, h), zeroed);
    assert CleanOk(bs, h, zeroed);
  }

  lemma UnlinkPages(bs: seq<HeapBlock>, h: nat)
    requires h < |bs| && bs[h].free
    ensures Pages(Used, Unlinked(bs, h)) == Pages(Used, bs) + bs[h].size
    ensures Pages(Decommitted, Unlinked(bs, h)) == Pages(Decommitted, bs)
    ensures Pages(All, Unlinked(bs, h)) == Pages(All, bs)
  {
    PagesUpdate(Used, bs, h, bs[h].(free := false));
    PagesUpdate(Decommitted, bs, h, bs[h].(free := false));
    PagesUpdate(All, bs, h, bs[h].(free := false));
  }

  lemma UnlinkLayout(bs: seq<HeapBlock>, h: nat)
    requires Layout(bs) && IsHead(bs, h)
    ensures Layout(Unlinked(bs, h))
  {
    FlagsLayout(bs, h, bs[h].(free := false));
  }

  lemma UnlinkNeighbours(bs: seq<HeapBlock>, h: nat)
    requires Layout(bs) && Coalesced(bs) && IsHead(bs, h) && bs[h].free
    ensures PrevDiffers(Unlinked(bs, h), h, bs[h].committed) && NextDiffers(Unlinked(bs, h), h, bs[h].committed)
  {
    NextIn(bs, h);
    if bs[h].sizePrevious > 0 {
      PrevIn(bs, h);
      assert NextOf(bs, h - bs[h].sizePrevious) == h;
    }
  }

  function Linked(bs: seq<HeapBlock>, h: nat): (bs': seq<HeapBlock>)
    requires h < |bs|
    ensures |bs'| == |bs|
  {
    bs[h := bs[h].(free := true)]
  }

  lemma Insert(bs: seq<HeapBlock>, fl: Lists, l: nat, i: nat, h: nat)
    requires HeapOk(bs, fl) && InHand(bs, h) && l < |fl|
    requires FitsAt(bs, fl[l], i, h) && Filed(bs, l, h)
    requires PrevDiffers(bs, h, bs[h].committed) && NextDiffers(bs, h, bs[h].committed)
    ensures HeapOk(Linked(bs, h), fl[l := Put(fl[l], i, h)])
    ensures UsersKept(bs, Linked(bs, h), {h}) && Hands(Linked(bs, h)) == Hands(bs) - {h}
  {
    hide ListsOk, FitsAt, Filed, SameCells;
    var bs' := Linked(bs, h);
    FlagsSameCells(bs, h, bs'[h]);
    InsertKeeps(bs, fl, l, i, h);
    FlagsLayout(bs, h, bs'[h]);
    InsertCoalesced(bs, h);
  }

  lemma InsertZero(bs: seq<HeapBlock>, h: nat, zeroed: set<nat>)
    requires InHand(bs, h) && ZeroOk(bs, zeroed)
    ensures CleanOk(bs, h, zeroed) <==> ZeroOk(Linked(bs, h), zeroed)
  {
    var bs' := Linked(bs, h);
    assert CleanOk(bs', h, zeroed) == CleanOk(bs, h, zeroed);
    forall x: nat | x < |bs| && x != h ensures CleanOk(bs', x, zeroed) == CleanOk(bs, x, zeroed) {
    }
  }

  lemma InsertPages(bs: seq<HeapBlock>, h: nat)
    requires InHand(bs, h)
    ensures Pages(Used, Linked(bs, h)) == Pages(Used, bs) - bs[h].size
    ensures Pages(Decommitted, Linked(bs, h)) == Pages(Decommitted, bs)
    ensures Pages(All, Linked(bs, h)) == Pages(All, bs)
  {
    PagesUpdate(Used, bs, h, bs[h].(free := true));
    PagesUpdate(Decommitted, bs, h, bs[h].(free := true));
    PagesUpdate(All, bs, h, bs[h].(free := true));
  }

  lemma InsertCoalesced(bs: seq<HeapBlock>, h: nat)
    requires Layout(bs) && Coalesced(bs) && InHand(bs, h)
    requires PrevDiffers(bs, h, bs[h].committed) && NextDiffers(bs, h, bs[h].committed)
    ensures Coalesced(bs[h := bs[h].(free := true)])
  {
    var bs' := bs[h := bs[h].(free := true)];
    forall i: nat | i < |bs'| && bs'[i].free && NextOf(bs', i) < |bs'| && bs'[NextOf(bs', i)].free
      ensures bs'[i].committed != bs'[NextOf(bs', i)].committed
    {
      assert CellOk(bs, i);
      NextIn(bs, i);
      if NextOf(bs, i) == h { assert bs[h].sizePrevious == bs[i].size; }
    }
  }

  function Reflagged(bs: seq<HeapBlock>, h: nat, committed: bool, dirty: bool): (bs': seq<HeapBlock>)
    requires h < |bs|
    ensures |bs'| == |bs| && bs'[h] == bs[h].(committed := committed, dirty := dirty)
  {
    bs[h := bs[h].(committed := committed, dirty := dirty)]
  }

  /** Changing the committed and dirty flags of a block in hand. */
  lemma Reflag(bs: seq<HeapBlock>, fl: Lists, h: nat, committed: bool, dirty: bool)
    requires HeapOk(bs, fl) && InHand(bs, h)
    ensures var bs' := Reflagged(bs, h, committed, dirty);
      && HeapOk(bs', fl) && InHand(bs', h) && UsersKept(bs, bs', {h}) && Hands(bs') == Hands(bs)
  {
    hide SameCells;
    var bs' := Reflagged(bs, h, committed, dirty);
    FlagsSameCells(bs, h, bs'[h]);
    FlagsLayout(bs, h, bs'[h]);
    ListsFrame(bs, bs', fl);
    CoalescedFrame(bs, bs');
  }

  lemma ReflagPages(bs: seq<HeapBlock>, h: nat, committed: bool, dirty: bool)
    requires InHand(bs, h)
    ensures var bs' := Reflagged(bs, h, committed, dirty);
      && Pages(Used, bs') == Pages(Used, bs) && Pages(All, bs') == Pages(All, bs)
      && Pages(Decommitted, bs') == Pages(Decommitted, bs) - Weight(Decommitted, bs[h]) + Weight(Decommitted, bs'[h])
  {
    var b := bs[h].(committed := committed, dirty := dirty);
    PagesUpdate(Used, bs, h, b);
    PagesUpdate(Decommitted, bs, h, b);
    PagesUpdate(All, bs, h, b);
  }

  lemma SplitHand(bs: seq<HeapBlock>, fl: Lists, h: nat, k: nat)
    requires HeapOk(bs, fl) && InHand(bs, h) && 0 < k < bs[h].size
    ensures NextOf(bs, h) < |bs|
    ensures var bs' := Split(bs, h, k);
      && HeapOk(bs', fl) && UsersKept(bs, bs', {h}) && Hands(bs') == Hands(bs) + {h + k}
      && InHand(bs', h) && InHand(bs', h + k) && NextOf(bs', h) == h + k && NextOf(bs', h + k) == NextOf(bs, h)
  {
    SplitLayout(bs, h, k);
    SplitFlags(bs, h, k);
    SplitUsers(bs, h, k);
    hide Layout, ListsOk, Coalesced, Split, UsersKept, Hands;
    ListsFrame(bs, Split(bs, h, k), fl);
    CoalescedFrame(bs, Split(bs, h, k));
  }

  /** Splitting frees nothing and leaves the free blocks alone. */
  lemma SplitFlags(bs: seq<HeapBlock>, h: nat, k: nat)
    requires Layout(bs) && InHand(bs, h) && 0 < k < bs[h].size && NextOf(bs, h) < |bs|
    ensures var bs' := Split(bs, h, k);
      && (forall x :: 0 <= x < |bs| ==> bs'[x].free == bs[x].free)
      && (forall x :: 0 <= x < |bs| && bs[x].free ==> bs'[x].size == bs[x].size && bs'[x].committed == bs[x].committed)
      && InHand(bs', h) && InHand(bs', h + k) && NextOf(bs', h) == h + k && NextOf(bs', h + k) == NextOf(bs, h)
      && Hands(bs') == Hands(bs) + {h + k}
  {
    assert CellOk(bs, h);
    assert bs[h + k].Empty();
  }

  lemma SplitZero(bs: seq<HeapBlock>, h: nat, k: nat, zeroed: set<nat>)
    requires Layout(bs) && InHand(bs, h) && 0 < k < bs[h].size && NextOf(bs, h) < |bs|
    ensures ZeroOk(bs, zeroed) ==> ZeroOk(Split(bs, h, k), zeroed)
    ensures CleanOk(bs, h, zeroed) ==> CleanOk(Split(bs, h, k), h, zeroed) && CleanOk(Split(bs, h, k), h + k, zeroed)
  {
    assert CellOk(bs, h);
    assert bs[h + k].Empty();
    if ZeroOk(bs, zeroed) { ZeroFrame(bs, Split(bs, h, k), zeroed); }
  }

  lemma SplitUsers(bs: seq<HeapBlock>, h: nat, k: nat)
    requires Layout(bs) && InHand(bs, h) && 0 < k < bs[h].size && NextOf(bs, h) < |bs|
    ensures UsersKept(bs, Split(bs, h, k), {h})
  {
    SplitSameCells(bs, h, k);
    hide SameCells;
    var bs' := Split(bs, h, k);
    forall i: nat | InHand(bs, i) && i != h ensures bs'[i] == bs[i].(sizePrevious := bs'[i].sizePrevious) {
      BoundaryOutside(bs, h, i);
    }
  }

  lemma MergeHand(bs: seq<HeapBlock>, fl: Lists, h: nat)
    requires HeapOk(bs, fl) && InHand(bs, h) && InHand(bs, NextOf(bs, h))
    ensures NextOf(bs, NextOf(bs, h)) < |bs|
    ensures var bs' := Merge(bs, h);
      && HeapOk(bs', fl) && UsersKept(bs, bs', {h, NextOf(bs, h)}) && Hands(bs') == Hands(bs) - {NextOf(bs, h)}
      && InHand(bs', h) && NextOf(bs', h) == NextOf(bs, NextOf(bs, h))
  {
    MergeLayout(bs, h);
    MergeSameCells(bs, h);
    hide SameCells;
    var bs' := Merge(bs, h);
    ListsFrame(bs, bs', fl);
    CoalescedFrame(bs, bs');
  }

  lemma MergeZero(bs: seq<HeapBlock>, h: nat, zeroed: set<nat>)
    requires Mergeable(bs, h) && InHand(bs, h) && ZeroOk(bs, zeroed)
    ensures ZeroOk(Merge(bs, h), zeroed)
  {
    ZeroFrame(bs, Merge(bs, h), zeroed);
  }

  /** The cells of a merged block are those of its parts. */
  lemma MergeCells(bs: seq<HeapBlock>, h: nat, zeroed: set<nat>)
    requires Mergeable(bs, h) && Layout(bs)
    ensures CellsZero(Merge(bs, h), h, zeroed)
       <==> CellsZero(bs, h, zeroed) && CellsZero(bs, NextOf(bs, h), zeroed)
  {
    var bs', n := Merge(bs, h), NextOf(bs, h);
    NextIn(bs, h);
    if CellsZero(bs', h, zeroed) {
      forall x | h <= x < n ensures x in zeroed { assert h <= x < NextOf(bs', h); }
      forall x | n <= x < NextOf(bs, n) ensures x in zeroed { assert h <= x < NextOf(bs', h); }
    }
  }

  lemma ReflagDiffers(bs: seq<HeapBlock>, h: nat, committed: bool, dirty: bool)
    requires InHand(bs, h)
    ensures forall c :: PrevDiffers(bs, h, c) ==> PrevDiffers(Reflagged(bs, h, committed, dirty), h, c)
    ensures forall c :: NextDiffers(bs, h, c) ==> NextDiffers(Reflagged(bs, h, committed, dirty), h, c)
  {
  }

  lemma ReflagZero(bs: seq<HeapBlock>, h: nat, committed: bool, dirty: bool, zeroed: set<nat>)
    requires InHand(bs, h)
    ensures ZeroOk(bs, zeroed) ==> ZeroOk(Reflagged(bs, h, committed, dirty), zeroed)
    ensures CellsZero(Reflagged(bs, h, committed, dirty), h, zeroed) <==> CellsZero(bs, h, zeroed)
  {
    if ZeroOk(bs, zeroed) { ZeroFrame(bs, Reflagged(bs, h, committed, dirty), zeroed); }
  }
}
