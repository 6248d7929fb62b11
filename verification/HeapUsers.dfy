/**
 Blocks in use by their addresses.  Descriptors move when the array is compacted, but
 whoever was given a block knows it by its address, and so does the heap, which finds
 its own descriptors in one.
 */
module HeapUsers {
  import opened HeapLayout
  import opened FreeLists
  import opened HeapSteps
  import opened HeapRegions
  import opened HeapExpansion
  import opened HeapGrowth
  import opened HeapAlloc
  import opened HeapDecommit
  import opened HeapRuns
  import opened Coalescing

  /** Address and size of the blocks in use, but for the one at `own`, which holds the descriptors. */
  ghost function Users(bs: seq<HeapBlock>, own: nat): set<(nat, nat)> {
    set i: nat | i < |bs| && InHand(bs, i) && bs[i].page != own :: (bs[i].page, bs[i].size)
  }

  lemma IsUser(bs: seq<HeapBlock>, own: nat, i: nat)
    requires InHand(bs, i) && bs[i].page != own
    ensures i < |bs| && (bs[i].page, bs[i].size) in Users(bs, own)
  {
  }

  lemma UserOf(bs: seq<HeapBlock>, own: nat, u: (nat, nat)) returns (i: nat)
    requires u in Users(bs, own)
    ensures i < |bs| && InHand(bs, i) && bs[i].page == u.0 != own && bs[i].size == u.1
  {
    i :| i < |bs| && InHand(bs, i) && bs[i].page != own && u == (bs[i].page, bs[i].size);
  }

  /** The descriptors are in a block that is large enough for them. */
  ghost predicate DescriptorsOk(bs: seq<HeapBlock>, own: nat) {
    if own == 0 then bs == [] else exists i: nat :: HoldsDescriptors(bs, own, i)
  }

  ghost predicate HoldsDescriptors(bs: seq<HeapBlock>, own: nat, i: nat) {
    InHand(bs, i) && bs[i].page == own && DescriptorPages(|bs|, HEAP_BLOCK_BYTES) <= bs[i].size
  }

  lemma DescriptorsKept(bs: seq<HeapBlock>, bs': seq<HeapBlock>, own: nat, s: set<nat>)
    requires DescriptorsOk(bs, own) && UsersKept(bs, bs', s)
    requires forall i :: i in s && i < |bs| ==> bs[i].page != own || !InHand(bs, i)
    ensures DescriptorsOk(bs', own)
  {
    if own != 0 {
      var i: nat :| HoldsDescriptors(bs, own, i);
      hide DescriptorPages;
      assert HoldsDescriptors(bs', own, i);
    }
  }

  // ----- what the operations do to the users -----

  lemma SameUsers(bs: seq<HeapBlock>, bs': seq<HeapBlock>, own: nat)
    requires UsersKept(bs, bs', {}) && Hands(bs') == Hands(bs)
    ensures Users(bs', own) == Users(bs, own)
  {
    HandsMeet(bs, bs');
  }

  lemma HandsMeet(bs: seq<HeapBlock>, bs': seq<HeapBlock>)
    requires UsersKept(bs, bs', {}) && Hands(bs') == Hands(bs)
    ensures |bs'| == |bs| && forall i: nat :: InHand(bs', i) <==> InHand(bs, i)
    ensures forall i: nat :: InHand(bs, i) ==> bs'[i].page == bs[i].page && bs'[i].size == bs[i].size
  {
    forall i: nat ensures InHand(bs', i) <==> InHand(bs, i) {
      assert i in Hands(bs') <==> i in Hands(bs);
    }
  }

  lemma OneMoreUser(bs: seq<HeapBlock>, bs': seq<HeapBlock>, own: nat, b: nat)
    requires UsersKept(bs, bs', {}) && Hands(bs') == Hands(bs) + {b} && InHand(bs', b)
    requires bs'[b].page != own
    ensures Users(bs', own) == Users(bs, own) + {(bs'[b].page, bs'[b].size)}
  {
    forall i: nat ensures InHand(bs', i) <==> InHand(bs, i) || i == b {
      assert i in Hands(bs') <==> i in Hands(bs) || i == b;
    }
    forall u | u in Users(bs', own) ensures u in Users(bs, own) + {(bs'[b].page, bs'[b].size)} {
      var i := UserOf(bs', own, u);
      if i != b { IsUser(bs, own, i); }
    }
    forall u | u in Users(bs, own) ensures u in Users(bs', own) {
      var i := UserOf(bs, own, u);
      IsUser(bs', own, i);
    }
    IsUser(bs', own, b);
  }

  /** Two blocks do not begin at the same page. */
  lemma OneBlock(bs: seq<HeapBlock>, rs: seq<Region>, i: nat, j: nat)
    requires RegionsOk(bs, rs) && IsHead(bs, i) && IsHead(bs, j) && bs[i].page == bs[j].page
    ensures i == j
  {
    assert Holds(bs, i, i, bs[i].page) && Holds(bs, j, j, bs[i].page);
    OneCell(bs, rs, i, j, bs[i].page);
  }

  lemma OneUserLess(bs: seq<HeapBlock>, bs': seq<HeapBlock>, rs: seq<Region>, own: nat, h: nat)
    requires UsersKept(bs, bs', {h}) && Hands(bs') == Hands(bs) - {h} && InHand(bs, h) && RegionsOk(bs, rs)
    ensures Users(bs', own) == Users(bs, own) - {(bs[h].page, bs[h].size)}
  {
    forall i: nat ensures InHand(bs', i) <==> InHand(bs, i) && i != h {
      assert i in Hands(bs') <==> i in Hands(bs) && i != h;
    }
    forall u | u in Users(bs', own) ensures u in Users(bs, own) - {(bs[h].page, bs[h].size)} {
      var i := UserOf(bs', own, u);
      IsUser(bs, own, i);
      if bs[i].page == bs[h].page { OneBlock(bs, rs, i, h); }
    }
    forall u | u in Users(bs, own) - {(bs[h].page, bs[h].size)} ensures u in Users(bs', own) {
      var i := UserOf(bs, own, u);
      IsUser(bs', own, i);
    }
  }

  /** A block that was not in use before is none of those that were. */
  lemma NewUser(bs: seq<HeapBlock>, bs': seq<HeapBlock>, rs: seq<Region>, b: nat, own: nat)
    requires UsersKept(bs, bs', {}) && InHand(bs', b) && b !in Hands(bs) && RegionsOk(bs', rs)
    ensures forall u :: u in Users(bs, own) ==> u.0 != bs'[b].page
    ensures own != 0 && DescriptorsOk(bs, own) ==> bs'[b].page != own
  {
    forall i: nat | InHand(bs, i) ensures bs[i].page != bs'[b].page {
      assert i in Hands(bs);
      if bs[i].page == bs'[b].page { OneBlock(bs', rs, i, b); }
    }
    if own != 0 && DescriptorsOk(bs, own) { var i: nat :| HoldsDescriptors(bs, own, i); }
  }

  // ----- compaction -----

  lemma CompactedUsers(bs: seq<HeapBlock>, rs: seq<Region>, h: nat, own: nat)
    requires Removable(bs, h) && RegionsOk(bs, rs)
    ensures Users(Compacted(bs, h), own) == Users(bs, own) - {(bs[h].page, bs[h].size)}
  {
    var bs' := Compacted(bs, h);
    forall u | u in Users(bs', own) ensures u in Users(bs, own) - {(bs[h].page, bs[h].size)} {
      var y := UserOf(bs', own, u);
      var x := CompactedUser(bs, h, y);
      IsUser(bs, own, x);
      if bs[x].page == bs[h].page { OneBlock(bs, rs, x, h); }
    }
    forall u | u in Users(bs, own) - {(bs[h].page, bs[h].size)} ensures u in Users(bs', own) {
      var x := UserOf(bs, own, u);
      SurvivingUser(bs, h, x);
      IsUser(bs', own, Shift(bs, h, x));
    }
  }

  lemma CompactedUser(bs: seq<HeapBlock>, h: nat, y: nat) returns (x: nat)
    requires Removable(bs, h) && InHand(Compacted(bs, h), y)
    ensures InHand(bs, x) && x != h && x < |bs| && bs[x].page == Compacted(bs, h)[y].page
    ensures bs[x].size == Compacted(bs, h)[y].size
  {
    if NeedSentinel(bs, h) { AtSentinel(bs, h); }
    x := Origin(bs, h, y);
    At(bs, h, x);
    hide Compacted;
  }

  lemma SurvivingUser(bs: seq<HeapBlock>, h: nat, x: nat)
    requires Removable(bs, h) && InHand(bs, x) && x != h
    ensures x < h || x >= Src(bs, h)
    ensures var y := Shift(bs, h, x);
      InHand(Compacted(bs, h), y) && Compacted(bs, h)[y].page == bs[x].page && Compacted(bs, h)[y].size == bs[x].size
  {
    BoundaryOutside(bs, h, x);
    if x < h { HeadsApart(bs, x, h); } else { HeadsApart(bs, h, x); }
    At(bs, h, x);
    hide Compacted;
  }

  lemma CompactedDescriptors(bs: seq<HeapBlock>, h: nat, own: nat)
    requires Removable(bs, h) && DescriptorsOk(bs, own) && bs[h].page != own
    ensures DescriptorsOk(Compacted(bs, h), own)
  {
    if own != 0 {
      var i: nat :| HoldsDescriptors(bs, own, i);
      SurvivingUser(bs, h, i);
      hide Compacted, DescriptorPages;
      DescriptorPagesMonotone(|Compacted(bs, h)|, |bs|, HEAP_BLOCK_BYTES);
      assert HoldsDescriptors(Compacted(bs, h), own, Shift(bs, h, i));
    }
  }

  lemma CompactedCommitted(bs: seq<HeapBlock>, h: nat)
    requires Removable(bs, h) && UsersCommitted(bs)
    ensures UsersCommitted(Compacted(bs, h))
  {
    forall y: nat | InHand(Compacted(bs, h), y) ensures Compacted(bs, h)[y].committed {
      if NeedSentinel(bs, h) { AtSentinel(bs, h); }
      At(bs, h, Origin(bs, h, y));
      hide Compacted;
    }
  }

  // ----- growth -----

  // ----- large allocations -----

  /** A large allocation, by address and size: it ends where the committed part of its region ends. */
  predicate LargeIn(r: Region, u: (nat, nat)) {
    r.large && r.base <= u.0 < r.commitTop && u.0 + u.1 == r.commitTop
  }

  ghost predicate HasRegion(rs: seq<Region>, u: (nat, nat)) {
    exists r :: r in rs && LargeIn(r, u)
  }

  /** Each large allocation has a region, and no region holds two: no two end at the same page. */
  ghost predicate LargesOk(rs: seq<Region>, larges: set<(nat, nat)>) {
    && (forall u :: u in larges ==> HasRegion(rs, u))
    && (forall u, v :: u in larges && v in larges && u.0 + u.1 == v.0 + v.1 ==> u == v)
  }

  lemma LargesFrame(rs: seq<Region>, rs': seq<Region>, larges: set<(nat, nat)>)
    requires LargesOk(rs, larges) && forall r :: r in rs && r.large ==> r in rs'
    ensures LargesOk(rs', larges)
  {
    forall u | u in larges ensures HasRegion(rs', u) {
      assert HasRegion(rs, u);
      var r :| r in rs && LargeIn(r, u);
      assert r in rs';
    }
  }

  /** One more, in a region of its own. */
  lemma LargeAdded(bs: seq<HeapBlock>, rs: seq<Region>, r: Region, larges: set<(nat, nat)>, u: (nat, nat))
    requires LargesOk(rs, larges) && LargeIn(r, u) && RegionsLead(bs, [r] + rs)
    ensures LargesOk([r] + rs, larges + {u}) && forall v :: v in larges ==> v.0 != u.0
  {
    var rs' := [r] + rs;
    LargesFrame(rs, rs', larges);
    forall v | v in larges ensures v.0 + v.1 != u.0 + u.1 && v.0 != u.0 {
      assert HasRegion(rs, v);
      var t :| t in rs && LargeIn(t, v);
      var i: nat :| i < |rs| && rs[i] == t;
      assert rs'[i + 1] == t && rs'[0] == r;
      ApartFrom(bs, rs', 0, i + 1);
      ApartFrom(bs, rs', i + 1, 0);
    }
    assert r in rs' && HasRegion(rs', u);
  }

  lemma LargeRemoved(rs: seq<Region>, g: nat, larges: set<(nat, nat)>, u: (nat, nat))
    requires LargesOk(rs, larges) && g < |rs| && u in larges && LargeIn(rs[g], u)
    ensures LargesOk(rs[..g] + rs[g + 1..], larges - {u})
  {
    var rs' := rs[..g] + rs[g + 1..];
    forall v | v in larges - {u} ensures HasRegion(rs', v) {
      assert HasRegion(rs, v);
      var t :| t in rs && LargeIn(t, v);
      var i: nat :| i < |rs| && rs[i] == t;
      assert i != g && rs'[if i < g then i else i - 1] == t;
    }
  }

  /** A large allocation is found by its address. */
  lemma LargeFound(bs: seq<HeapBlock>, rs: seq<Region>, larges: set<(nat, nat)>, u: (nat, nat), g: nat)
    requires RegionsOk(bs, rs) && LargesOk(rs, larges) && u in larges && g < |rs|
    requires rs[g].base <= u.0 < rs[g].reserveTop
    ensures LargeIn(rs[g], u)
  {
    assert HasRegion(rs, u);
    var r :| r in rs && LargeIn(r, u);
    var i: nat :| i < |rs| && rs[i] == r;
    assert RegionOk(bs, rs[i]);
    OneRegion(bs, rs, g, u.0);
  }

  /** Large allocations are not among the blocks. */
  lemma LargeIsNoBlock(bs: seq<HeapBlock>, rs: seq<Region>, larges: set<(nat, nat)>, u: (nat, nat), i: nat)
    requires RegionsOk(bs, rs) && LargesOk(rs, larges) && u in larges && IsHead(bs, i)
    ensures bs[i].page != u.0
  {
    var j := RegionOf(bs, rs, i);
    if bs[i].page == u.0 { LargeFound(bs, rs, larges, u, j); }
  }

  /** The region in which a block begins. */
  lemma RegionOf(bs: seq<HeapBlock>, rs: seq<Region>, i: nat) returns (j: nat)
    requires RegionsOk(bs, rs) && IsHead(bs, i)
    ensures j < |rs| && !rs[j].large && rs[j].base <= bs[i].page < rs[j].commitTop <= rs[j].reserveTop
    ensures i == rs[j].blockId + (bs[i].page - rs[j].base)
  {
    assert Holds(bs, i, i, bs[i].page);
    assert Mapped(rs, i, bs[i].page);
    j :| MapsTo(rs, j, i, bs[i].page);
    assert RegionOk(bs, rs[j]);
  }

  // ----- the whole state -----

  /** No region of a large allocation has pages left that are not committed. */
  predicate NoTails(rs: seq<Region>) {
    forall r :: r in rs && r.large ==> r.commitTop == r.reserveTop
  }

  /** Without virtual memory a region is all committed, and there are no large allocations. */
  predicate Plain(rs: seq<Region>) {
    forall r :: r in rs ==> !r.large && r.commitTop == r.reserveTop
  }

  /** The pages that hold the region records are in use. */
  ghost predicate RecordsOk(bs: seq<HeapBlock>, own: nat, records: set<nat>) {
    forall p :: p in records ==> (p, 1) in Users(bs, own)
  }

  ghost predicate SoundState(bs: seq<HeapBlock>, fl: Lists, rs: seq<Region>, own: nat, records: set<nat>,
                             larges: set<(nat, nat)>, virtual: bool) {
    && HeapOk(bs, fl) && UsersCommitted(bs) && RegionsOk(bs, rs) && DescriptorsOk(bs, own)
    && RecordsOk(bs, own, records) && LargesOk(rs, larges) && (virtual || Plain(rs))
  }

  /** What the heap's clients hold: address and size of blocks and of large allocations. */
  ghost function Clients(bs: seq<HeapBlock>, own: nat, records: set<nat>, larges: set<(nat, nat)>): set<(nat, nat)> {
    set u | u in Users(bs, own) + larges && u.0 !in records
  }

  /**
   The accounts: `due` pages have been handed out and not been counted yet, and
   `uncounted` pages never are.  The blocks' pages are those of the regions.
   */
  ghost predicate AccountsOk(bs: seq<HeapBlock>, rs: seq<Region>, numAlloc: int, numDecommitted: int, largeAllocs: int,
                             uncounted: int, due: int, sloppy: bool) {
    && numAlloc + uncounted + due == Pages(Used, bs) + largeAllocs
    && (sloppy || numDecommitted == Pages(Decommitted, bs))
    && Pages(All, bs) == RegionPages(rs)
  }

  /** A free block taken in hand: its address is new, and it is one user more. */
  lemma HandSound(bs: seq<HeapBlock>, fl: Lists, bs': seq<HeapBlock>, fl': Lists, rs: seq<Region>, own: nat,
                  records: set<nat>,
                  larges: set<(nat, nat)>, virtual: bool, b: nat)
    requires SoundState(bs, fl, rs, own, records, larges, virtual) && HeapOk(bs', fl') && |bs| > 0
    requires UsersKept(bs, bs', {}) && Hands(bs') == Hands(bs) + {b} && b !in Hands(bs) && InHand(bs', b)
    requires bs'[b].committed
    ensures SoundState(bs', fl', rs, own, records, larges, virtual)
    ensures b < |bs'| && bs'[b].page > 0 && bs'[b].page != own && bs'[b].page !in records
    ensures Users(bs', own) == Users(bs, own) + {(bs'[b].page, bs'[b].size)}
    ensures forall u :: u in Users(bs, own) || u in larges ==> u.0 != bs'[b].page
  {
    HandCommitted(bs, bs', b);
    UsersRegions(bs, bs', {}, rs);
    DescriptorsKept(bs, bs', own, {});
    assert own != 0;
    NewUser(bs, bs', rs, b, own);
    OneMoreUser(bs, bs', own, b);
    assert bs'[b].page > 0 by { assert CellOk(bs', b); }
    forall u | u in larges ensures u.0 != bs'[b].page { LargeIsNoBlock(bs', rs, larges, u, b); }
    forall p | p in records ensures p != bs'[b].page { assert (p, 1) in Users(bs, own); }
    hide *;
  }

  lemma HandCommitted(bs: seq<HeapBlock>, bs': seq<HeapBlock>, b: nat)
    requires UsersCommitted(bs) && UsersKept(bs, bs', {}) && Hands(bs') == Hands(bs) + {b} && InHand(bs', b)
    requires bs'[b].committed
    ensures UsersCommitted(bs')
  {
    forall i: nat | InHand(bs', i) ensures bs'[i].committed {
      assert i in Hands(bs');
      assert i in Hands(bs) || i == b;
    }
  }

  /** Allocating a block. */
  lemma AllocatedSound(bs: seq<HeapBlock>, fl: Lists, bs': seq<HeapBlock>, fl': Lists, rs: seq<Region>, own: nat,
                       records: set<nat>,
                       larges: set<(nat, nat)>, virtual: bool, h: nat, b: nat, size: nat, alignment: nat)
    requires SoundState(bs, fl, rs, own, records, larges, virtual) && HeapOk(bs', fl')
    requires alignment > 0 && Allocated(bs, bs', h, b, size, alignment)
    ensures SoundState(bs', fl', rs, own, records, larges, virtual)
    ensures b < |bs'| && InHand(bs', b) && bs'[b].size == size > 0 && bs'[b].page > 0 && bs'[b].page % alignment == 0
    ensures bs'[b].page != own && bs'[b].page !in records && Users(bs', own) == Users(bs, own) + {(bs'[b].page, size)}
    ensures forall u :: u in Users(bs, own) || u in larges ==> u.0 != bs'[b].page
    ensures Pages(Used, bs') == Pages(Used, bs) + size && Pages(All, bs') == Pages(All, bs)
  {
    HandSound(bs, fl, bs', fl', rs, own, records, larges, virtual, b) by { hide SoundState, HeapOk, UsersKept, Hands; }
    hide SoundState, HeapOk, UsersKept, Hands, Pages, Users;
  }

  /** Freeing a block: one user less. */
  lemma FreedSound(bs: seq<HeapBlock>, fl: Lists, bs': seq<HeapBlock>, fl': Lists, rs: seq<Region>, own: nat,
                   records: set<nat>,
                   larges: set<(nat, nat)>, virtual: bool, h: nat)
    requires SoundState(bs, fl, rs, own, records, larges, virtual) && HeapOk(bs', fl')
    requires InHand(bs, h) && bs[h].page != own && bs[h].page !in records
    requires UsersKept(bs, bs', {h}) && Hands(bs') == Hands(bs) - {h}
    ensures SoundState(bs', fl', rs, own, records, larges, virtual)
    ensures Users(bs', own) == Users(bs, own) - {(bs[h].page, bs[h].size)}
  {
    UsersStayCommitted(bs, bs', {h});
    UsersRegions(bs, bs', {h}, rs);
    DescriptorsKept(bs, bs', own, {h});
    OneUserLess(bs, bs', rs, own, h);
  }

  /** Nothing has happened that users could notice. */
  lemma SameSound(bs: seq<HeapBlock>, fl: Lists, bs': seq<HeapBlock>, fl': Lists, rs: seq<Region>, own: nat,
                  records: set<nat>,
                  larges: set<(nat, nat)>, virtual: bool)
    requires SoundState(bs, fl, rs, own, records, larges, virtual) && HeapOk(bs', fl')
    requires UsersKept(bs, bs', {}) && Hands(bs') == Hands(bs)
    ensures SoundState(bs', fl', rs, own, records, larges, virtual) && Users(bs', own) == Users(bs, own)
  {
    UsersStayCommitted(bs, bs', {});
    UsersRegions(bs, bs', {}, rs);
    DescriptorsKept(bs, bs', own, {});
    SameUsers(bs, bs', own);
  }

  /** A block that has left the heap with its region. */
  lemma RemovedSound(bs: seq<HeapBlock>, fl: Lists, h: nat, fl': Lists, rs: seq<Region>, g: nat, rs': seq<Region>,
                     own: nat,
                     records: set<nat>, larges: set<(nat, nat)>, virtual: bool)
    requires SoundState(bs, fl, rs, own, records, larges, virtual) && Removable(bs, h)
    requires bs[h].page != own && bs[h].page !in records && g < |rs| && Covers(bs, h, rs[g])
    requires RegionsMoved(bs, h, rs, g, rs')
    requires HeapOk(Compacted(bs, h), fl')
    ensures SoundState(Compacted(bs, h), fl', rs', own, records, larges, virtual)
    ensures Users(Compacted(bs, h), own) == Users(bs, own) - {(bs[h].page, bs[h].size)}
    ensures NoTails(rs) ==> NoTails(rs')
  {
    RegionsStayOk(bs, h, rs, g, rs');
    CompactedCommitted(bs, h);
    CompactedDescriptors(bs, h, own);
    CompactedUsers(bs, rs, h, own);
    MovedLarges(bs, h, rs, g, rs', larges);
    hide Compacted, Removable, HeapOk, UsersCommitted, RegionsOk, DescriptorsOk, LargesOk, Plain, NoTails, RegionsMoved;
  }

  lemma MovedLarges(bs: seq<HeapBlock>, h: nat, rs: seq<Region>, g: nat, rs': seq<Region>, larges: set<(nat, nat)>)
    requires IsHead(bs, h) && NextOf(bs, h) < |bs| && g < |rs| && !rs[g].large && RegionsMoved(bs, h, rs, g, rs')
    ensures LargesOk(rs, larges) ==> LargesOk(rs', larges)
    ensures Plain(rs) ==> Plain(rs')
    ensures NoTails(rs) ==> NoTails(rs')
  {
    hide Src, Dst;
    forall r | r in rs && r.large ensures r in rs' {
      var i: nat :| i < |rs| && rs[i] == r;
      assert rs'[if i < g then i else i - 1] == MovedRegion(bs, h, r);
    }
    forall i | 0 <= i < |rs'|
      ensures exists r :: r in rs && rs'[i].large == r.large && rs'[i].commitTop == r.commitTop && rs'[i].reserveTop == r.reserveTop
    {
      assert rs'[i] == MovedRegion(bs, h, rs[if i < g then i else i + 1]);
    }
    if LargesOk(rs, larges) { LargesFrame(rs, rs', larges); }
  }

  // ----- expansion -----

  /** The regions after an expansion lead to every page, unless pages of a large allocation's region were taken. */
  lemma ExpandedRegions(bs: seq<HeapBlock>, bs': seq<HeapBlock>, rs: seq<Region>, size: nat, m: Memory,
                        larges: set<(nat, nat)>)
    requires Layout(bs) && RegionsOk(bs, rs) && m.Memory? && Granted(bs, rs, size, m) && size > 0
    requires LargesOk(rs, larges)
    requires MoreCells(bs, bs', Kept(bs, m.contiguous), m.base, size)
    ensures var rs' := WithMemory(rs, size, m, Kept(bs, m.contiguous));
      && RegionsLead(bs', rs')
      && (RegionsOk(bs', rs') <==> !TakesTail(rs, m))
      && (!TakesTail(rs, m) ==> LargesOk(rs', larges) && RegionPages(rs') == RegionPages(rs) + size)
      && (NoTails(rs) ==> !TakesTail(rs, m) && NoTails(rs'))
      && (Plain(rs) && m.avail == 0 && m.reserve == size ==> Plain(rs'))
  {
    WithMemoryLeads(bs, bs', rs, size, m);
    if TakesTail(rs, m) {
      TailLeadsNowhere(bs, bs', rs, size, m);
    } else {
      WithMemoryCovers(bs, bs', rs, size, m);
      WithMemoryPages(rs, size, m, Kept(bs, m.contiguous));
      LargesFrame(rs, WithMemory(rs, size, m, Kept(bs, m.contiguous)), larges) by { LargesStay(rs, size, m, Kept(bs, m.contiguous)); }
    }
    LargesStay(rs, size, m, Kept(bs, m.contiguous));
    hide RegionsLead, Covered, MoreCells, RegionPages, LargesOk, WithMemory;
  }

  /** Where each region is after an expansion: the new one comes first. */
  lemma WithMemoryAt(rs: seq<Region>, size: nat, m: Memory, k: nat)
    requires m.Memory? && (m.avail > 0 ==> |rs| > 0) && m.avail <= size
    ensures var rs', d := WithMemory(rs, size, m, k), if m.reserve == 0 then 0 else 1;
      && |rs'| == |rs| + d
      && (forall i :: 0 <= i < |rs| && (i > 0 || m.avail == 0) ==> rs'[i + d] == rs[i])
      && (m.avail > 0 ==> rs'[d] == rs[0].(commitTop := rs[0].commitTop + m.avail))
      && (d == 1 ==> rs'[0] == Region(m.base + m.avail, m.base + size, m.base + m.avail + m.reserve, k + m.avail, false))
  {
  }

  lemma LargesStay(rs: seq<Region>, size: nat, m: Memory, k: nat)
    requires m.Memory?
    requires (m.avail > 0 ==> |rs| > 0 && m.base == rs[0].commitTop && rs[0].commitTop + m.avail <= rs[0].reserveTop)
    requires m.avail <= size && (if m.reserve == 0 then m.avail == size else m.reserve >= size - m.avail)
    ensures var rs' := WithMemory(rs, size, m, k);
      && (!TakesTail(rs, m) ==> forall r :: r in rs && r.large ==> r in rs')
      && (NoTails(rs) ==> !TakesTail(rs, m) && NoTails(rs'))
      && (Plain(rs) && m.avail == 0 && m.reserve == size ==> Plain(rs'))
  {
    WithMemoryAt(rs, size, m, k);
    var rs' := WithMemory(rs, size, m, k);
    hide WithMemory;
    if NoTails(rs) { NoTailsStay(rs, rs', m); }
    if Plain(rs) && m.avail == 0 && m.reserve == size {
      forall i | 0 <= i < |rs'| ensures !rs'[i].large && rs'[i].commitTop == rs'[i].reserveTop {
        if i >= |rs'| - |rs| { assert rs[i - (|rs'| - |rs|)] in rs; }
      }
    }
    if !TakesTail(rs, m) {
      forall r | r in rs && r.large ensures r in rs' {
        var i: nat :| i < |rs| && rs[i] == r;
        assert rs'[i + (|rs'| - |rs|)] == r;
      }
    }
  }

  lemma NoTailsStay(rs: seq<Region>, rs': seq<Region>, m: Memory)
    requires m.Memory? && NoTails(rs) && |rs| <= |rs'|
    requires m.avail > 0 ==> |rs| > 0 && rs[0].commitTop + m.avail <= rs[0].reserveTop
    requires forall i :: 0 <= i < |rs| && (i > 0 || m.avail == 0) ==> rs'[i + (|rs'| - |rs|)] == rs[i]
    requires m.avail > 0 ==> rs'[|rs'| - |rs|] == rs[0].(commitTop := rs[0].commitTop + m.avail)
    requires forall i :: 0 <= i < |rs'| - |rs| ==> !rs'[i].large
    ensures !TakesTail(rs, m) && NoTails(rs')
  {
    assert m.avail > 0 ==> rs[0] in rs;
    forall i | 0 <= i < |rs'| && rs'[i].large ensures rs'[i].commitTop == rs'[i].reserveTop {
      assert rs[i - (|rs'| - |rs|)] in rs;
    }
  }

  /** The cell that was chosen, if any. */
  function One(c: Choice): set<nat> {
    if c.Chosen? then {c.block} else {}
  }

  ghost function Page(bs: seq<HeapBlock>, c: Choice): set<nat> {
    if c.Chosen? && c.block < |bs| then {bs[c.block].page} else {}
  }

  /**
   Whoever held a block before an expansion holds it afterwards.  Only the descriptors
   may have moved, to block `b`, and there may be a page for region records more.
   */
  lemma ExpandedUsers(bs: seq<HeapBlock>, rs: seq<Region>, bs': seq<HeapBlock>, rs': seq<Region>, own: nat, own': nat,
                      s: set<nat>, b: Choice, moved: bool, page: Choice, records: set<nat>)
    requires RegionsOk(bs, rs) && Grew(bs, bs', s) && RegionsOk(bs', rs') && DescriptorsOk(bs, own)
    requires RecordsOk(bs, own, records)
    requires b.Chosen? && InHand(bs', b.block) && bs'[b.block].page == own' > 0
    requires DescriptorPages(|bs'|, HEAP_BLOCK_BYTES) <= bs'[b.block].size
    requires Hands(bs') == Hands(bs) - s + (if moved then {b.block} else {}) + One(page)
    requires forall i: nat :: InHand(bs, i) ==> (i in s <==> moved && bs[i].page == own)
    requires if moved then b.block !in Hands(bs) else own' == own
    requires page.Chosen? ==>
      page != b && page.block !in Hands(bs) && InHand(bs', page.block) && bs'[page.block].size == 1
    ensures DescriptorsOk(bs', own') && Users(bs, own) <= Users(bs', own')
    ensures forall u :: u in Users(bs', own') ==> u in Users(bs, own) || u.0 in Page(bs', page)
    ensures RecordsOk(bs', own', records + Page(bs', page))
    ensures forall u :: u in Users(bs, own) ==> u.0 !in Page(bs', page)
  {
    hide DescriptorPages;
    assert HoldsDescriptors(bs', own', b.block);
    ExpandedHands(bs, bs', rs', own', s, b, moved, page);
    hide RegionsOk, Grew;
    forall u | u in Users(bs, own) ensures u in Users(bs', own') && u.0 !in Page(bs', page) {
      var i := UserOf(bs, own, u);
      assert i in Hands(bs);
      IsUser(bs', own', i);
    }
    forall u | u in Users(bs', own') ensures u in Users(bs, own) || u.0 in Page(bs', page) {
      var i := UserOf(bs', own', u);
      assert i in Hands(bs');
      if i in Hands(bs) && i !in s { IsUser(bs, own, i); }
    }
    if page.Chosen? { IsUser(bs', own', page.block); }
  }

  lemma ExpandedHands(bs: seq<HeapBlock>, bs': seq<HeapBlock>, rs': seq<Region>, own': nat,
                      s: set<nat>, b: Choice, moved: bool, page: Choice)
    requires Grew(bs, bs', s) && RegionsOk(bs', rs') && b.Chosen? && InHand(bs', b.block) && bs'[b.block].page == own'
    requires moved ==> b.block !in Hands(bs)
    requires page.Chosen? ==> page != b && page.block !in Hands(bs) && InHand(bs', page.block)
    ensures forall i: nat :: InHand(bs, i) && i !in s ==>
      InHand(bs', i) && bs'[i].page == bs[i].page && bs'[i].size == bs[i].size
    ensures forall i: nat :: InHand(bs, i) && i !in s ==>
      bs[i].page !in Page(bs', page) && (moved ==> bs[i].page != own')
    ensures page.Chosen? ==> bs'[page.block].page != own'
  {
    if page.Chosen? && bs'[page.block].page == own' { OneBlock(bs', rs', page.block, b.block); }
    forall i: nat | InHand(bs, i) && i !in s ensures bs[i].page !in Page(bs', page) && (moved ==> bs[i].page != own') {
      assert i in Hands(bs);
      assert i < |bs'| && bs'[i] == bs[i].(sizePrevious := bs'[i].sizePrevious);
      if moved && bs[i].page == own' { OneBlock(bs', rs', i, b.block); }
      if bs[i].page in Page(bs', page) { OneBlock(bs', rs', i, page.block); }
    }
  }

  lemma SameClients(bs: seq<HeapBlock>, own: nat, records: set<nat>, larges: set<(nat, nat)>,
                    bs': seq<HeapBlock>, own': nat, more: set<nat>)
    requires Users(bs, own) <= Users(bs', own')
    requires forall u :: u in Users(bs', own') ==> u in Users(bs, own) || u.0 in more
    requires forall u :: u in Users(bs, own) || u in larges ==> u.0 !in more
    ensures Clients(bs', own', records + more, larges) == Clients(bs, own, records, larges)
  {
  }

  lemma OneMoreClient(bs: seq<HeapBlock>, own: nat, records: set<nat>, larges: set<(nat, nat)>, bs': seq<HeapBlock>,
                      u: (nat, nat))
    requires Users(bs', own) == Users(bs, own) + {u} && u.0 !in records
    ensures Clients(bs', own, records, larges) == Clients(bs, own, records, larges) + {u}
  {
  }

  lemma OneClientLess(bs: seq<HeapBlock>, own: nat, records: set<nat>, larges: set<(nat, nat)>, bs': seq<HeapBlock>,
                      u: (nat, nat))
    requires Users(bs', own) == Users(bs, own) - {u} && u !in larges
    ensures Clients(bs', own, records, larges) == Clients(bs, own, records, larges) - {u}
  {
  }

  // ----- large allocations, and the state -----

  lemma LargeAddedSound(bs: seq<HeapBlock>, fl: Lists, rs: seq<Region>, own: nat, records: set<nat>,
                        larges: set<(nat, nat)>, r: Region, u: (nat, nat))
    requires SoundState(bs, fl, rs, own, records, larges, true) && LargeIn(r, u)
    requires r.base < r.commitTop <= r.reserveTop && FreeRange(rs, r.base, r.reserveTop)
    ensures SoundState(bs, fl, [r] + rs, own, records, larges + {u}, true)
    ensures forall v :: v in Users(bs, own) || v in larges ==> v.0 != u.0
    ensures RegionPages([r] + rs) == RegionPages(rs)
    ensures NoTails([r] + rs) <==> NoTails(rs) && r.commitTop == r.reserveTop
  {
    LeadLarge(bs, rs, r);
    LargeAdded(bs, rs, r, larges, u);
    var rs' := [r] + rs;
    assert rs'[1..] == rs;
    assert forall t :: t in rs' <==> t == r || t in rs;
    forall v | v in Users(bs, own) ensures v.0 != u.0 {
      var i := UserOf(bs, own, v);
      LargeIsNoBlock(bs, rs', larges + {u}, u, i);
    }
    hide HeapOk, RegionsOk, UsersCommitted, DescriptorsOk, LargesOk, Users;
  }

  lemma LargeRemovedSound(bs: seq<HeapBlock>, fl: Lists, rs: seq<Region>, own: nat, records: set<nat>,
                          larges: set<(nat, nat)>, g: nat, u: (nat, nat))
    requires SoundState(bs, fl, rs, own, records, larges, true) && u in larges && g < |rs| && LargeIn(rs[g], u)
    ensures SoundState(bs, fl, rs[..g] + rs[g + 1..], own, records, larges - {u}, true)
    ensures RegionPages(rs[..g] + rs[g + 1..]) == RegionPages(rs)
    ensures NoTails(rs) ==> NoTails(rs[..g] + rs[g + 1..])
  {
    LargeGone(bs, rs, g);
    LargeRemoved(rs, g, larges, u);
    RegionPagesCut(rs, g);
    hide HeapOk, RegionsOk, UsersCommitted, DescriptorsOk, LargesOk, Users;
  }

  /**
   The heap with new memory in it.  The descriptors are in block `b`, which is new if
   they have moved; the block they were in, `s`, has then been freed.
   */
  ghost predicate Enlarged(bs: seq<HeapBlock>, bs': seq<HeapBlock>, k: nat, base: nat, size: nat, s: set<nat>,
                           b: Choice, moved: bool, page: Choice) {
    && MoreCells(bs, bs', k, base, size) && Grew(bs, bs', s) && UsersCommitted(bs') && |bs'| == k + size + 1
    && b.Chosen? && InHand(bs', b.block) && DescriptorPages(|bs'|, HEAP_BLOCK_BYTES) <= bs'[b.block].size
    && Hands(bs') == Hands(bs) - s + (if moved then {b.block} else {}) + One(page)
    && (if moved then b.block !in Hands(bs) && bs'[b.block].page == base
        else b.block in Hands(bs) && b.block < |bs| && bs'[b.block].page == bs[b.block].page)
    && (page.Chosen? ==> page != b && page.block !in Hands(bs) && InHand(bs', page.block) && bs'[page.block].size == 1)
    && Pages(All, bs') == Pages(All, bs) + size && Pages(Decommitted, bs') == Pages(Decommitted, bs)
    && forall j: nat :: Serves(bs, j) ==> Serves(bs', j)
  }

  lemma EnlargedParts(bs: seq<HeapBlock>, bs': seq<HeapBlock>, k: nat, base: nat, size: nat, s: set<nat>, b: Choice,
                      moved: bool, page: Choice)
    requires Enlarged(bs, bs', k, base, size, s, b, moved, page)
    ensures |bs'| == k + size + 1 && (page.Chosen? ==> page.block < |bs'| && Page(bs', page) == {bs'[page.block].page})
    ensures page.None? ==> Page(bs', page) == {}
    ensures Pages(All, bs') == Pages(All, bs) + size && Pages(Decommitted, bs') == Pages(Decommitted, bs)
    ensures forall j: nat :: Serves(bs, j) ==> Serves(bs', j)
  {
    hide MoreCells, Grew, UsersCommitted, Hands, Pages, Serves, DescriptorPages;
  }

  /** What an expansion leaves behind: all is well unless pages were taken from a large allocation's region. */
  lemma ExpandedSound(bs: seq<HeapBlock>, fl: Lists, rs: seq<Region>, own: nat, records: set<nat>, larges: set<(nat,
                      nat)>, virtual: bool,
                      size: nat, m: Memory, bs': seq<HeapBlock>, fl': Lists, own': nat, s: set<nat>, b: Choice, moved: bool, page: Choice)
    requires SoundState(bs, fl, rs, own, records, larges, virtual) && size > 0 && m.Memory? && Granted(bs, rs, size, m)
    requires !virtual ==> m.avail == 0 && m.reserve == size
    requires HeapOk(bs', fl') && Enlarged(bs, bs', Kept(bs, m.contiguous), m.base, size, s, b, moved, page)
    requires forall i: nat :: InHand(bs, i) ==> (i in s <==> moved && bs[i].page == own)
    requires if moved then own' == m.base else own' == own > 0 && b.block < |bs| && bs[b.block].page == own
    ensures var rs', records' := WithMemory(rs, size, m, Kept(bs, m.contiguous)), records + Page(bs', page);
      && RegionsLead(bs', rs')
      && (SoundState(bs', fl', rs', own', records', larges, virtual) <==> !TakesTail(rs, m))
      && (NoTails(rs) ==> !TakesTail(rs, m) && NoTails(rs'))
      && (!TakesTail(rs, m) ==> RegionPages(rs') == RegionPages(rs) + size)
      && (!TakesTail(rs, m) ==> Clients(bs', own', records', larges) == Clients(bs, own, records, larges))
  {
    var rs' := WithMemory(rs, size, m, Kept(bs, m.contiguous));
    HeapLaidOut(bs, fl);
    GrantedParts(bs, rs, size, m);
    EnlargedIs(bs, bs', Kept(bs, m.contiguous), m.base, size, s, b, moved, page);
    hide Enlarged, HeapOk, UsersCommitted, Grew, WithMemory, MoreCells, Granted, RegionsLead, Covered,
      DescriptorPages, DescriptorsOk, Users,
         Hands, LargesOk, RegionPages, NoTails, Plain, TakesTail, Clients, RecordsOk, InHand, Page;
    ExpandedRegions(bs, bs', rs, size, m, larges);
    if !TakesTail(rs, m) {
      ExpandedUsers(bs, rs, bs', rs', own, own', s, b, moved, page, records);
      PageNotLarge(bs', rs', larges, page);
      SameClients(bs, own, records, larges, bs', own', Page(bs', page));
    }
  }

  lemma PageNotLarge(bs: seq<HeapBlock>, rs: seq<Region>, larges: set<(nat, nat)>, page: Choice)
    requires RegionsOk(bs, rs) && LargesOk(rs, larges) && (page.Chosen? ==> InHand(bs, page.block))
    ensures forall u :: u in larges ==> u.0 !in Page(bs, page)
  {
    forall u | u in larges ensures u.0 !in Page(bs, page) {
      if page.Chosen? { LargeIsNoBlock(bs, rs, larges, u, page.block); }
    }
  }

  lemma EnlargedIs(bs: seq<HeapBlock>, bs': seq<HeapBlock>, k: nat, base: nat, size: nat, s: set<nat>, b: Choice,
                   moved: bool, page: Choice)
    requires Enlarged(bs, bs', k, base, size, s, b, moved, page)
    ensures MoreCells(bs, bs', k, base, size) && Grew(bs, bs', s) && UsersCommitted(bs')
    ensures b.Chosen? && b.block < |bs'| && InHand(bs', b.block)
    ensures DescriptorPages(|bs'|, HEAP_BLOCK_BYTES) <= bs'[b.block].size
    ensures Hands(bs') == Hands(bs) - s + (if moved then {b.block} else {}) + One(page)
    ensures if moved then b.block !in Hands(bs) && bs'[b.block].page == base
            else b.block in Hands(bs) && b.block < |bs| && bs'[b.block].page == bs[b.block].page
    ensures page.Chosen? ==>
      page != b && page.block !in Hands(bs) && page.block < |bs'| && InHand(bs', page.block) && bs'[page.block].size == 1
  {
    hide MoreCells, Grew, UsersCommitted, Hands, Pages, Serves, DescriptorPages;
  }

  /** The rest of the new memory has been filed, and nothing else is left to do. */
  lemma EnlargedFiled(bs: seq<HeapBlock>, bs1: seq<HeapBlock>, bs2: seq<HeapBlock>, k: nat, base: nat, size: nat,
                      h: nat,
                      self: Choice, self': Choice, page: Choice, moved: bool)
    requires Building(bs, bs1, k, base, size, h, {h} + One(self') + One(page))
    requires UsersKept(bs1, bs2, {h}) && Hands(bs2) == Hands(bs1) - {h} && (self'.Chosen? <==> moved)
    requires moved ==> InHand(bs1, self'.block) && bs1[self'.block].page == base && self'.block != h
    requires moved ==> bs1[self'.block].size == DescriptorPages(|bs1|, HEAP_BLOCK_BYTES)
    requires page.Chosen? ==> InHand(bs1, page.block) && bs1[page.block].size == 1 && page.block != h && page != self'
    requires !moved ==>
      self.Chosen? && InHand(bs, self.block) && DescriptorPages(k + size + 1, HEAP_BLOCK_BYTES) <= bs[self.block].size
    requires Pages(All, bs2) == Pages(All, bs1) && Pages(Decommitted, bs2) == Pages(Decommitted, bs1)
    requires forall j: nat :: Serves(bs1, j) ==> Serves(bs2, j)
    ensures Enlarged(bs, bs2, k, base, size, {}, if moved then self' else self, moved, page)
    ensures self.Chosen? && InHand(bs, self.block) ==>
      self.block < |bs2| && InHand(bs2, self.block) && self.block in Hands(bs)
  {
    BuildingParts(bs, bs1, k, base, size, h, {h} + One(self') + One(page));
    if self.Chosen? && InHand(bs, self.block) {
      BuildingKeeps(bs, bs1, k, base, size, h, {h} + One(self') + One(page), self.block);
      KeptHand(bs1, bs2, {h}, self.block);
    }
    if moved { KeptHand(bs1, bs2, {h}, self'.block); }
    if page.Chosen? { KeptHand(bs1, bs2, {h}, page.block); }
    FiledGrew(bs, bs1, bs2, h);
    FiledCells(bs, bs1, bs2, k, base, size, {h});
    assert Hands(bs2) == Hands(bs) - {} + (if moved then {self'.block} else {}) + One(page);
    hide Building, MoreCells, Grew, UsersCommitted, Hands, Pages, Serves, DescriptorPages, InHand;
    KeptSize(bs1, bs2, {h});
  }

  lemma KeptSize(bs: seq<HeapBlock>, bs': seq<HeapBlock>, s: set<nat>)
    requires UsersKept(bs, bs', s)
    ensures |bs'| == |bs|
  {
  }

  /** ... or the block that held the descriptors has been freed. */
  lemma EnlargedFreed(bs: seq<HeapBlock>, bs2: seq<HeapBlock>, bs3: seq<HeapBlock>, k: nat, base: nat, size: nat,
                      x: nat, b: Choice, page: Choice)
    requires Enlarged(bs, bs2, k, base, size, {}, b, true, page) && x in Hands(bs)
    requires UsersKept(bs2, bs3, {x}) && Hands(bs3) == Hands(bs2) - {x} && UsersCommitted(bs3)
    requires Pages(All, bs3) == Pages(All, bs2) && Pages(Decommitted, bs3) == Pages(Decommitted, bs2)
    requires forall j: nat :: Serves(bs2, j) ==> Serves(bs3, j)
    ensures Enlarged(bs, bs3, k, base, size, {x}, b, true, page)
  {
    KeptHand(bs2, bs3, {x}, b.block);
    if page.Chosen? { KeptHand(bs2, bs3, {x}, page.block); }
    FreedGrew(bs, bs2, bs3, x);
    FiledCells(bs, bs2, bs3, k, base, size, {x});
    KeptSize(bs2, bs3, {x});
    hide MoreCells, Grew, UsersCommitted, Pages, Serves, DescriptorPages, InHand, UsersKept;
    assert Hands(bs3) == Hands(bs) - {x} + {b.block} + One(page);
  }

  // ----- readings -----

  lemma EmptyState(bs: seq<HeapBlock>, fl: Lists, rs: seq<Region>, virtual: bool, sloppy: bool, zeroed: set<nat>)
    requires bs == [] && fl == NoLists() && rs == []
    ensures SoundState(bs, fl, rs, 0, {}, {}, virtual) && NoTails(rs) && AccountsOk(bs, rs, 0, 0, 0, 0, 0, sloppy)
    ensures ZeroOk(bs, zeroed) && Clients(bs, 0, {}, {}) == {}
  {
    hide HeapOk, RegionsOk, UsersCommitted, DescriptorsOk, Users, ZeroOk, RecordsOk, LargesOk, Plain, NoTails,
      Clients, Pages, RegionPages;
    EmptyLinks(bs, fl);
    EmptyRegions(bs, rs);
    EmptyUsers(bs, zeroed);
    NobodyYet(bs, rs);
  }

  lemma EmptyLinks(bs: seq<HeapBlock>, fl: Lists)
    requires bs == [] && fl == NoLists()
    ensures HeapOk(bs, fl)
  {
    EmptyHeap(bs, fl);
  }

  lemma NobodyYet(bs: seq<HeapBlock>, rs: seq<Region>)
    requires bs == [] && rs == [] && Users(bs, 0) == {}
    ensures RecordsOk(bs, 0, {}) && LargesOk(rs, {}) && Plain(rs) && NoTails(rs) && Clients(bs, 0, {}, {}) == {}
    ensures RegionPages(rs) == 0 && forall kind :: Pages(kind, bs) == 0
  {
    hide Users;
  }

  lemma EmptyUsers(bs: seq<HeapBlock>, zeroed: set<nat>)
    requires bs == []
    ensures UsersCommitted(bs) && DescriptorsOk(bs, 0) && Users(bs, 0) == {} && ZeroOk(bs, zeroed)
  {
  }

  lemma EmptyRegions(bs: seq<HeapBlock>, rs: seq<Region>)
    requires bs == [] && rs == []
    ensures RegionsOk(bs, rs)
  {
    assert forall x: nat, page: nat :: !CellHolds(bs, x, page);
  }

  lemma SoundParts(bs: seq<HeapBlock>, fl: Lists, rs: seq<Region>, own: nat, records: set<nat>,
                   larges: set<(nat, nat)>, virtual: bool)
    requires SoundState(bs, fl, rs, own, records, larges, virtual)
    ensures HeapOk(bs, fl) && UsersCommitted(bs) && RegionsOk(bs, rs) && RegionsLead(bs, rs) && DescriptorsOk(bs, own)
    ensures RecordsOk(bs, own, records) && LargesOk(rs, larges) && (own == 0 <==> bs == [])
  {
    hide HeapOk, UsersCommitted, RegionsLead, RecordsOk, LargesOk, DescriptorPages;
  }

  lemma DescriptorsAt(bs: seq<HeapBlock>, own: nat) returns (i: nat)
    requires DescriptorsOk(bs, own) && own != 0
    ensures i < |bs| && InHand(bs, i) && IsHead(bs, i) && bs[i].page == own
    ensures DescriptorPages(|bs|, HEAP_BLOCK_BYTES) <= bs[i].size
  {
    i :| HoldsDescriptors(bs, own, i);
  }

  lemma RegionTops(bs: seq<HeapBlock>, rs: seq<Region>)
    requires RegionsLead(bs, rs)
    ensures forall g :: g in rs ==> g.base < g.commitTop <= g.reserveTop
  {
    forall g | g in rs ensures g.base < g.commitTop <= g.reserveTop {
      var i: nat :| i < |rs| && rs[i] == g;
      assert RegionOk(bs, rs[i]);
    }
  }

  /** At an address in no region there is no block. */
  lemma NoHeadThere(bs: seq<HeapBlock>, rs: seq<Region>, page: nat)
    requires RegionsOk(bs, rs) && forall i :: 0 <= i < |rs| ==> !(rs[i].base <= page < rs[i].reserveTop)
    ensures forall i: nat :: IsHead(bs, i) ==> bs[i].page != page
  {
    forall i: nat | IsHead(bs, i) ensures bs[i].page != page { var j := RegionOf(bs, rs, i); }
  }

  /** ... nor in a large allocation's, and elsewhere it is where the region's block id leads. */
  lemma HeadFound(bs: seq<HeapBlock>, rs: seq<Region>, j: nat, page: nat)
    requires RegionsOk(bs, rs) && j < |rs| && rs[j].base <= page < rs[j].reserveTop
    ensures forall i: nat :: IsHead(bs, i) && bs[i].page == page ==>
      !rs[j].large && i == rs[j].blockId + (page - rs[j].base)
  {
    forall i: nat | IsHead(bs, i) && bs[i].page == page
      ensures !rs[j].large && i == rs[j].blockId + (page - rs[j].base)
    {
      var k := RegionOf(bs, rs, i);
      OneRegion(bs, rs, k, page);
    }
  }

  lemma AccountsParts(bs: seq<HeapBlock>, rs: seq<Region>, numAlloc: int, numDecommitted: int, largeAllocs: int,
                      uncounted: int, due: int, sloppy: bool)
    ensures AccountsOk(bs, rs, numAlloc, numDecommitted, largeAllocs, uncounted, due, sloppy) <==>
      && numAlloc + uncounted + due == Pages(Used, bs) + largeAllocs
      && (sloppy || numDecommitted == Pages(Decommitted, bs)) && Pages(All, bs) == RegionPages(rs)
  {
  }

  /** The cells below the last one. */
  ghost function Below(zeroed: set<nat>, n: nat): set<nat> {
    set x | x in zeroed && x + 1 < n
  }

  lemma BelowZero(bs: seq<HeapBlock>, fl: Lists, zeroed: set<nat>)
    requires HeapOk(bs, fl)
    ensures ZeroOk(bs, zeroed) ==> ZeroOk(bs, Below(zeroed, |bs|))
    ensures Below({}, |bs|) == {}
  {
    if ZeroOk(bs, zeroed) {
      forall i: nat | i < |bs| && bs[i].free ensures CleanOk(bs, i, Below(zeroed, |bs|)) {
        assert CleanOk(bs, i, zeroed);
        assert CellOk(bs, i);
      }
    }
  }

  /** The rest of new memory can be filed without dropping dirt. */
  lemma FreshReady(bs: seq<HeapBlock>, fl: Lists, h: nat, zeroed: set<nat>, dirty: bool)
    requires HeapOk(bs, fl) && h < |bs| && bs[h].dirty == dirty
    ensures var z := if dirty then {} else zeroed; var z' := if dirty then {} else zeroed + Cells(bs, h);
      ZeroOk(bs, z) ==> ZeroOk(bs, z') && CleanOk(bs, h, z') && !DirtDropped(bs, h, false)
  {
    if dirty && ZeroOk(bs, {}) { DirtyDropsNothing(bs, h, false); }
    if !dirty && ZeroOk(bs, zeroed) {
      FreshZero(bs, h, zeroed);
      NothingDropped(bs, h, false);
    }
  }

  /** Where every free committed block is dirty, no dirt is dropped. */
  lemma DirtyDropsNothing(bs: seq<HeapBlock>, h: nat, makeDirty: bool)
    requires Layout(bs) && h < |bs| && ZeroOk(bs, {})
    ensures !DirtDropped(bs, h, makeDirty)
  {
    if DirtDropped(bs, h, makeDirty) {
      assert CellOk(bs, h - bs[h].sizePrevious);
      FreeIsDirty(bs, h - bs[h].sizePrevious);
      assert false;
    }
  }

  lemma WroteZero(bs: seq<HeapBlock>, fl: Lists, b: nat, zeroed: set<nat>)
    requires HeapOk(bs, fl) && InHand(bs, b)
    ensures b < |bs| && {} - Cells(bs, b) == {}
    ensures ZeroOk(bs, zeroed) ==> ZeroOk(bs, zeroed - Cells(bs, b))
  {
    if ZeroOk(bs, zeroed) { WriteKeepsZero(bs, fl, b, zeroed); }
  }

  lemma FiledCells(bs: seq<HeapBlock>, bs1: seq<HeapBlock>, bs2: seq<HeapBlock>, k: nat, base: nat, size: nat,
                   s: set<nat>)
    requires MoreCells(bs, bs1, k, base, size) && UsersKept(bs1, bs2, s)
    ensures MoreCells(bs, bs2, k, base, size)
  {
    hide MoreCells, SameCells;
    MoreThenSame(bs, bs1, bs2, k, base, size);
  }

  lemma OneIs(c: Choice)
    ensures One(c) == if c.Chosen? then {c.block} else {}
  {
  }

  lemma GrantedParts(bs: seq<HeapBlock>, rs: seq<Region>, size: nat, m: Memory)
    requires m.Memory? && Granted(bs, rs, size, m)
    ensures m.base > 0 && (m.contiguous ==> |bs| > 0 && Adjoins(bs, m.base)) && m.avail <= size
    ensures (m.avail > 0 ==> |rs| > 0)
    ensures m.reserve == 0 ==> m.avail == size
  {
    hide Adjoins;
  }

  lemma WithMemoryIs(rs: seq<Region>, size: nat, m: Memory, k: nat)
    requires m.Memory? && (m.avail > 0 ==> |rs| > 0) && m.avail <= size
    ensures var rs1 := if m.avail > 0 then rs[0 := rs[0].(commitTop := rs[0].commitTop + m.avail)] else rs;
      WithMemory(rs, size, m, k) == if m.reserve == 0 then rs1
        else [Region(m.base + m.avail, m.base + size, m.base + m.avail + m.reserve, k + m.avail, false)] + rs1
  {
  }

  lemma HandGone(bs: seq<HeapBlock>, bs': seq<HeapBlock>, h: nat)
    requires Hands(bs') == Hands(bs) - {h}
    ensures Hands(bs') <= Hands(bs) && forall i :: i in {h} ==> i !in Hands(bs')
  {
  }

  lemma RecordsSound(bs: seq<HeapBlock>, fl: Lists, rs: seq<Region>, own: nat, records: set<nat>,
                     larges: set<(nat, nat)>, virtual: bool, page: nat)
    requires SoundState(bs, fl, rs, own, records, larges, virtual) && (page, 1) in Users(bs, own)
    ensures SoundState(bs, fl, rs, own, records + {page}, larges, virtual)
  {
    hide HeapOk, UsersCommitted, RegionsOk, DescriptorsOk, LargesOk, Users;
  }

  lemma LargeReady(bs: seq<HeapBlock>, fl: Lists, rs: seq<Region>, own: nat, records: set<nat>, larges: set<(nat, nat)>,
                   r: Region, page: nat, size: nat)
    requires SoundState(bs, fl, rs, own, records, larges, true) && r.large && size > 0
    requires r.base <= page && page + size == r.commitTop <= r.reserveTop && FreeRange(rs, r.base, r.reserveTop)
    ensures SoundState(bs, fl, [r] + rs, own, records, larges + {(page, size)}, true)
    ensures RegionPages([r] + rs) == RegionPages(rs)
    ensures Clients(bs, own, records, larges + {(page, size)}) == Clients(bs, own, records, larges) + {(page, size)}
    ensures forall u :: u in Clients(bs, own, records, larges) ==> u.0 != page
  {
    LargeAddedSound(bs, fl, rs, own, records, larges, r, (page, size));
    forall p | p in records ensures p != page { assert (p, 1) in Users(bs, own); }
    hide HeapOk, UsersCommitted, RegionsOk, DescriptorsOk, LargesOk, Users, RegionPages, NoTails;
  }

  lemma LargeNoTails(rs: seq<Region>, r: Region)
    ensures NoTails([r] + rs) <==> NoTails(rs) && (r.large ==> r.commitTop == r.reserveTop)
  {
    assert forall t :: t in [r] + rs <==> t == r || t in rs;
  }

  lemma EnlargedCommitted(bs: seq<HeapBlock>, bs': seq<HeapBlock>, k: nat, base: nat, size: nat, b: Choice,
                          page: Choice)
    requires Enlarged(bs, bs', k, base, size, {}, b, true, page)
    ensures UsersCommitted(bs')
  {
    hide MoreCells, Grew, Hands, Pages, Serves, DescriptorPages, InHand;
  }

  lemma HandsAreHeads(bs: seq<HeapBlock>)
    ensures forall i: nat :: InHand(bs, i) ==> i < |bs| && IsHead(bs, i)
  {
  }

  lemma ClientsApart(bs: seq<HeapBlock>, own: nat, records: set<nat>, larges: set<(nat, nat)>, page: nat)
    requires forall u :: u in Users(bs, own) || u in larges ==> u.0 != page
    ensures forall u :: u in Clients(bs, own, records, larges) ==> u.0 != page
  {
    hide Users;
  }

  lemma ClearedZero(bs: seq<HeapBlock>, b: nat, zeroed: set<nat>)
    requires b < |bs|
    ensures CellsZero(bs, b, zeroed + Cells(bs, b))
    ensures ZeroOk(bs, zeroed) ==> ZeroOk(bs, zeroed + Cells(bs, b))
  {
    hide ZeroOk;
    if ZeroOk(bs, zeroed) { ZeroGrows(bs, zeroed, Cells(bs, b)); }
  }

  lemma ZeroGrowsTo(bs: seq<HeapBlock>, b: nat, z: set<nat>, zeroed: set<nat>)
    requires b < |bs| && (z == {} || z == zeroed)
    ensures CellsZero(bs, b, z) ==> CellsZero(bs, b, zeroed)
  {
    if CellsZero(bs, b, z) { CellsGrow(bs, b, z, zeroed); }
  }

  lemma LargeInIs(r: Region, u: (nat, nat))
    requires LargeIn(r, u)
    ensures r.commitTop == u.0 + u.1
  {
  }

  lemma LargeHasRegion(bs: seq<HeapBlock>, rs: seq<Region>, larges: set<(nat, nat)>, u: (nat, nat))
    requires RegionsOk(bs, rs) && LargesOk(rs, larges) && u in larges
    ensures exists i :: 0 <= i < |rs| && rs[i].base <= u.0 < rs[i].reserveTop
  {
    assert HasRegion(rs, u);
    var r :| r in rs && LargeIn(r, u);
    var i: nat :| i < |rs| && rs[i] == r;
    assert RegionOk(bs, rs[i]);
  }

  /** What a client holds is a block, or else a large allocation. */
  lemma ClientOf(bs: seq<HeapBlock>, fl: Lists, rs: seq<Region>, own: nat, records: set<nat>, larges: set<(nat, nat)>,
                 virtual: bool,
                 u: (nat, nat)) returns (x: Choice)
    requires SoundState(bs, fl, rs, own, records, larges, virtual) && u in Clients(bs, own, records, larges)
    ensures u.0 !in records
    ensures x.Chosen? ==>
      x.block < |bs| && InHand(bs, x.block) && bs[x.block].page == u.0 != own && bs[x.block].size == u.1 && u !in larges
    ensures x.None? ==> u in larges && virtual
  {
    if u in larges {
      x := None;
      assert HasRegion(rs, u);
    } else {
      var i := UserOf(bs, own, u);
      x := Chosen(i);
    }
  }

  /** Where the lookup finds no block, it is a large allocation. */
  lemma LargeClient(bs: seq<HeapBlock>, rs: seq<Region>, larges: set<(nat, nat)>, u: (nat, nat), x: Choice)
    requires RegionsOk(bs, rs) && forall g :: g in rs && g.base <= u.0 < g.reserveTop ==> g.large
    requires x.Chosen? ==> InHand(bs, x.block) && bs[x.block].page == u.0
    ensures x.None?
  {
    if x.Chosen? { BlockHasRegion(bs, rs, x.block); }
  }

  lemma BlockHasRegion(bs: seq<HeapBlock>, rs: seq<Region>, i: nat)
    requires RegionsOk(bs, rs) && IsHead(bs, i)
    ensures exists g :: g in rs && g.base <= bs[i].page < g.reserveTop && !g.large
  {
    var j := RegionOf(bs, rs, i);
    assert rs[j] in rs;
  }

  /** ... and where it finds one, that is the block the client holds. */
  lemma BlockClient(bs: seq<HeapBlock>, rs: seq<Region>, larges: set<(nat, nat)>, u: (nat, nat), x: Choice, b: nat,
                    page: nat)
    requires RegionsOk(bs, rs) && LargesOk(rs, larges) && page == u.0
    requires exists g :: g in rs && g.base <= page < g.reserveTop && !g.large
    requires x.None? ==> u in larges
    requires x.Chosen? ==> InHand(bs, x.block) && bs[x.block].page == page && x == Chosen(b)
    ensures x == Chosen(b)
  {
    if x.None? {
      var g :| g in rs && g.base <= page < g.reserveTop && !g.large;
      var j: nat :| j < |rs| && rs[j] == g;
      LargeFound(bs, rs, larges, u, j);
      assert false;
    }
  }

  lemma OnlyBlock(bs: seq<HeapBlock>, rs: seq<Region>, x: nat)
    requires RegionsOk(bs, rs) && IsHead(bs, x)
    ensures forall i: nat :: IsHead(bs, i) && bs[i].page == bs[x].page ==> i == x
  {
    forall i: nat | IsHead(bs, i) && bs[i].page == bs[x].page ensures i == x { OneBlock(bs, rs, i, x); }
  }

  lemma NoBlockAt(bs: seq<HeapBlock>, rs: seq<Region>, larges: set<(nat, nat)>, u: (nat, nat))
    requires RegionsOk(bs, rs) && LargesOk(rs, larges) && u in larges
    ensures forall i: nat :: IsHead(bs, i) ==> bs[i].page != u.0
  {
    forall i: nat | IsHead(bs, i) ensures bs[i].page != u.0 { LargeIsNoBlock(bs, rs, larges, u, i); }
  }

  lemma LargeClientLess(bs: seq<HeapBlock>, rs: seq<Region>, own: nat, records: set<nat>, larges: set<(nat, nat)>,
                        u: (nat, nat))
    requires RegionsOk(bs, rs) && LargesOk(rs, larges) && u in larges
    ensures Clients(bs, own, records, larges - {u}) == Clients(bs, own, records, larges) - {u}
  {
    forall v | v in Users(bs, own) ensures v != u {
      var i := UserOf(bs, own, v);
      LargeIsNoBlock(bs, rs, larges, u, i);
    }
  }

  // ----- a region that is given back -----

  lemma CoversPage(bs: seq<HeapBlock>, rs: seq<Region>, g: nat, h: nat)
    requires RegionsOk(bs, rs) && g < |rs| && h < |bs| && Covers(bs, h, rs[g])
    ensures rs[g].base == bs[h].page && rs[g].base <= bs[h].page < rs[g].reserveTop
  {
    assert RegionOk(bs, rs[g]);
  }

  lemma ShiftedZero(bs: seq<HeapBlock>, h: nat, zeroed: set<nat>)
    requires Removable(bs, h)
    ensures IsHead(bs, h) && NextOf(bs, h) < |bs| && Shifted(bs, h, {}) == {}
    ensures ZeroOk(bs, zeroed) ==> ZeroOk(Compacted(bs, h), Shifted(bs, h, zeroed))
  {
    if ZeroOk(bs, zeroed) { CompactedZero(bs, h, zeroed); }
  }

  lemma RemovedPages(bs: seq<HeapBlock>, h: nat, rs: seq<Region>, g: nat, rs': seq<Region>)
    requires Removable(bs, h) && g < |rs|
    ensures IsHead(bs, h) && NextOf(bs, h) < |bs|
    ensures RegionsMoved(bs, h, rs, g, rs') ==> RegionPages(rs') == RegionPages(rs) - CommittedPages(rs[g])
  {
    if RegionsMoved(bs, h, rs, g, rs') { RegionPagesMoved(bs, h, rs, g, rs'); }
  }

  /** A region that a block fills is committed to its end. */
  lemma AllCommitted(bs: seq<HeapBlock>, rs: seq<Region>, g: nat, h: nat)
    requires RegionsOk(bs, rs) && g < |rs| && h < |bs| && IsHead(bs, h) && Covers(bs, h, rs[g])
    ensures CommittedPages(rs[g]) == bs[h].size
  {
    var r := rs[g];
    assert RegionOk(bs, r);
    if r.commitTop < r.reserveTop {
      var x := h + (r.commitTop - r.base);
      assert Holds(bs, h, x, r.commitTop);
      assert Mapped(rs, x, r.commitTop);
      var i: nat :| MapsTo(rs, i, x, r.commitTop);
      assert RegionOk(bs, rs[i]);
      OneRegion(bs, rs, g, r.commitTop);
      assert false;
    }
  }

  lemma OneRegionLess(bs: seq<HeapBlock>, h: nat, rs: seq<Region>, g: nat, rs': seq<Region>)
    requires Removable(bs, h) && g < |rs| && RegionsMoved(bs, h, rs, g, rs')
    ensures |rs'| == |rs| - 1
  {
  }

  lemma WeightsOf(bs: seq<HeapBlock>, h: nat)
    requires InHand(bs, h) && bs[h].committed
    ensures Weight(Used, bs[h]) == Weight(All, bs[h]) == bs[h].size && Weight(Decommitted, bs[h]) == 0
  {
  }

  lemma BackToSame(was: set<(nat, nat)>, now: set<(nat, nat)>, u: (nat, nat))
    requires now == was + {u} - {u} && forall v :: v in was ==> v.0 != u.0
    ensures now == was
  {
    assert u !in was;
  }

  lemma ClientsSame(bs: seq<HeapBlock>, bs': seq<HeapBlock>, own: nat, records: set<nat>, larges: set<(nat, nat)>)
    requires Users(bs', own) == Users(bs, own)
    ensures Clients(bs', own, records, larges) == Clients(bs, own, records, larges)
  {
    hide Users;
  }

  /** The first `n` pages of block `h` include a whole region. */
  ghost predicate CoversRegion(bs: seq<HeapBlock>, rs: seq<Region>, h: nat, n: nat)
    requires h < |bs|
  {
    exists g :: g in rs && g.base == bs[h].page && g.reserveTop <= bs[h].page + n
  }

  /** It can only be the region that the block's address is in. */
  lemma CoversRegionIs(bs: seq<HeapBlock>, bs1: seq<HeapBlock>, rs: seq<Region>, j: nat, h: nat)
    requires RegionsOk(bs1, rs) && h < |bs| == |bs1| && bs1[h].page == bs[h].page && j < |rs|
    requires rs[j].base <= bs1[h].page < rs[j].reserveTop
    ensures CoversRegion(bs, rs, h, bs1[h].size) <==>
      bs1[h].page <= rs[j].base && rs[j].reserveTop <= bs1[h].page + bs1[h].size
  {
    assert rs[j] in rs;
    forall g | g in rs && g.base == bs[h].page ensures g == rs[j] {
      var i: nat :| i < |rs| && rs[i] == g;
      assert RegionOk(bs1, rs[i]);
      OneRegion(bs1, rs, j, bs[h].page);
    }
  }

  lemma CoversIs(bs: seq<HeapBlock>, bs1: seq<HeapBlock>, rs: seq<Region>, j: nat, h: nat)
    requires RegionsOk(bs1, rs) && h < |bs| == |bs1| && bs1[h].page == bs[h].page && j < |rs| && !rs[j].large
    requires rs[j].base == bs1[h].page && rs[j].reserveTop == bs[h].page + bs[h].size
    requires h == rs[j].blockId + (bs1[h].page - rs[j].base)
    ensures Covers(bs, h, rs[j])
  {
  }

  lemma DetachedPage(bs: seq<HeapBlock>, bs1: seq<HeapBlock>, bs2: seq<HeapBlock>, h: nat)
    requires Detached(bs, bs1, h) && Detached(bs, bs2, h)
    ensures h < |bs| == |bs1| == |bs2| && bs1[h].page == bs2[h].page == bs[h].page
  {
    hide Pages, Hands, SameCells;
  }

  /** Without virtual memory a region is committed to its end. */
  lemma PlainCovers(bs: seq<HeapBlock>, fl: Lists, rs: seq<Region>, own: nat, records: set<nat>,
                    larges: set<(nat, nat)>, h: nat, i: nat)
    requires SoundState(bs, fl, rs, own, records, larges, false) && h < |bs| && bs[h].free && i < |rs|
    requires rs[i].base == bs[h].page && rs[i].commitTop == bs[h].page + bs[h].size
    ensures Covers(bs, h, rs[i]) && Covers(Unlinked(bs, h), h, rs[i])
  {
    FreeIsHead(bs, fl, h);
    assert rs[i] in rs && RegionOk(bs, rs[i]);
    var j := RegionOf(bs, rs, h);
    OneRegion(bs, rs, j, bs[h].page);
  }
}
