/**
 MMgc's page heap: allocation and release of runs of pages by boundary tags and
 segregated free lists, with committed and decommitted memory.
 */
module GCHeap {
  import opened HeapLayout
  import opened FreeLists
  import opened HeapSteps
  import opened Coalescing
  import opened HeapRuns
  import opened HeapAlloc
  import opened HeapDecommit
  import opened HeapRegions
  import opened HeapExpansion
  import opened HeapGrowth
  import opened HeapUsers
  import opened HeapPolicy

  /** Allocations of this many pages or more are served by a region of their own. */
  const OS_ALLOC_THRESHOLD: nat := 256
  /** The pages of address space that an expansion reserves if it can. */
  const DEFAULT_RESERVE: nat := 4096
  /** A region record has five words. */
  const REGIONS_PER_PAGE: nat := 102

  /** What came of an expansion: the memory got, and how much of it was left for the request. */
  datatype Expansion = NotExpanded | Refused | Expansion(size: nat, m: Memory, rest: nat, settled: bool, moved: bool)

  /** The memory of the expansion was granted to this heap. */
  ghost predicate Enlarges(e: Expansion, bs: seq<HeapBlock>, rs: seq<Region>) {
    e.Expansion? && e.m.Memory? && Granted(bs, rs, e.size, e.m)
  }

  lemma EnlargesIs(e: Expansion, bs: seq<HeapBlock>, rs: seq<Region>)
    ensures Enlarges(e, bs, rs) <==> e.Expansion? && e.m.Memory? && Granted(bs, rs, e.size, e.m)
  {
    hide Granted;
  }

  /** What a client may ask for; it names what it holds by its place in the order of allocation. */
  datatype Request =
    | Allocate(size: nat, kExpand: bool, kZero: bool, alignment: nat)
    | FreePages(k: nat)
    | WritePages(k: nat)
    | DecommitPages(pages: nat, release: bool)

  /** A client has been given `size` pages at an address that nobody had. */
  ghost predicate NewlyHeld(was: set<(nat, nat)>, held: seq<(nat, nat)>, now: set<(nat, nat)>, held': seq<(nat, nat)>,
                            page: nat, size: nat, alignment: nat) {
    && alignment > 0 && page > 0 && page % alignment == 0 && (forall u :: u in was ==> u.0 != page)
    && held' == held + [(page, size)] && now == was + {(page, size)}
  }

  lemma NewlyHeldIs(was: set<(nat, nat)>, held: seq<(nat, nat)>, now: set<(nat, nat)>, held': seq<(nat, nat)>,
                    page: nat, size: nat, alignment: nat)
    requires alignment > 0 && page > 0 && page % alignment == 0 && (forall u :: u in was ==> u.0 != page)
    requires held' == held + [(page, size)] && now == was + {(page, size)}
    ensures NewlyHeld(was, held, now, held', page, size, alignment)
  {
  }

  /** In use is what was, and what the client holds, each of it once. */
  ghost predicate Holding(base: set<(nat, nat)>, held: seq<(nat, nat)>, now: set<(nat, nat)>) {
    && now == base + (set u | u in held) && (forall u :: u in held ==> u !in base)
    && forall i, j :: 0 <= i < j < |held| ==> held[i] != held[j]
  }

  lemma HoldingNothing(base: set<(nat, nat)>)
    ensures Holding(base, [], base)
  {
  }

  lemma HoldingParts(base: set<(nat, nat)>, held: seq<(nat, nat)>, now: set<(nat, nat)>)
    requires Holding(base, held, now)
    ensures forall u :: u in held ==> u in now
  {
  }

  /**
   The heap between two requests of a client that holds `held`; `used` is what all clients
   together have, and `zeros` those allocations that are known to hold only zeros.  The
   heap is `clean` if its free pages that pass for clean hold only zeros.
   */
  datatype Snapshot = Snapshot(blocks: seq<HeapBlock>, freelists: Lists, regions: seq<Region>, used: set<(nat, nat)>,
                               held: seq<(nat, nat)>, zeros: set<(nat, nat)>, clean: bool)

  /** The request does not ask for an aligned region of its own. */
  predicate Modest(q: Request, useVirtualMemory: bool) {
    q.Allocate? && q.kExpand && q.size >= OS_ALLOC_THRESHOLD && useVirtualMemory ==> q.alignment == 1
  }

  lemma ModestIs(q: Request, useVirtualMemory: bool)
    ensures Modest(q, useVirtualMemory) <==>
      (q.Allocate? && useVirtualMemory && q.kExpand && q.size >= OS_ALLOC_THRESHOLD ==> q.alignment == 1)
  {
  }

  /** The request finds what it needs in the heap as it is. */
  ghost predicate InStock(q: Request, s: Snapshot, useVirtualMemory: bool) {
    q.Allocate? && AtHand(s.blocks, s.freelists, q.size, q.alignment, useVirtualMemory)
  }

  /**
   The block that begins at `page` was cut out of a block or run of `bs`: a smallest committed block
   that fits, if any does.
   */
  ghost predicate BestOf(bs: seq<HeapBlock>, bs': seq<HeapBlock>, page: nat, size: nat, alignment: nat) {
    alignment > 0 && exists h: nat, b: nat :: CutOut(bs, bs', page, h, b, size, alignment)
  }

  ghost predicate CutOut(bs: seq<HeapBlock>, bs': seq<HeapBlock>, page: nat, h: nat, b: nat, size: nat, alignment: nat)
    requires alignment > 0
  {
    && Allocated(bs, bs', h, b, size, alignment) && bs'[b].page == page
    && (alignment == 1 && !OnlyRuns(bs, size, 1) ==> BestFit(bs, h, size))
  }

  /** As many pages as asked for have been decommitted or have left the heap, or there is no committed free block. */
  ghost predicate GivenBack(bs: seq<HeapBlock>, bs': seq<HeapBlock>, pages: nat) {
    || Pages(Decommitted, bs') - Pages(Decommitted, bs) + Pages(All, bs) - Pages(All, bs') == pages
    || forall h: nat :: h < |bs'| && bs'[h].free ==> !bs'[h].committed
  }

  lemma GivenBackIs(bs: seq<HeapBlock>, bs': seq<HeapBlock>, pages: nat)
    ensures GivenBack(bs, bs', pages) <==>
      || Pages(Decommitted, bs') - Pages(Decommitted, bs) + Pages(All, bs) - Pages(All, bs') == pages
      || forall h: nat :: h < |bs'| && bs'[h].free ==> !bs'[h].committed
  {
    hide Pages;
  }

  /**
   What the client gets: pages at an address that nobody had, all zero if it wanted them so, and cut
   from the best block.
   */
  ghost predicate Given(q: Request, s: Snapshot, s': Snapshot, page: nat, useVirtualMemory: bool)
    requires q.Allocate?
  {
    && NewlyHeld(s.used, s.held, s'.used, s'.held, page, q.size, q.alignment)
    && (q.kZero && s.clean ==> (page, q.size) in s'.zeros)
    && (InStock(q, s, useVirtualMemory) ==> BestOf(s.blocks, s'.blocks, page, q.size, q.alignment))
  }

  /**
   What a request changes.  An allocation adds what the client is given, and fails only if
   the heap, as it is, has nothing for it; unless it may grow the heap, it fails whenever
   that is so.  A release takes away what it names.  Nothing else changes who has what.
   */
  ghost predicate Served(q: Request, s: Snapshot, s': Snapshot, useVirtualMemory: bool) {
    match q
    case Allocate(size, kExpand, _, alignment) =>
      || (exists page :: Given(q, s, s', page, useVirtualMemory) && (kExpand || InStock(q, s, useVirtualMemory)))
      || (s'.used == s.used && s'.held == s.held && !InStock(q, s, useVirtualMemory))
    case FreePages(k) =>
      if k < |s.held| then s'.held == s.held[..k] + s.held[k + 1..] && s'.used == s.used - {s.held[k]}
      else s' == s
    case WritePages(_) => s'.blocks == s.blocks && s'.freelists == s.freelists && s'.used == s.used && s'.held == s.held
    case DecommitPages(pages, _) =>
      s'.used == s.used && s'.held == s.held && (useVirtualMemory ==> GivenBack(s.blocks, s'.blocks, pages))
  }

  /** The request has made the heap grow into what a large allocation had left over. */
  ghost predicate TookTail(q: Request, s: Snapshot) {
    q.Allocate? && q.kExpand && exists e: Expansion :: Enlarges(e, s.blocks, s.regions) && TakesTail(s.regions, e.m)
  }

  lemma TookTailIs(q: Request, s: Snapshot, e: Expansion)
    requires q.Allocate? && q.kExpand && Enlarges(e, s.blocks, s.regions) && TakesTail(s.regions, e.m)
    ensures TookTail(q, s)
  {
  }

  lemma GivenIs(q: Request, s: Snapshot, s': Snapshot, page: nat, h: nat, b: nat, useVirtualMemory: bool)
    requires q.Allocate? && q.alignment > 0 && NewlyHeld(s.used, s.held, s'.used, s'.held, page, q.size, q.alignment)
    requires q.kZero && s.clean ==> (page, q.size) in s'.zeros
    requires AtHand(s.blocks, s.freelists, q.size, q.alignment, useVirtualMemory) ==>
      && b < |s'.blocks| && Allocated(s.blocks, s'.blocks, h, b, q.size, q.alignment) && s'.blocks[b].page == page
      && (q.alignment == 1 && !OnlyRuns(s.blocks, q.size, 1) ==> BestFit(s.blocks, h, q.size))
    ensures Given(q, s, s', page, useVirtualMemory)
  {
    hide Allocated, OnlyRuns, BestFit, AtHand, NewlyHeld;
    if AtHand(s.blocks, s.freelists, q.size, q.alignment, useVirtualMemory) {
      assert CutOut(s.blocks, s'.blocks, page, h, b, q.size, q.alignment);
    }
  }

  lemma ServedAllocation(q: Request, s: Snapshot, s': Snapshot, useVirtualMemory: bool, page: nat)
    requires q.Allocate?
    requires (!q.kExpand && page > 0 ==> InStock(q, s, useVirtualMemory))
    requires (page == 0 ==> !InStock(q, s, useVirtualMemory))
    requires if page == 0 then s'.used == s.used && s'.held == s.held else Given(q, s, s', page, useVirtualMemory)
    ensures Served(q, s, s', useVirtualMemory)
  {
    hide Given, InStock;
  }

  lemma ServedNothing(q: Request, s: Snapshot, useVirtualMemory: bool)
    requires if q.Allocate? then q.size == 0 || q.alignment == 0 else q.FreePages? && q.k >= |s.held|
    ensures Served(q, s, s, useVirtualMemory)
  {
  }

  lemma ServedWrite(q: Request, s: Snapshot, s': Snapshot, useVirtualMemory: bool)
    requires q.WritePages? && s'.blocks == s.blocks && s'.freelists == s.freelists && s'.used == s.used
    requires s'.held == s.held
    ensures Served(q, s, s', useVirtualMemory)
  {
  }

  lemma ServedRelease(q: Request, s: Snapshot, s': Snapshot, useVirtualMemory: bool)
    requires q.FreePages? && q.k < |s.held| && s'.held == s.held[..q.k] + s.held[q.k + 1..]
    requires s'.used == s.used - {s.held[q.k]}
    ensures Served(q, s, s', useVirtualMemory)
  {
  }

  lemma ServedDecommit(q: Request, s: Snapshot, s': Snapshot, useVirtualMemory: bool)
    requires q.DecommitPages? && s'.used == s.used && s'.held == s.held
    requires useVirtualMemory ==>
      || Pages(Decommitted, s'.blocks) - Pages(Decommitted, s.blocks) + Pages(All, s.blocks) - Pages(All, s'.blocks) == q.pages
      || forall h: nat :: h < |s'.blocks| && s'.blocks[h].free ==> !s'.blocks[h].committed
    ensures Served(q, s, s', useVirtualMemory)
  {
    hide Pages;
  }

  lemma InStockIs(q: Request, s: Snapshot, useVirtualMemory: bool)
    requires q.Allocate?
    ensures InStock(q, s, useVirtualMemory) <==> AtHand(s.blocks, s.freelists, q.size, q.alignment, useVirtualMemory)
  {
    hide AtHand;
  }

  lemma HoldingOn(base: set<(nat, nat)>, s: Snapshot, s': Snapshot, q: Request, useVirtualMemory: bool)
    requires Holding(base, s.held, s.used) && Served(q, s, s', useVirtualMemory)
    ensures Holding(base, s'.held, s'.used)
  {
    hide InStock, BestOf;
    if q.FreePages? && q.k < |s.held| {
      HoldingLess(base, s.held, s.used, q.k);
    } else if q.Allocate? && !(s'.held == s.held && s'.used == s.used) {
      var page :| Given(q, s, s', page, useVirtualMemory);
      HoldingMore(base, s.held, s.used, (page, q.size));
    }
  }

  lemma HoldingMore(base: set<(nat, nat)>, held: seq<(nat, nat)>, was: set<(nat, nat)>, u: (nat, nat))
    requires Holding(base, held, was) && u !in was
    ensures Holding(base, held + [u], was + {u})
  {
    assert forall v :: v in held + [u] <==> v in held || v == u;
    assert (set v | v in held + [u]) == (set v | v in held) + {u};
  }

  lemma HoldingLess(base: set<(nat, nat)>, held: seq<(nat, nat)>, was: set<(nat, nat)>, k: nat)
    requires Holding(base, held, was) && k < |held|
    ensures Holding(base, held[..k] + held[k + 1..], was - {held[k]})
  {
    var held' := held[..k] + held[k + 1..];
    forall v ensures v in held' <==> v in held && v != held[k] {
      if v in held && v != held[k] {
        var i :| 0 <= i < |held| && held[i] == v;
        assert held'[if i < k then i else i - 1] == v;
      }
      if v in held' {
        var i :| 0 <= i < |held'| && held'[i] == v;
        assert held[if i < k then i else i + 1] == v;
      }
    }
    assert (set v | v in held') == (set v | v in held) - {held[k]};
    forall i, j | 0 <= i < j < |held'| ensures held'[i] != held'[j] {
      assert held'[i] == held[if i < k then i else i + 1] && held'[j] == held[if j < k then j else j + 1];
    }
  }

  class GCHeap {
    const useVirtualMemory: bool
    const sloppyCommit: bool
    /** Whether the system hands out pages that are not zero. */
    const pagesDirty: bool
    const initialSize: nat

    var blocks: seq<HeapBlock>
    var freelists: Lists
    var numAlloc: int
    var numDecommitted: int
    /** From the newest to the oldest. */
    var regions: seq<Region>
    /** Region records that were given back, and those that are left in the page they are taken from. */
    var freeRegions: nat
    var nextRegions: nat
    var largeAllocs: int
    /** The address of `blocks`, which is itself a block of the heap; 0 for NULL. */
    var descriptors: nat

    /** The cells of `blocks` whose page is known to hold only zeros. */
    ghost var zeroed: set<nat>
    /** The large allocations, by address and size. */
    ghost var larges: set<(nat, nat)>
    /** Those of them whose pages are known to hold only zeros. */
    ghost var blank: set<(nat, nat)>
    /** The pages that hold region records, and how many of them numAlloc has never counted. */
    ghost var records: set<nat>
    ghost var uncounted: nat

    predicate NewPagesDirty() {
      if useVirtualMemory then pagesDirty else true
    }

    /** What a block that is not flagged dirty may be taken to hold: nothing, where new pages are not zero. */
    ghost function Z(): set<nat>
      reads this`zeroed
    {
      if NewPagesDirty() then {} else zeroed
    }

    lemma ZIs()
      ensures Z() == if useVirtualMemory && !pagesDirty then zeroed else {}
      ensures NewPagesDirty() <==> !(useVirtualMemory && !pagesDirty)
    {
    }

    /** RemoveFromList; the links make this constant time. */
    method RemoveFromList(h: nat)
      requires HeapOk(blocks, freelists) && h < |blocks| && blocks[h].free
      modifies this`blocks, this`freelists
      ensures IsHead(old(blocks), h)
      ensures blocks == Unlinked(old(blocks), h) && HeapOk(blocks, freelists)
      ensures UsersKept(old(blocks), blocks, {}) && Hands(blocks) == Hands(old(blocks)) + {h}
      ensures h !in Hands(old(blocks))
      ensures PrevDiffers(blocks, h, blocks[h].committed) && NextDiffers(blocks, h, blocks[h].committed)
    {
      ghost var l', i' := FreeIsListed(blocks, freelists, h);
      hide HeapOk;
      var l: nat :| l < |freelists| && h in freelists[l];
      var i: nat :| i < |freelists[l]| && freelists[l][i] == h;
      Unlink(blocks, freelists, l, i);
      freelists := freelists[l := Cut(freelists[l], i)];
      blocks := blocks[h := blocks[h].(free := false)];
    }

    /** File a block in hand under its size, at the place its list's order asks for. */
    method FileBlock(h: nat) returns (ghost at: nat)
      requires HeapOk(blocks, freelists) && InHand(blocks, h)
      requires PrevDiffers(blocks, h, blocks[h].committed) && NextDiffers(blocks, h, blocks[h].committed)
      modifies this`blocks, this`freelists
      ensures blocks == Linked(old(blocks), h) && HeapOk(blocks, freelists)
      ensures UsersKept(old(blocks), blocks, {h}) && Hands(blocks) == Hands(old(blocks)) - {h}
      ensures var l := GetFreeListIndex(old(blocks)[h].size);
        && l < |old(freelists)| && PlaceFor(old(blocks), old(freelists)[l], at, old(blocks)[h].size)
        && freelists == old(freelists)[l := Put(old(freelists)[l], at, h)]
    {
      var l := GetFreeListIndex(blocks[h].size);
      var s := freelists[l];
      assert ListOk(blocks, l, s);
      var i := |s|;
      if blocks[h].size >= UNIQUE_THRESHOLD {
        i := 0;
        while i < |s| && blocks[s[i]].size < blocks[h].size
          invariant 0 <= i <= |s|
          invariant forall a :: 0 <= a < i ==> blocks[s[a]].size < blocks[h].size
          modifies {}
        {
          i := i + 1;
        }
        SortedPointFits(blocks, l, s, i, h);
      } else {
        UniquePointFits(blocks, l, s, h);
      }
      hide ListsOk, ListOk, FitsAt;
      assert Filed(blocks, l, h);
      Insert(blocks, freelists, l, i, h);
      at := i;
      freelists := freelists[l := Put(s, i, h)];
      blocks := blocks[h := blocks[h].(free := true)];
    }

    /**
     First half of AddToFreeList: coalesce a committed block with its free committed
     predecessor; `d` is the predecessor's dirty flag.
     */
    method JoinPrev(h: nat) returns (b: nat, d: bool)
      requires HeapOk(blocks, freelists) && InHand(blocks, h)
      modifies this`blocks, this`freelists
      ensures HeapOk(blocks, freelists) && JoinedPrev(old(blocks), h, blocks, b, d, Z())
    {
      b, d := h, false;
      ghost var bs, fl := blocks, freelists;
      StayedPrev(bs, fl, h, Z());
      hide HeapOk, JoinedPrev;
      if blocks[b].committed && blocks[b].sizePrevious > 0 {
        var p := b - blocks[b].sizePrevious;
        if blocks[p].free && blocks[p].committed {
          RemoveFromList(p);
          TookPrev(bs, fl, freelists, h, Z());
          blocks := Merge(blocks, p);
          b := p;
          d := blocks[b].dirty;
        }
      }
    }

    /** Second half: coalesce a committed block with its free committed successor, whose dirty flag is `d`. */
    method JoinNext(b: nat) returns (d: bool)
      requires HeapOk(blocks, freelists) && InHand(blocks, b)
      requires blocks[b].committed ==> PrevDiffers(blocks, b, true)
      modifies this`blocks, this`freelists
      ensures HeapOk(blocks, freelists) && JoinedNext(old(blocks), b, blocks, d, Z())
    {
      d := false;
      ghost var bs, fl := blocks, freelists;
      StayedNext(bs, fl, b, Z());
      hide HeapOk, JoinedNext;
      if blocks[b].committed {
        var n := b + blocks[b].size;
        if blocks[n].free && blocks[n].committed {
          RemoveFromList(n);
          TookNext(bs, fl, freelists, b, Z());
          blocks := Merge(blocks, b);
          d := blocks[n].dirty;
        }
      }
    }

    /**
     AddToFreeList: coalesce a committed block with its committed free neighbours
     and file the result.  A decommitted block is filed as it is.
     */
    method AddToFreeList(h: nat, makeDirty: bool)
      requires HeapOk(blocks, freelists) && InHand(blocks, h)
      requires !blocks[h].committed ==> PrevDiffers(blocks, h, false) && NextDiffers(blocks, h, false)
      modifies this`blocks, this`freelists
      ensures HeapOk(blocks, freelists)
      ensures UsersKept(old(blocks), blocks, {h}) && Hands(blocks) == Hands(old(blocks)) - {h}
      ensures Pages(Used, blocks) == Pages(Used, old(blocks)) - old(blocks)[h].size
      ensures Pages(Decommitted, blocks) == Pages(Decommitted, old(blocks))
      ensures Pages(All, blocks) == Pages(All, old(blocks))
      // what was known about zero pages stays true unless the block's dirt was forgotten and mattered
      ensures ZeroOk(old(blocks), Z()) && (makeDirty || CleanOk(old(blocks), h, Z())) ==>
        (ZeroOk(blocks, Z()) <==> (DirtDropped(old(blocks), h, makeDirty) ==> CellsZero(old(blocks), h, Z())))
      ensures !old(blocks)[h].committed ==>
        blocks == Linked(Reflagged(old(blocks), h, false, old(blocks)[h].dirty || makeDirty), h)
      ensures old(blocks)[h].committed ==>
        Serves(blocks, old(blocks)[h].size) && forall k: nat :: Serves(old(blocks), k) ==> Serves(blocks, k)
    {
      hide *;
      ghost var bs := blocks;
      var b, d1 := JoinPrev(h);
      ghost var bs1 := blocks;
      JoinedPrevHand(bs, h, bs1, b, d1, Z());
      var d2 := JoinNext(b);
      ghost var bs2 := blocks;
      JoinedNextHand(bs1, b, bs2, d2, Z());
      AddReady(bs, bs1, bs2, freelists, h, b, d1, d2, blocks[b].dirty || makeDirty || d1 || d2, Z());
      AddKept(bs, bs1, bs2, h, b, d1, d2, makeDirty, Z());
      var dirty := blocks[b].dirty || makeDirty || d1 || d2;
      blocks := blocks[b := blocks[b].(dirty := dirty)];
      ghost var at := FileBlock(b);
    }

    // ----- committing -----

    /**
     Commit: the pages of a block in hand become usable.  Those of `blank` (all of
     them, unless commits are sloppy) had been decommitted, and are new.
     */
    method Commit(h: nat, ghost blank: set<nat>)
      requires HeapOk(blocks, freelists) && InHand(blocks, h) && (sloppyCommit || !blocks[h].committed)
      modifies this`blocks, this`numDecommitted, this`zeroed
      ensures blocks == Reflagged(old(blocks), h, true, pagesDirty) && HeapOk(blocks, freelists)
      ensures numDecommitted == old(numDecommitted) - old(blocks)[h].size
      ensures zeroed == if pagesDirty then old(zeroed) else old(zeroed) + blank
    {
      Reflag(blocks, freelists, h, true, pagesDirty);
      numDecommitted := numDecommitted - blocks[h].size;
      blocks := blocks[h := blocks[h].(committed := true, dirty := pagesDirty)];
      zeroed := if pagesDirty then zeroed else zeroed + blank;
    }

    /** Split off and file the part of a run's last block that would be committed for nothing. */
    method PruneDecommittedBlock(n: nat, available: nat, request: nat)
      requires HeapOk(blocks, freelists) && InHand(blocks, n) && !blocks[n].committed
      requires request <= available < request + blocks[n].size
      requires NextDiffers(blocks, n, false)
      modifies this`blocks, this`freelists
      ensures HeapOk(blocks, freelists) && NextOf(old(blocks), n) < |old(blocks)|
      ensures blocks == Trimmed(old(blocks), n, PrunedSize(old(blocks)[n].size, available, request))
    {
      hide *;
      PruneReady(blocks, freelists, n, available, request);
      var toCommit := if request > MIN_HEAP_INCREMENT then request else MIN_HEAP_INCREMENT;
      var leftOver := available - request;
      if available > toCommit && leftOver > 0 {
        var k := blocks[n].size - leftOver;
        SplitFiled(blocks, freelists, n, k);
        blocks := Split(blocks, n, k);
        AddToFreeList(n + k, false);
      }
    }

    /**
     Unlink the next block of a run that has `have` of the `need` pages, and make as much of it as is
     wanted usable.
     */
    method PrepareNext(n: nat, have: nat, need: nat)
      requires HeapOk(blocks, freelists) && IsHead(blocks, n) && blocks[n].free && have < need
      modifies this`blocks, this`freelists, this`numDecommitted, this`zeroed
      ensures HeapOk(blocks, freelists) && |blocks| == |old(blocks)| && NextOf(old(blocks), n) < |blocks|
      ensures 0 < blocks[n].size <= old(blocks)[n].size
      ensures blocks[n].size == TakenSize(old(blocks)[n].size, old(blocks)[n].committed, have, need)
      ensures blocks[n].size < old(blocks)[n].size ==> have + blocks[n].size == need && !old(blocks)[n].committed
      ensures var commit := !sloppyCommit && !old(blocks)[n].committed;
        && blocks == Prepared(old(blocks), n, blocks[n].size, commit, pagesDirty)
        && numDecommitted == old(numDecommitted) - (if commit then blocks[n].size else 0)
        && zeroed == if commit && !pagesDirty then old(zeroed) + Cells(blocks, n) else old(zeroed)
    {
      hide *;
      PrepareReady(blocks, freelists, n, have, need);
      ghost var bs, k: nat := blocks, blocks[n].size;
      RemoveFromList(n);
      if !blocks[n].committed {
        if have + blocks[n].size >= need {
          k := PrunedSize(k, have + k, need);
          PruneDecommittedBlock(n, have + blocks[n].size, need);
        }
      }
      PreparedIs(bs, n, k, pagesDirty);
      if !blocks[n].committed && !sloppyCommit {
        Commit(n, Cells(blocks, n));
      }
    }

    /**
     One round of CreateCommittedBlock's loop: coalesce the next block of the run
     into block `h`.  `amount` counts the decommitted pages of the run so far, and
     `blank` holds those not yet committed (commits are sloppy).
     */
    method TakeNext(h: nat, need: nat, ghost bs0: seq<HeapBlock>, ghost e: nat, dirty: bool, amount: nat,
                    ghost blank: set<nat>)
      returns (dirty': bool, amount': nat, ghost blank': set<nat>)
      requires h < |blocks| && Layout(bs0) && Coalesced(bs0) && HeapOk(blocks, freelists)
      requires Gathered(bs0, blocks, h, e, need, amount) && blocks[h].size < need
      requires WellCut(bs0, h, e, need, blocks[h].size, amount)
      modifies this`blocks, this`freelists, this`numDecommitted, this`zeroed
      ensures HeapOk(blocks, freelists) && e < |bs0| && bs0[e].free && e < NextOf(bs0, e) < |bs0|
      ensures |blocks| == |old(blocks)| && Gathered(bs0, blocks, h, NextOf(bs0, e), need, amount') && amount <= amount'
      ensures WellCut(bs0, h, NextOf(bs0, e), need, blocks[h].size, amount')
      ensures !sloppyCommit ==> blank' == blank
      ensures blocks[h].committed == old(blocks)[h].committed && blocks[h].size > old(blocks)[h].size
      ensures numDecommitted == old(numDecommitted) - if sloppyCommit then 0 else amount' - amount
      ensures !pagesDirty && CleanSoFar(old(blocks), h, dirty, old(zeroed), blank) ==>
        CleanSoFar(blocks, h, dirty', zeroed, blank')
      ensures !pagesDirty ==> old(zeroed) <= zeroed && blank <= blank'
      // new pages are dirty, and so is all that is committed
      ensures pagesDirty && ZeroOk(old(blocks), {}) ==>
        ZeroOk(blocks, {}) && ((amount < old(blocks)[h].size ==> dirty) ==> (amount' < blocks[h].size ==> dirty'))
    {
      ghost var bs := blocks;
      hide *;
      TakeReady(bs0, bs, freelists, h, e, need, amount);
      WellCutStep(bs0, h, e, need, bs[h].size, amount);
      var n := h + blocks[h].size;
      var c, d := blocks[n].committed, blocks[n].dirty;
      PrepareNext(n, blocks[h].size, need);
      var k := blocks[n].size;
      TakeRound(bs0, bs, freelists, h, e, need, amount, k, !sloppyCommit && !c, pagesDirty);
      if !pagesDirty && CleanSoFar(bs, h, dirty, old(zeroed), blank) {
        RoundZero(bs, h, k, !sloppyCommit && !c, dirty, old(zeroed), blank);
      }
      if pagesDirty && ZeroOk(bs, {}) {
        TakenDirty(bs, h, k, !sloppyCommit && !c, true);
      }
      dirty' := if c then dirty || d else dirty;
      amount' := if c then amount else amount + k;
      blank' := if c || !sloppyCommit then blank else blank + Cells(blocks, n);
      blocks := Merge(blocks, h);
    }

    /**
     Coalesce the run from `h`, whose first block is in hand and too small; `dirty` is what the
     result must be flagged.
     */
    method CoalesceRun(h: nat, need: nat, ghost bs0: seq<HeapBlock>)
      requires Layout(bs0) && Coalesced(bs0) && IsHead(bs0, h) && bs0[h].free && FreeRun(bs0, h, need)
      requires useVirtualMemory && bs0[h].size < need
      requires HeapOk(blocks, freelists) && blocks == Unlinked(bs0, h)
      modifies this`blocks, this`freelists, this`numDecommitted, this`zeroed
      ensures HeapOk(blocks, freelists) && h < |blocks| && Built(bs0, blocks, h, need)
      ensures WellCut(bs0, h, RunEnd(bs0, h, need), need, blocks[h].size, Pages(Decommitted, bs0) - Pages(Decommitted, blocks))
      ensures !sloppyCommit ==>
        numDecommitted - Pages(Decommitted, blocks) == old(numDecommitted) - Pages(Decommitted, bs0)
      ensures sloppyCommit ==>
        numDecommitted - Pages(Decommitted, blocks) < old(numDecommitted) - Pages(Decommitted, bs0)
      ensures ZeroOk(bs0, old(Z())) ==> ZeroOk(blocks, Z()) && CleanOk(blocks, h, Z())
      ensures !pagesDirty && !bs0[h].committed ==> Cells(bs0, h) <= zeroed
    {
      hide *;
      ZIs();
      CoalesceReady(bs0, blocks, h, need, Z());
      var amount: nat := if blocks[h].committed then 0 else blocks[h].size;
      var dirty := blocks[h].dirty;
      ghost var e: nat, blank := NextOf(bs0, h), {};
      ghost var known := ZeroOk(bs0, Z());
      if known { FirstDirty(bs0, blocks, h, Z()); }
      if !blocks[h].committed {
        if sloppyCommit {
          blank := Cells(blocks, h);
        } else {
          GatheredReflag(bs0, blocks, h, e, need, amount, true, pagesDirty);
          Commit(h, Cells(blocks, h));
        }
      }
      while blocks[h].size < need
        invariant h < |blocks| && e < |bs0| && HeapOk(blocks, freelists) && Gathered(bs0, blocks, h, e, need, amount)
        invariant WellCut(bs0, h, e, need, blocks[h].size, amount)
        invariant blocks[h].size > bs0[h].size || blocks[h].size < need
        invariant numDecommitted == old(numDecommitted) - if sloppyCommit then 0 else amount
        invariant known && !pagesDirty ==> CleanSoFar(blocks, h, dirty, zeroed, blank)
        invariant !pagesDirty && !bs0[h].committed ==> Cells(bs0, h) <= zeroed + blank
        invariant known && pagesDirty ==> ZeroOk(blocks, {}) && (amount < blocks[h].size ==> dirty)
        invariant sloppyCommit || (blank == {} && blocks[h].committed)
        decreases need - blocks[h].size
      {
        ghost var e' := NextOf(bs0, e);
        dirty, amount, blank := TakeNext(h, need, bs0, e, dirty, amount, blank);
        e := e';
      }
      CoalesceDone(bs0, blocks, freelists, h, e, need, amount, dirty, zeroed, blank, known && !pagesDirty);
      if known && pagesDirty { DoneDirty(blocks, h); }
      assert zeroed + {} == zeroed;
      if sloppyCommit {
        Commit(h, blank);
      }
      DirtyIs(blocks, h, dirty);
      ZIs();
      blocks := blocks[h := blocks[h].(dirty := dirty)];
    }

    /**
     CreateCommittedBlock: turn the run of free blocks from `h` into one committed
     block large enough for the request and its alignment.
     */
    method CreateCommittedBlock(h: nat, size: nat, alignment: nat)
      requires HeapOk(blocks, freelists) && h < |blocks| && IsHead(blocks, h) && blocks[h].free && size > 0
      requires alignment > 0
      requires useVirtualMemory && FreeRun(blocks, h, size + AlignmentSlop(blocks[h].page, alignment))
      requires blocks[h].committed ==> blocks[h].size < size + AlignmentSlop(blocks[h].page, alignment)
      modifies this`blocks, this`freelists, this`numDecommitted, this`zeroed
      ensures HeapOk(blocks, freelists)
      ensures Built(old(blocks), blocks, h, size + AlignmentSlop(old(blocks)[h].page, alignment))
      // of a decommitted last block no more is used than makes up what is needed, or 32 pages; of a committed one, all
      ensures var need := size + AlignmentSlop(old(blocks)[h].page, alignment);
        var last, e := RunLast(old(blocks), h, need), RunEnd(old(blocks), h, need);
        && (!old(blocks)[last].committed ==> blocks[h].size <= Most(need, 32))
        && (blocks[h].size < e - h ==> !old(blocks)[last].committed && blocks[h].size == need && e - h > 32)
        && 0 <= Pages(Decommitted, old(blocks)) - Pages(Decommitted, blocks) <= Most(need, 32)
      // a sloppy commit subtracts the committed part of the run from numDecommitted as well
      ensures numDecommitted - Pages(Decommitted, blocks) == old(numDecommitted) - Pages(Decommitted, old(blocks))
        <==> !sloppyCommit || old(blocks)[h].size >= size + AlignmentSlop(old(blocks)[h].page, alignment)
      ensures ZeroOk(old(blocks), old(Z())) ==> ZeroOk(blocks, Z()) && CleanOk(blocks, h, Z())
      // the first block of the run, as far as it is used, comes back zero
      ensures !pagesDirty && !old(blocks)[h].committed ==>
        forall x :: h <= x < NextOf(old(blocks), h) && x < NextOf(blocks, h) ==> x in Z()
    {
      hide *;
      ghost var bs0 := blocks;
      var need: nat := size + AlignmentSlop(blocks[h].page, alignment);
      CreateReady(bs0, freelists, h, need);
      RemoveFromList(h);
      if blocks[h].size < need {
        CoalesceRun(h, need, bs0);
        CellsAre(bs0, h);
      } else {
        PruneDecommittedBlock(h, blocks[h].size, need);
        ZIs();
        CreateTrimmed(bs0, blocks, freelists, h, need, pagesDirty, Z());
        CellsAre(blocks, h);
        Commit(h, Cells(blocks, h));
      }
      WellCutSizes(bs0, h, need, blocks[h].size, Pages(Decommitted, bs0) - Pages(Decommitted, blocks));
      ZIs();
    }

    // ----- allocation -----

    /**
     AllocCommittedBlock: give back the pages before the first aligned one and those
     after the request.  `zero'` tells whether the caller has to clear the block.
     */
    method AllocCommittedBlock(h: nat, size: nat, zero: bool, alignment: nat) returns (b: nat, zero': bool)
      requires HeapOk(blocks, freelists) && h < |blocks| && InHand(blocks, h) && blocks[h].committed
      requires size > 0 && alignment > 0 && blocks[h].size >= size + AlignmentSlop(blocks[h].page, alignment)
      modifies this`blocks, this`freelists
      ensures HeapOk(blocks, freelists) && |blocks| == |old(blocks)| && b < |blocks| && InHand(blocks, b)
      ensures b == h + AlignmentSlop(old(blocks)[h].page, alignment)
      ensures blocks[b].size == size && blocks[b].page == old(blocks)[h].page + (b - h) && blocks[b].committed
      ensures zero' <==> zero && old(blocks)[h].dirty
      ensures blocks[b].dirty == old(blocks)[h].dirty
      ensures UsersKept(old(blocks), blocks, {h}) && Hands(blocks) == Hands(old(blocks)) - {h} + {b}
      ensures b == h || b !in Hands(old(blocks))
      ensures Pages(Used, blocks) == Pages(Used, old(blocks)) - old(blocks)[h].size + size
      ensures Pages(Decommitted, blocks) == Pages(Decommitted, old(blocks))
      ensures Pages(All, blocks) == Pages(All, old(blocks))
      ensures CleanOk(old(blocks), h, Z()) ==> CleanOk(blocks, b, Z())
      // the pages given back in front are not filed as clean when they are not
      ensures ZeroOk(old(blocks), Z()) && CleanOk(old(blocks), h, Z()) && FrontClear(old(blocks), h, b, Z()) ==>
        ZeroOk(blocks, Z())
    {
      hide *;
      ghost var bs := blocks;
      var slop := AlignmentSlop(blocks[h].page, alignment);
      b := h;
      NothingCut(bs, freelists, h);
      if slop > 0 {
        SplitFacts(bs, freelists, h, slop, Z());
        blocks := Split(blocks, h, slop);
        b := h + slop;
        ghost var b1 := blocks;
        if ZeroOk(bs, Z()) && FrontClear(bs, h, h + slop, Z()) { SlopKept(bs, freelists, h, slop, Z()); }
        AddToFreeList(h, false);
        Untouched(b1, blocks, h, b, Z());
        CutUsers(bs, b1, blocks, h, h, b);
      }
      ghost var bs2 := blocks;
      NothingCut(bs2, freelists, b);
      if blocks[b].size > size {
        SplitFacts(bs2, freelists, b, size, Z());
        blocks := Split(blocks, b, size);
        ghost var b3 := blocks;
        AddToFreeList(b + size, false);
        Untouched(b3, blocks, b + size, b, Z());
        CutUsers(bs2, b3, blocks, b, b + size, b);
      }
      CutUsersTwice(bs, bs2, blocks, h, b);
      zero' := blocks[b].dirty && zero;
    }

    /** The first inner loop of AllocBlock: extend block `h` towards lower addresses while the run is too short. */
    method FindRunStart(h: nat, size: nat, alignment: nat) returns (firstFree: nat, totalSize: nat)
      requires HeapOk(blocks, freelists) && h < |blocks| && blocks[h].free && size > 0 && alignment > 0
      ensures firstFree <= h < |blocks| && blocks[firstFree].free && IsHead(blocks, firstFree)
      ensures totalSize == NextOf(blocks, h) - firstFree && FreeSpan(blocks, firstFree, NextOf(blocks, h))
      ensures FrontSafe(blocks, firstFree, alignment)
      ensures totalSize < Need(blocks, firstFree, size, alignment) ==> NoneBefore(blocks, firstFree)
      ensures Suffices(blocks, h, size, alignment) ==> firstFree == h
    {
      FreeBlockSpan(blocks, h);
      HeapLaidOut(blocks, freelists);
      hide HeapOk, Layout, FreeSpan, FreeRun, AlignmentSlop;
      totalSize := blocks[h].size;
      firstFree := h;
      var firstSlop := AlignmentSlop(blocks[h].page, alignment);
      while totalSize < size + firstSlop && blocks[firstFree].sizePrevious != 0
        invariant firstFree <= h && blocks[firstFree].free && IsHead(blocks, firstFree)
        invariant totalSize == NextOf(blocks, h) - firstFree && FreeSpan(blocks, firstFree, NextOf(blocks, h))
        invariant size + firstSlop == Need(blocks, firstFree, size, alignment)
        invariant totalSize >= size + firstSlop ==> FrontSafe(blocks, firstFree, alignment)
        invariant Suffices(blocks, h, size, alignment) ==> firstFree == h
        decreases firstFree
      {
        PrevOfRun(blocks, freelists, firstFree);
        var prevBlock := firstFree - blocks[firstFree].sizePrevious;
        if blocks[prevBlock].InUse() || blocks[prevBlock].size == 0 {
          break;
        }
        SpanPrepend(blocks, prevBlock, firstFree, NextOf(blocks, h));
        BackPages(blocks, prevBlock);
        if totalSize + blocks[prevBlock].size >= size + AlignmentSlop(blocks[prevBlock].page, alignment) {
          SlopInFirst(blocks[prevBlock].page, blocks[prevBlock].size, totalSize, size, alignment);
        }
        totalSize := totalSize + blocks[prevBlock].size;
        firstFree := prevBlock;
        firstSlop := AlignmentSlop(blocks[firstFree].page, alignment);
      }
    }

    /**
     The inner loops of AllocBlock: look for a run of free blocks around block `h`,
     first towards lower addresses, then towards higher ones.
     */
    method FindRun(h: nat, size: nat, alignment: nat) returns (r: Choice, ghost a: nat, ghost e: nat)
      requires HeapOk(blocks, freelists) && h < |blocks| && blocks[h].free && size > 0 && alignment > 0
      ensures r.Chosen? <==> RunAround(blocks, h, size, alignment)
      ensures r.Chosen? ==> r.block < |blocks| && blocks[r.block].free && IsHead(blocks, r.block)
      ensures r.Chosen? ==>
        FreeRun(blocks, r.block, Need(blocks, r.block, size, alignment)) && FrontSafe(blocks, r.block, alignment)
      ensures r.None? ==> MaximalSpan(blocks, a, e) && a <= h < e && e - a < Need(blocks, a, size, alignment)
      ensures Suffices(blocks, h, size, alignment) ==> r == Chosen(h)
    {
      HeapLaidOut(blocks, freelists);
      FreeIsHead(blocks, freelists, h);
      hide HeapOk, Layout, FreeSpan, FreeRun, AlignmentSlop, RunAround, FrontSafe;
      var firstFree, totalSize := FindRunStart(h, size, alignment);
      a := firstFree;
      var needed := size + AlignmentSlop(blocks[firstFree].page, alignment);
      var nextBlock := h + blocks[h].size;
      NextOfRun(blocks, freelists, h);
      while totalSize < needed && !(blocks[nextBlock].InUse() || blocks[nextBlock].size == 0)
        invariant h < nextBlock < |blocks| && totalSize == nextBlock - firstFree
        invariant FreeSpan(blocks, firstFree, nextBlock)
        decreases |blocks| - nextBlock
      {
        SpanAppend(blocks, firstFree, nextBlock);
        NextOfRun(blocks, freelists, nextBlock);
        totalSize := totalSize + blocks[nextBlock].size;
        nextBlock := nextBlock + blocks[nextBlock].size;
      }
      e := nextBlock;
      FreeIsHead(blocks, freelists, e);
      if totalSize >= needed {
        SpanIsRun(blocks, firstFree, nextBlock, needed);
        ThisRunAround(blocks, h, firstFree, nextBlock, size, alignment);
        r := Chosen(firstFree);
      } else {
        NothingAround(blocks, h, a, e, size, alignment);
        r := None;
      }
    }

    /**
     One list of AllocBlock's search: the first committed block in it that suffices, and
     the first run found on the way, if none has been found (`run0`) in the lists before.
     */
    method SearchList(l: nat, size: nat, alignment: nat, run0: Choice) returns (c: Choice, run: Choice)
      requires HeapOk(blocks, freelists) && size > 0 && alignment > 0 && GetFreeListIndex(size) <= l < NUM_FREE_LISTS
      requires NothingPassed(blocks, freelists, GetFreeListIndex(size), l, 0, size, alignment, useVirtualMemory && run0.None?)
      requires useVirtualMemory && run0.None? ==>
        RunsPassed(blocks, freelists, GetFreeListIndex(size), l, 0, size, alignment)
      requires run0.Chosen? ==> useVirtualMemory && RunFound(blocks, run0.block, size, alignment)
      requires run0.Chosen? ==> !NoRunListed(blocks, freelists, size, alignment)
      ensures c.Chosen? ==>
        c.block < |blocks| && Suffices(blocks, c.block, size, alignment) && blocks[c.block].committed
      ensures c.Chosen? && alignment == 1 ==> BestFit(blocks, c.block, size)
      ensures run.Chosen? ==> useVirtualMemory && RunFound(blocks, run.block, size, alignment)
      ensures run.Chosen? ==> !NoRunListed(blocks, freelists, size, alignment)
      ensures c.None? ==>
        NothingPassed(blocks, freelists, GetFreeListIndex(size), l + 1, 0, size, alignment, useVirtualMemory && run.None?)
      ensures c.None? && useVirtualMemory && run.None? ==>
        RunsPassed(blocks, freelists, GetFreeListIndex(size), l + 1, 0, size, alignment)
    {
      hide *;
      ListCount(blocks, freelists);
      c, run := None, run0;
      var i := 0;
      while i < |freelists[l]|
        invariant i <= |freelists[l]|
        invariant NothingPassed(blocks, freelists, GetFreeListIndex(size), l, i, size, alignment, useVirtualMemory && run.None?)
        invariant useVirtualMemory && run.None? ==>
          RunsPassed(blocks, freelists, GetFreeListIndex(size), l, i, size, alignment)
        invariant run.Chosen? ==> useVirtualMemory && RunFound(blocks, run.block, size, alignment)
        invariant run.Chosen? ==> !NoRunListed(blocks, freelists, size, alignment)
      {
        ListedFree(blocks, freelists, l, i);
        var h := freelists[l][i];
        SufficesIs(blocks, h, size, alignment);
        if blocks[h].size >= size + AlignmentSlop(blocks[h].page, alignment) && blocks[h].committed {
          c := Chosen(h);
          if alignment == 1 { ChosenIsBest(blocks, freelists, size, l, i, useVirtualMemory && run.None?); }
          return;
        }
        ghost var any := useVirtualMemory && run.None?;
        if useVirtualMemory && run.None? && !blocks[h].committed {
          ghost var a, e;
          run, a, e := FindRun(h, size, alignment);
          if run.Chosen? {
            RunIsFound(blocks, run.block, size, alignment);
            RunListed(blocks, freelists, l, i, size, alignment);
          }
        }
        PassedOne(blocks, freelists, GetFreeListIndex(size), l, i, size, alignment, any, useVirtualMemory && run.None?);
        if useVirtualMemory && run.None? {
          RunsPassedOne(blocks, freelists, GetFreeListIndex(size), l, i, size, alignment);
        }
        i := i + 1;
      }
      PassedList(blocks, freelists, GetFreeListIndex(size), l, size, alignment, useVirtualMemory && run.None?);
      if useVirtualMemory && run.None? {
        RunsPassedList(blocks, freelists, GetFreeListIndex(size), l, size, alignment);
      }
    }

    /**
     The search of AllocBlock: the first committed block that suffices, in the order
     of the lists, and the first run found on the way to it.
     */
    method Search(size: nat, alignment: nat) returns (c: Choice, run: Choice)
      requires HeapOk(blocks, freelists) && size > 0 && alignment > 0
      ensures c.Chosen? ==> Suffices(blocks, c.block, size, alignment) && blocks[c.block].committed
      ensures c.Chosen? && alignment == 1 ==> BestFit(blocks, c.block, size)
      ensures c.None? <==> OnlyRuns(blocks, size, alignment)
      ensures run.Chosen? ==> useVirtualMemory && RunFound(blocks, run.block, size, alignment)
      ensures c.None? ==> (run.None? <==> !useVirtualMemory || NoRunListed(blocks, freelists, size, alignment))
      ensures c.None? && run.None? && useVirtualMemory ==> NoBlock(blocks, size, alignment)
    {
      hide *;
      var l := GetFreeListIndex(size);
      c, run := None, None;
      NothingYet(blocks, freelists, l, size, alignment, useVirtualMemory);
      while l < NUM_FREE_LISTS
        invariant GetFreeListIndex(size) <= l <= NUM_FREE_LISTS && c.None?
        invariant NothingPassed(blocks, freelists, GetFreeListIndex(size), l, 0, size, alignment, useVirtualMemory && run.None?)
        invariant useVirtualMemory && run.None? ==>
          RunsPassed(blocks, freelists, GetFreeListIndex(size), l, 0, size, alignment)
        invariant run.Chosen? ==> useVirtualMemory && RunFound(blocks, run.block, size, alignment)
        invariant run.Chosen? ==> !NoRunListed(blocks, freelists, size, alignment)
      {
        c, run := SearchList(l, size, alignment, run);
        if c.Chosen? {
          NotOnlyRuns(blocks, c.block, size, alignment);
          return;
        }
        l := l + 1;
      }
      NothingLeft(blocks, freelists, size, alignment, useVirtualMemory && run.None?);
      if useVirtualMemory && run.None? { NoRunLeft(blocks, freelists, size, alignment); }
    }

    /**
     AllocBlock: allocate from a single committed block if one suffices, otherwise
     from a run that has to be committed first.
     */
    method AllocBlock(size: nat, zero: bool, alignment: nat) returns (r: Choice, zero': bool, ghost h: nat)
      requires HeapOk(blocks, freelists) && size > 0 && alignment > 0
      modifies this`blocks, this`freelists, this`numDecommitted, this`zeroed
      ensures HeapOk(blocks, freelists)
      ensures r.None? ==> blocks == old(blocks) && freelists == old(freelists) && numDecommitted == old(numDecommitted)
      ensures r.None? ==> Z() == old(Z()) && zeroed == old(zeroed) && zero' == zero
      // it fails exactly if no committed block suffices, and no run that has a decommitted block in the lists searched
      ensures r.None? <==>
        OnlyRuns(old(blocks), size, alignment) && (useVirtualMemory ==> NoRunListed(old(blocks), old(freelists), size, alignment))
      ensures r.None? && useVirtualMemory ==> NoBlock(old(blocks), size, alignment)
      ensures r.Chosen? ==> Allocated(old(blocks), blocks, h, r.block, size, alignment)
      ensures r.Chosen? ==> ChosenFrom(old(blocks), h, size, alignment, useVirtualMemory)
      ensures r.Chosen? && alignment == 1 && !OnlyRuns(old(blocks), size, 1) ==> BestFit(old(blocks), h, size)
      // no more is committed than the request takes, or 32 pages, and nothing if a committed block suffices
      ensures r.Chosen? ==>
        var most := Most(size + AlignmentSlop(old(blocks)[h].page, alignment), 32);
        0 <= Pages(Decommitted, old(blocks)) - Pages(Decommitted, blocks)
          <= if OnlyRuns(old(blocks), size, alignment) then most else 0
      ensures r.Chosen? ==>
        (numDecommitted - Pages(Decommitted, blocks) == old(numDecommitted) - Pages(Decommitted, old(blocks))
         <==> !sloppyCommit || Suffices(old(blocks), h, size, alignment))
      ensures r.Chosen? && ZeroOk(old(blocks), old(Z())) ==> ZeroOk(blocks, Z()) && CleanOk(blocks, r.block, Z())
      ensures r.Chosen? ==> (zero' <==> zero && blocks[r.block].dirty)
    {
      hide *;
      ghost var bs := blocks;
      var c, run := Search(size, alignment);
      zero', h := zero, 0;
      if c.Chosen? {
        var f := c.block;
        FitFacts(bs, freelists, f, size, alignment, Z());
        RemoveFromList(f);
        FitFront(blocks, f, f + AlignmentSlop(blocks[f].page, alignment), Z());
        ghost var bs1 := blocks;
        var b;
        b, zero' := AllocCommittedBlock(f, size, zero, alignment);
        CutAllocated(bs, bs1, blocks, f, b, size, alignment);
        r, h := Chosen(b), f;
      } else if run.Chosen? {
        var f := run.block;
        FoundRun(bs, f, size, alignment);
        RunFacts(bs, f, size, alignment, useVirtualMemory);
        CreateCommittedBlock(f, size, alignment);
        ghost var bs1 := blocks;
        BuiltFacts(bs, bs1, f, size, alignment);
        ZIs();
        if !pagesDirty {
          RunZero(bs, old(freelists), bs1, f, size, alignment, Z());
        } else {
          DirtyFront(bs1, f, f + AlignmentSlop(bs1[f].page, alignment));
        }
        var b;
        b, zero' := AllocCommittedBlock(f, size, zero, alignment);
        CutAllocated(bs, bs1, blocks, f, b, size, alignment);
        r, h := Chosen(b), f;
      } else {
        r := None;
      }
    }

    // ----- the state between operations -----

    /** Blocks, lists, regions and the heap's own records fit together. */
    ghost predicate Sound()
      reads this
    {
      SoundState(blocks, freelists, regions, descriptors, records, larges, useVirtualMemory)
    }

    /**
     Besides, every region of a large allocation is committed to its end, so that an expansion cannot
     take pages from it.
     */
    ghost predicate Valid()
      reads this
    {
      Sound() && NoTails(regions)
    }

    /** The accounts are exact, but for `due` pages handed out that have not been counted yet. */
    ghost predicate Accounts(due: int)
      reads this
    {
      AccountsOk(blocks, regions, numAlloc, numDecommitted, largeAllocs, uncounted, due, sloppyCommit)
    }

    /** A free committed block that is not flagged dirty holds only zeros; where new pages are dirty, there is none. */
    ghost predicate ZeroKnown()
      reads this
    {
      ZeroOk(blocks, Z())
    }

    /** What clients hold, by address and size. */
    ghost function InUse(): set<(nat, nat)>
      reads this
    {
      Clients(blocks, descriptors, records, larges)
    }

    lemma StateIs(due: int)
      ensures Sound() == SoundState(blocks, freelists, regions, descriptors, records, larges, useVirtualMemory)
      ensures Valid() <==> Sound() && NoTails(regions)
      ensures Accounts(due) == AccountsOk(blocks, regions, numAlloc, numDecommitted, largeAllocs, uncounted, due, sloppyCommit)
      ensures ZeroKnown() == ZeroOk(blocks, Z()) && InUse() == Clients(blocks, descriptors, records, larges)
    {
    }

    lemma SoundIs()
      requires Sound()
      ensures SoundState(blocks, freelists, regions, descriptors, records, larges, useVirtualMemory)
      ensures HeapOk(blocks, freelists) && UsersCommitted(blocks) && RegionsOk(blocks, regions)
      ensures RegionsLead(blocks, regions)
      ensures DescriptorsOk(blocks, descriptors) && (descriptors == 0 <==> |blocks| == 0)
    {
      hide SoundState;
      SoundParts(blocks, freelists, regions, descriptors, records, larges, useVirtualMemory);
    }

    /** The heap as it is built: empty, and expanded by its initial size if the system lets it. */
    constructor (useVirtualMemory: bool, sloppyCommit: bool, pagesDirty: bool, initialSize: nat)
      ensures this.useVirtualMemory == useVirtualMemory && this.sloppyCommit == sloppyCommit
      ensures this.pagesDirty == pagesDirty
      ensures Valid() && Accounts(0) && InUse() == {} && ZeroKnown()
    {
      this.useVirtualMemory, this.sloppyCommit := useVirtualMemory, sloppyCommit;
      this.pagesDirty, this.initialSize := pagesDirty, initialSize;
      blocks, freelists, regions := [], NoLists(), [];
      numAlloc, numDecommitted, largeAllocs := 0, 0, 0;
      freeRegions, nextRegions, descriptors := 0, 0, 0;
      zeroed, larges, blank, records, uncounted := {}, {}, {}, {}, 0;
      new;
      hide *;
      EmptyState(blocks, freelists, regions, useVirtualMemory, sloppyCommit, Z());
      StateIs(0);
      var ok;
      ghost var e;
      var tail;
      ok, tail, e := ExpandHeapInternal(initialSize);
    }

    // ----- addresses -----

    /** The region whose reserved pages include `page`. */
    method AddrToRegion(page: nat) returns (r: Choice)
      ensures r.Chosen? ==> r.block < |regions| && regions[r.block].base <= page < regions[r.block].reserveTop
      ensures r.None? ==> forall i :: 0 <= i < |regions| ==> !(regions[i].base <= page < regions[i].reserveTop)
    {
      var i := 0;
      while i < |regions|
        invariant i <= |regions|
        invariant forall j :: 0 <= j < i ==> !(regions[j].base <= page < regions[j].reserveTop)
      {
        if regions[i].base <= page < regions[i].reserveTop {
          return Chosen(i);
        }
        i := i + 1;
      }
      r := None;
    }

    /** The descriptor of the block that begins at `page`; large allocations have none. */
    method BaseAddrToBlock(page: nat) returns (r: Choice)
      requires Sound()
      ensures r.None? <==> forall g :: g in regions && g.base <= page < g.reserveTop ==> g.large
      ensures forall i: nat :: IsHead(blocks, i) && blocks[i].page == page ==> r == Chosen(i)
      ensures forall g :: g in regions && !g.large && g.base <= page < g.commitTop ==>
        r.Chosen? && CellHolds(blocks, r.block, page)
    {
      hide *;
      SoundIs();
      RegionTops(blocks, regions);
      var i := AddrToRegion(page);
      if i.None? {
        NoHeadThere(blocks, regions, page);
        return None;
      }
      var region := regions[i.block];
      assert region in regions;
      OneRegion(blocks, regions, i.block, page);
      if region.large {
        HeadFound(blocks, regions, i.block, page);
        return None;
      }
      r := Chosen(region.blockId + (page - region.base));
      HeadFound(blocks, regions, i.block, page);
      if page < region.commitTop {
        ghost var b := FoundCell(blocks, freelists, regions, i.block, page);
      }
    }

    /** The descriptor of the block that `page` lies in: step back over interior cells. */
    method InteriorAddrToBlock(page: nat) returns (r: Choice)
      requires Sound()
      requires forall g :: g in regions && !g.large && g.base <= page < g.reserveTop ==> page < g.commitTop
      ensures r.Chosen? ==> IsHead(blocks, r.block)
      ensures r.Chosen? ==> blocks[r.block].page <= page < blocks[r.block].page + blocks[r.block].size
      ensures r.None? <==> forall g :: g in regions && g.base <= page < g.reserveTop ==> g.large
    {
      SoundIs();
      hide Sound, SoundState, HeapOk, RegionsOk, RegionsLead, UsersCommitted, DescriptorsOk;
      var i := AddrToRegion(page);
      if i.None? {
        return None;
      }
      var region := regions[i.block];
      OneRegion(blocks, regions, i.block, page);
      assert region in regions;
      if region.large {
        return None;
      }
      var b: nat := region.blockId + (page - region.base);
      ghost var x := b;
      ghost var c := FoundCell(blocks, freelists, regions, i.block, page);
      while blocks[b].size == 0
        invariant c <= b <= x < NextOf(blocks, c) && Holds(blocks, c, x, page)
        decreases b
      {
        b := b - 1;
      }
      HeadOfCell(blocks, freelists, c, b);
      r := Chosen(b);
    }

    // ----- region records -----

    predicate HaveFreeRegion()
      reads this`freeRegions, this`nextRegions
    {
      freeRegions > 0 || nextRegions > 0
    }

    lemma RecordsPerPage()
      ensures REGIONS_PER_PAGE == 102
    {
    }

    lemma HaveIs()
      ensures HaveFreeRegion() <==> freeRegions > 0 || nextRegions > 0
    {
    }

    /** NewRegion: a record that was given back, or else the next one of the page. */
    method NewRegion(r: Region)
      requires HaveFreeRegion()
      modifies this`regions, this`freeRegions, this`nextRegions
      ensures regions == [r] + old(regions) && freeRegions + nextRegions == old(freeRegions + nextRegions) - 1
      ensures nextRegions == old(nextRegions) - (if old(freeRegions) > 0 then 0 else 1)
    {
      if freeRegions > 0 {
        freeRegions := freeRegions - 1;
      } else {
        nextRegions := nextRegions - 1;
      }
      regions := [r] + regions;
    }

    // ----- memory from the system -----

    /** Reserve address space.  Where it will be is the system's choice, and it may refuse: then the answer is 0. */
    method Reserve(size: nat, ghost asked: set<(nat, nat)>) returns (page: nat, ghost asked': set<(nat, nat)>)
      ensures page > 0 ==> FreeRange(regions, page, page + size)
      ensures asked' == asked + {(size, page)}
    {
      var answer: int := *;
      page := if answer > 0 && FreeRange(regions, answer, answer + size) then answer else 0;
      asked' := asked + {(size, page)};
    }

    /**
     The first half of ExpandHeapInternal: get memory for `size` more pages, from what
     the newest region has left, or from that and a new region next to it, or from a
     new region elsewhere.
     */
    method GetMemory(size: nat) returns (m: Memory, ghost refused: bool, ghost asked: set<(nat, nat)>)
      requires size > 0 && HeapOk(blocks, freelists) && RegionsLead(blocks, regions)
      ensures Granted(blocks, regions, size, m)
      ensures !useVirtualMemory && m.Memory? ==> m.avail == 0 && m.reserve == size
      // it fails exactly if the last answer of the system was no
      ensures m.NoMemory? <==> refused
      // less address space than usual is used only where that has been refused; `asked` has the system's answers
      ensures useVirtualMemory && m.Memory? && size < DEFAULT_RESERVE && 0 < m.reserve < DEFAULT_RESERVE ==>
        (DEFAULT_RESERVE, 0) in asked
      ensures m.Memory? && m.reserve > 0 ==> (m.reserve, m.base + m.avail) in asked
      // what the newest region has left comes first, and no region is larger than it has to be but for the usual size
      ensures useVirtualMemory && |regions| > 0 && size <= regions[0].reserveTop - regions[0].commitTop && m.Memory? ==>
        m.avail == size && m.reserve == 0
      ensures m.Memory? && m.reserve > 0 ==>
        m.reserve == size - m.avail || (m.reserve == DEFAULT_RESERVE && size < DEFAULT_RESERVE)
    {
      hide FreeRange;
      m, refused, asked := NoMemory, false, {};
      if useVirtualMemory {
        var page: nat, reserve := 0, 0;
        if |regions| > 0 {
          var region := regions[0];
          assert RegionOk(blocks, regions[0]);
          var commitAvail: nat := region.reserveTop - region.commitTop;
          if size <= commitAvail {
            var committed: bool := *;
            refused := !committed;
            if committed {
              m := Memory(region.commitTop, Adjoins(blocks, region.commitTop), size, 0);
            }
            return;
          }
          if DEFAULT_RESERVE > size {
            page, asked := Reserve(DEFAULT_RESERVE, asked);
            reserve := DEFAULT_RESERVE;
          }
          if page == 0 {
            page, asked := Reserve(size - commitAvail, asked);
            reserve := size - commitAvail;
            if page != region.reserveTop {
              page, reserve := 0, 0;
            }
          }
          if page == region.reserveTop {
            var committed: bool := *;
            refused := !committed;
            if committed {
              m := Memory(region.commitTop, Adjoins(blocks, region.commitTop), commitAvail, reserve);
            }
            return;
          }
        }
        if page == 0 && size < DEFAULT_RESERVE {
          page, asked := Reserve(DEFAULT_RESERVE, asked);
          reserve := DEFAULT_RESERVE;
        }
        if page == 0 {
          page, asked := Reserve(size, asked);
          reserve := size;
        }
        var committed: bool := *;
        refused := page == 0 || !committed;
        if page != 0 && committed {
          m := Memory(page, false, 0, reserve);
        }
      } else {
        var page;
        page, asked := Reserve(size, asked);
        refused := page == 0;
        if page != 0 {
          m := Memory(page, false, 0, size);
        }
      }
    }

    // ----- expansion -----

    /** Carve the first `n` pages off the new memory that is in hand at `h`; they count as allocated. */
    method CarveOff(h: nat, n: nat, ghost bs: seq<HeapBlock>, ghost k: nat, ghost base: nat, ghost size: nat,
                    ghost hs: set<nat>)
      returns (h': nat)
      requires HeapOk(blocks, freelists) && Building(bs, blocks, k, base, size, h, hs) && h < |blocks|
      requires 0 < n < blocks[h].size
      modifies this`blocks, this`numAlloc
      ensures HeapOk(blocks, freelists) && Building(bs, blocks, k, base, size, h', hs + {h'})
      ensures h' == h + n < |blocks| && h' !in hs
      ensures InHand(blocks, h) && blocks[h].size == n && blocks[h].page == old(blocks)[h].page
      ensures InHand(blocks, h') && blocks[h'].size == old(blocks)[h].size - n
      ensures blocks[h'].dirty == old(blocks)[h].dirty
      ensures numAlloc == old(numAlloc) + n
      ensures ZeroOk(old(blocks), Z()) ==> ZeroOk(blocks, Z())
      ensures forall y: nat :: y != h && InHand(old(blocks), y) ==>
        y < |blocks| && InHand(blocks, y) && blocks[y].size == old(blocks)[y].size && blocks[y].page == old(blocks)[y].page
    {
      hide *;
      BuildingCarve(bs, blocks, freelists, k, base, size, h, hs, n, Z());
      blocks := Split(blocks, h, n);
      numAlloc := numAlloc + n;
      h' := h + n;
    }

    /**
     The descriptors of the new memory: one block, from which the pages of the moved
     descriptor array and of region records are carved.  The rest stays in hand.
     */
    method SetUpBlocks(base: nat, size: nat, contiguous: bool, moved: bool, haveRegion: bool)
      returns (self: Choice, page: Choice, h: nat)
      requires HeapOk(blocks, freelists) && UsersCommitted(blocks)
      requires base > 0 && size > 0 && (contiguous ==> |blocks| > 0 && Adjoins(blocks, base))
      requires Rest(size, moved, Kept(blocks, contiguous) + size + 1, haveRegion, HEAP_BLOCK_BYTES) > 0
      modifies this`blocks, this`numAlloc
      ensures HeapOk(blocks, freelists)
      ensures Building(old(blocks), blocks, Kept(old(blocks), contiguous), base, size, h, {h} + One(self) + One(page))
      ensures h < |blocks| == Kept(old(blocks), contiguous) + size + 1
      ensures blocks[h].size == Rest(size, moved, |blocks|, haveRegion, HEAP_BLOCK_BYTES)
      ensures blocks[h].dirty == NewPagesDirty()
      ensures numAlloc == old(numAlloc) + size - blocks[h].size
      ensures ZeroOk(old(blocks), Z()) ==> ZeroOk(blocks, Z())
      // the descriptors, if they move, go to the beginning
      ensures self.Chosen? <==> moved
      ensures moved ==>
        self.block < |blocks| && InHand(blocks, self.block) && blocks[self.block].page == base && self.block != h
      ensures moved ==> blocks[self.block].size == DescriptorPages(|blocks|, HEAP_BLOCK_BYTES)
      // the page for region records, if there has to be one
      ensures page.Chosen? <==> !haveRegion
      ensures page.Chosen? ==> page.block < |blocks| && InHand(blocks, page.block) && blocks[page.block].size == 1
      ensures page.Chosen? ==> page.block != h && page != self
    {
      hide *;
      ghost var bs, k := blocks, Kept(blocks, contiguous);
      BuildingStart(bs, freelists, base, size, contiguous, NewPagesDirty());
      if ZeroOk(bs, Z()) { StartZero(bs, freelists, base, size, contiguous, NewPagesDirty(), Z()); }
      h := Kept(blocks, contiguous);
      blocks := Grown(blocks, base, size, contiguous, NewPagesDirty());
      BuildingParts(bs, blocks, k, base, size, h, {h});
      RestIs(size, moved, |blocks|, haveRegion);
      self, page := None, None;
      ghost var hs := {h};
      if moved {
        self := Chosen(h);
        h := CarveOff(h, DescriptorPages(|blocks|, HEAP_BLOCK_BYTES), bs, k, base, size, hs);
        hs := hs + {h};
        BuildingParts(bs, blocks, k, base, size, h, hs);
      }
      OneIs(self);
      assert hs == {h} + One(self);
      if !haveRegion {
        page := Chosen(h);
        h := CarveOff(h, 1, bs, k, base, size, hs);
        hs := hs + {h};
        BuildingParts(bs, blocks, k, base, size, h, hs);
      }
      OneIs(page);
      assert hs == {h} + One(self) + One(page);
    }

    /** File what is left of new memory; it holds zeros, unless new pages are dirty. */
    method FileFresh(h: nat)
      requires HeapOk(blocks, freelists) && h < |blocks| && InHand(blocks, h)
      requires blocks[h].committed && blocks[h].dirty == NewPagesDirty()
      modifies this`blocks, this`freelists, this`zeroed
      ensures HeapOk(blocks, freelists)
      ensures UsersKept(old(blocks), blocks, {h}) && Hands(blocks) == Hands(old(blocks)) - {h}
      ensures Pages(Used, blocks) == Pages(Used, old(blocks)) - old(blocks)[h].size
      ensures Pages(Decommitted, blocks) == Pages(Decommitted, old(blocks))
      ensures Pages(All, blocks) == Pages(All, old(blocks))
      ensures Serves(blocks, old(blocks)[h].size) && forall k: nat :: Serves(old(blocks), k) ==> Serves(blocks, k)
      ensures old(ZeroOk(blocks, Z())) ==> ZeroOk(blocks, Z())
    {
      hide *;
      FreshReady(blocks, freelists, h, zeroed, NewPagesDirty());
      ZIs();
      zeroed := if NewPagesDirty() then zeroed else zeroed + Cells(blocks, h);
      ZIs();
      AddToFreeList(h, false);
    }

    /**
     Link the new memory into the heap: what is not needed for descriptors and region
     records is free, and so is the block in which the descriptors were, if they moved.
     */
    method AddMemory(size: nat, m: Memory, self: Choice, moved: bool) returns (b: Choice, page: Choice, ghost rest: nat)
      requires HeapOk(blocks, freelists) && UsersCommitted(blocks) && (self.Chosen? ==> InHand(blocks, self.block))
      requires m.Memory? && m.base > 0 && size > 0 && (m.contiguous ==> |blocks| > 0 && Adjoins(blocks, m.base))
      requires Rest(size, moved, Kept(blocks, m.contiguous) + size + 1, nextRegions > 0, HEAP_BLOCK_BYTES) > 0
      requires !moved ==>
        self.Chosen? && DescriptorPages(Kept(blocks, m.contiguous) + size + 1, HEAP_BLOCK_BYTES) <= blocks[self.block].size
      modifies this`blocks, this`freelists, this`numAlloc, this`zeroed
      ensures HeapOk(blocks, freelists)
      ensures Enlarged(old(blocks), blocks, Kept(old(blocks), m.contiguous), m.base, size, if moved then One(self) else {}, b, moved, page)
      ensures !moved ==> b == self
      ensures page.Chosen? <==> nextRegions == 0
      ensures rest == Rest(size, moved, Kept(old(blocks), m.contiguous) + size + 1, nextRegions > 0, HEAP_BLOCK_BYTES)
      ensures Serves(blocks, rest)
      ensures numAlloc - Pages(Used, blocks) == old(numAlloc) - Pages(Used, old(blocks))
      ensures old(ZeroKnown()) ==> ZeroKnown()
    {
      hide *;
      StateIs(0);
      ghost var bs, k := blocks, Kept(blocks, m.contiguous);
      BelowZero(blocks, freelists, Z());
      ZIs();
      zeroed := Below(zeroed, |blocks|);
      ZIs();
      var self', h;
      self', page, h := SetUpBlocks(m.base, size, m.contiguous, moved, nextRegions > 0);
      ghost var bs1 := blocks;
      BuildingParts(bs, bs1, k, m.base, size, h, {h} + One(self') + One(page));
      rest := blocks[h].size;
      b := if moved then self' else self;
      CommittedHand(blocks, h);
      FileFresh(h);
      ghost var bs2 := blocks;
      EnlargedFiled(bs, bs1, bs2, k, m.base, size, h, self, self', page, moved);
      OneIs(self);
      if moved && self.Chosen? {
        EnlargedCommitted(bs, bs2, k, m.base, size, b, page);
        numAlloc := numAlloc - blocks[self.block].size;
        FreeBlock(self.block);
        EnlargedFreed(bs, bs2, blocks, k, m.base, size, self.block, b, page);
      }
      StateIs(0);
    }

    /** How much to expand by, where the descriptors are, and whether they do not fit there any more. */
    method PlanExpansion(askSize: nat) returns (size: nat, self: Choice, looped: bool, curHeapBlocksSize: nat)
      requires Sound() && (askSize > 0 || |blocks| == 0 == initialSize)
      ensures self.Chosen? <==> |blocks| > 0
      ensures self.Chosen? ==>
        self.block < |blocks| && InHand(blocks, self.block) && blocks[self.block].page == descriptors > 0
      ensures self.Chosen? ==> curHeapBlocksSize == blocks[self.block].size
      ensures forall i: nat :: InHand(blocks, i) && blocks[i].page == descriptors ==> self == Chosen(i)
      ensures Sized(askSize, |blocks|, size, |blocks| != 0 || initialSize == 0, looped, self.None?, nextRegions > 0, curHeapBlocksSize)
      ensures MIN_HEAP_INCREMENT > 0 && RoundUp(askSize, MIN_HEAP_INCREMENT) <= size
    {
      hide *;
      Constants();
      SoundIs();
      self, curHeapBlocksSize := None, 0;
      HandsAreHeads(blocks);
      if descriptors != 0 {
        ghost var i := DescriptorsAt(blocks, descriptors);
        self := BaseAddrToBlock(descriptors);
        curHeapBlocksSize := blocks[self.block].size;
      }
      size, looped := RoundUp(askSize, MIN_HEAP_INCREMENT), false;
      if |blocks| != 0 || initialSize == 0 {
        size, looped := SizeExpansion(askSize, |blocks|, curHeapBlocksSize, nextRegions > 0, HEAP_BLOCK_BYTES);
      }
      SizedIs(askSize, |blocks|, size, |blocks| != 0 || initialSize == 0, looped, self.None?, nextRegions > 0,
              curHeapBlocksSize);
    }

    /** Put down where the descriptors and the region records are, and which regions the new pages belong to. */
    method RegisterMemory(size: nat, m: Memory, moved: bool, page: Choice)
      requires m.Memory? && m.avail <= size && (m.avail > 0 ==> |regions| > 0) && (m.reserve == 0 ==> m.avail == size)
      requires size < |blocks| && (nextRegions == 0 ==> page.Chosen? && page.block < |blocks|)
      modifies this`regions, this`descriptors, this`nextRegions, this`freeRegions, this`records
      ensures regions == WithMemory(old(regions), size, m, |blocks| - size - 1)
      ensures descriptors == if moved then m.base else old(descriptors)
      ensures records == old(records) + if old(nextRegions) == 0 then {blocks[page.block].page} else {}
      ensures old(freeRegions) == 0 ==> freeRegions == 0
      ensures old(nextRegions) == 0 ==> nextRegions > 0
    {
      hide *;
      RecordsPerPage();
      HaveIs();
      WithMemoryIs(regions, size, m, |blocks| - size - 1);
      descriptors := if moved then m.base else descriptors;
      if nextRegions == 0 {
        nextRegions := REGIONS_PER_PAGE;
        records := records + {blocks[page.block].page};
      }
      if m.avail > 0 {
        regions := regions[0 := regions[0].(commitTop := regions[0].commitTop + m.avail)];
      }
      HaveIs();
      if m.reserve > 0 {
        NewRegion(Region(m.base + m.avail, m.base + size, m.base + m.avail + m.reserve, |blocks| - (size - m.avail) - 1, false));
      }
    }

    /**
     The second half of ExpandHeapInternal: the memory `m` becomes part of the heap, and `rest` pages
     of it are free.
     */
    method GotMemory(size: nat, m: Memory, self: Choice, moved: bool) returns (ghost rest: nat)
      requires Sound() && Accounts(0) && m.Memory? && Granted(blocks, regions, size, m) && size > 0
      requires !useVirtualMemory ==> m.avail == 0 && m.reserve == size
      requires self.Chosen? ==>
        self.block < |blocks| && InHand(blocks, self.block) && blocks[self.block].page == descriptors > 0
      requires forall i: nat :: InHand(blocks, i) && blocks[i].page == descriptors ==> self == Chosen(i)
      requires m.contiguous ==> |blocks| > 0
      requires Rest(size, moved, Kept(blocks, m.contiguous) + size + 1, nextRegions > 0, HEAP_BLOCK_BYTES) > 0
      requires !moved ==>
        self.Chosen? && DescriptorPages(Kept(blocks, m.contiguous) + size + 1, HEAP_BLOCK_BYTES) <= blocks[self.block].size
      modifies this
      ensures HeapOk(blocks, freelists) && RegionsLead(blocks, regions) && |blocks| > 0
      ensures Sound() <==> !TakesTail(old(regions), m)
      ensures NoTails(old(regions)) ==> Sound() && NoTails(regions)
      ensures Sound() ==> Accounts(0) && InUse() == old(InUse())
      ensures rest == Rest(size, moved, Kept(old(blocks), m.contiguous) + size + 1, old(nextRegions) > 0, HEAP_BLOCK_BYTES)
      ensures Serves(blocks, rest)
      ensures forall k: nat :: Serves(old(blocks), k) ==> Serves(blocks, k)
      ensures old(freeRegions) == 0 ==> freeRegions == 0
      ensures old(nextRegions) == 0 ==> nextRegions > 0
      ensures Pages(All, blocks) == Pages(All, old(blocks)) + size
      ensures uncounted == old(uncounted) && largeAllocs == old(largeAllocs) && larges == old(larges)
      ensures old(ZeroKnown()) ==> ZeroKnown()
    {
      hide *;
      StateIs(0);
      SoundIs();
      ghost var bs, fl, rs := blocks, freelists, regions;
      GrantedParts(bs, rs, size, m);
      KeptAtMost(bs, m.contiguous);
      AccountsParts(blocks, regions, numAlloc, numDecommitted, largeAllocs, uncounted, 0, sloppyCommit);
      var b, page;
      b, page, rest := AddMemory(size, m, self, moved);
      ghost var s: set<nat> := if moved then One(self) else {};
      EnlargedParts(bs, blocks, Kept(bs, m.contiguous), m.base, size, s, b, moved, page);
      OneIs(self);
      ExpandedSound(bs, fl, rs, descriptors, records, larges, useVirtualMemory, size, m,
                    blocks, freelists, if moved then m.base else descriptors, s, b, moved, page);
      StateIs(0);
      RegisterMemory(size, m, moved, page);
      StateIs(0);
      AccountsParts(blocks, regions, numAlloc, numDecommitted, largeAllocs, uncounted, 0, sloppyCommit);
    }

    /**
     ExpandHeapInternal.  `e` tells what came of it: the memory that was granted, the
     pages left for the request, whether the sizing loop was consulted and whether the
     descriptors moved.
     */
    method ExpandHeapInternal(askSize: nat) returns (ok: bool, tail: bool, ghost e: Expansion)
      requires Sound() && Accounts(0) && (askSize > 0 || |blocks| == 0 == initialSize)
      modifies this
      ensures !ok ==> unchanged(this) && e == Refused
      ensures ok ==>
        e.Expansion? && Enlarges(e, old(blocks), old(regions)) && RoundUp(askSize, MIN_HEAP_INCREMENT) <= e.size
      ensures HeapOk(blocks, freelists) && RegionsLead(blocks, regions)
      // every page of the heap is found by its address, if and only if none is taken from a large allocation's region
      ensures Sound() <==> !tail
      ensures tail <==> ok && TakesTail(old(regions), e.m)
      ensures NoTails(old(regions)) ==> !tail && NoTails(regions)
      ensures Sound() ==> Accounts(0) && InUse() == old(InUse())
      ensures ok ==> e.settled == (|old(blocks)| != 0 || initialSize == 0)
      ensures ok && e.settled ==>
        (e.rest >= askSize <==> e.moved || old(nextRegions) > 0 || askSize % MIN_HEAP_INCREMENT != 0)
      ensures ok ==> Serves(blocks, e.rest)
      ensures forall k: nat :: Serves(old(blocks), k) ==> Serves(blocks, k)
      ensures old(freeRegions) == 0 ==> freeRegions == 0
      ensures ok && old(freeRegions == 0 == nextRegions) ==> nextRegions > 0
      ensures ok ==> |blocks| > 0
      ensures Pages(All, blocks) == Pages(All, old(blocks)) + if ok then e.size else 0
      ensures uncounted == old(uncounted) && largeAllocs == old(largeAllocs) && larges == old(larges)
      ensures old(ZeroKnown()) ==> ZeroKnown()
    {
      hide *;
      StateIs(0);
      SoundIs();
      ghost var bs := blocks;
      tail, e := false, NotExpanded;
      var size, self, looped, curHeapBlocksSize := PlanExpansion(askSize);
      var moved := looped || self.None?;
      ghost var settled := |blocks| != 0 || initialSize == 0;
      SizingFits(askSize, |bs|, |bs| + size + 1, size, settled, looped, self.None?, nextRegions > 0, curHeapBlocksSize);
      var m;
      ghost var refused;
      ghost var asked;
      m, refused, asked := GetMemory(size);
      if m.NoMemory? {
        e := if refused then Refused else NotExpanded;
        return false, tail, e;
      }
      GrantedParts(bs, regions, size, m);
      ghost var newLen := Kept(bs, m.contiguous) + size + 1;
      KeptAtMost(bs, m.contiguous);
      SizingFits(askSize, |bs|, newLen, size, settled, looped, self.None?, nextRegions > 0, curHeapBlocksSize);
      tail := TakesTail(regions, m);
      ghost var rest;
      rest := GotMemory(size, m, self, moved);
      ok, e := true, Expansion(size, m, rest, settled, moved);
      EnlargesIs(e, bs, old(regions));
      StateIs(0);
    }

    // ----- allocation and release -----

    /** FreeBlock: a block that was in use may hold anything. */
    method FreeBlock(h: nat)
      requires HeapOk(blocks, freelists) && UsersCommitted(blocks) && InHand(blocks, h)
      modifies this`blocks, this`freelists
      ensures HeapOk(blocks, freelists) && UsersCommitted(blocks)
      ensures UsersKept(old(blocks), blocks, {h}) && Hands(blocks) == Hands(old(blocks)) - {h}
      ensures Pages(Used, blocks) == Pages(Used, old(blocks)) - old(blocks)[h].size
      ensures Pages(All, blocks) == Pages(All, old(blocks))
      ensures Pages(Decommitted, blocks) == Pages(Decommitted, old(blocks))
      ensures ZeroOk(old(blocks), Z()) ==> ZeroOk(blocks, Z())
      ensures forall k: nat :: Serves(old(blocks), k) ==> Serves(blocks, k)
    {
      hide *;
      ghost var bs := blocks;
      CommittedHand(blocks, h);
      NothingDropped(blocks, h, true);
      AddToFreeList(h, true);
      UsersStayCommitted(bs, blocks, {h}) by { HandGone(bs, blocks, h); }
    }

    /**
     EnsureFreeRegion.  A page for region records is taken behind the back of the
     account: from then on numAlloc is one page short.
     */
    method EnsureFreeRegion(allowExpansion: bool) returns (ok: bool, tail: bool, ghost taken: bool, ghost e: Expansion)
      requires Sound() && Accounts(0)
      modifies this
      ensures HeapOk(blocks, freelists) && (!tail ==> Sound() && Accounts(0) && InUse() == old(InUse()))
      ensures e.Expansion? ==> Enlarges(e, old(blocks), old(regions))
      ensures tail <==> e.Expansion? && TakesTail(old(regions), e.m)
      ensures NoTails(old(regions)) ==> !tail && NoTails(regions)
      ensures taken <==>
        old(!HaveFreeRegion()) && AtHand(old(blocks), old(freelists), 1, 1, useVirtualMemory)
      ensures uncounted == old(uncounted) + if taken then 1 else 0
      ensures ok && allowExpansion ==> HaveFreeRegion()
      ensures !ok ==> allowExpansion && !HaveFreeRegion()
      ensures !ok <==> e == Refused
      ensures old(HaveFreeRegion()) ==> unchanged(this)
      ensures larges == old(larges) && largeAllocs == old(largeAllocs)
      ensures old(ZeroKnown()) ==> ZeroKnown()
    {
      hide *;
      ok, tail, taken, e := true, false, false, NotExpanded;
      RecordsPerPage();
      StateIs(0);
      SoundIs();
      HaveIs();
      if freeRegions == 0 && nextRegions == 0 {
        ghost var bs, fl := blocks, freelists;
        SoundParts(blocks, freelists, regions, descriptors, records, larges, useVirtualMemory);
        var zero;
        ghost var h;
        var b;
        b, zero, h := AllocBlock(1, false, 1);
        AtHandIs(bs, fl, 1, 1, useVirtualMemory);
        if b.Chosen? {
          AllocatedSound(bs, fl, blocks, freelists, regions, descriptors, records, larges, useVirtualMemory, h,
                         b.block, 1, 1);
          ghost var page := blocks[b.block].page;
          RecordsSound(blocks, freelists, regions, descriptors, records, larges, useVirtualMemory, page);
          SameClients(bs, descriptors, records, larges, blocks, descriptors, {page});
          AccountsParts(bs, regions, numAlloc, old(numDecommitted), largeAllocs, uncounted, 0, sloppyCommit);
          nextRegions, taken, uncounted := REGIONS_PER_PAGE, true, uncounted + 1;
          AccountsParts(blocks, regions, numAlloc, numDecommitted, largeAllocs, uncounted, 0, sloppyCommit);
          records := records + {page};
          WroteZero(blocks, freelists, b.block, Z());
          ZIs();
          zeroed := zeroed - Cells(blocks, b.block);
        } else if allowExpansion {
          var expanded;
          expanded, tail, e := ExpandHeapInternal(1);
          if nextRegions == 0 {
            ok := false;
          }
        }
      }
      ZIs();
      StateIs(0);
      HaveIs();
    }

    /** LargeAlloc: a region of its own, reserved again with room to spare if the first one is not aligned. */
    method LargeAlloc(size: nat, alignment: nat)
      returns (page: nat, tail: bool, ghost e: Expansion, ghost refused: bool)
      requires Sound() && Accounts(0) && useVirtualMemory && size > 0 && alignment > 0
      modifies this
      ensures e.Expansion? ==> Enlarges(e, old(blocks), old(regions))
      ensures tail <==> e.Expansion? && TakesTail(old(regions), e.m)
      ensures !tail ==> Sound() && Accounts(if page == 0 then 0 else size)
      ensures !tail ==> InUse() == old(InUse()) + (if page == 0 then {} else {(page, size)})
      ensures !tail && page > 0 ==> (page, size) in larges && forall u :: u in old(InUse()) ==> u.0 != page
      ensures page % alignment == 0
      // it fails exactly if the system has refused something
      ensures page == 0 <==> refused || e == Refused
      // what the alignment leaves over at the end is there for the next expansion to take
      ensures page > 0 ==> |regions| > 0 && regions[0].large
      ensures NoTails(old(regions)) ==>
        !tail && (NoTails(regions) <==> page == 0 || regions[0].commitTop == regions[0].reserveTop)
      ensures NoTails(old(regions)) && alignment == 1 ==> NoTails(regions)
      ensures old(ZeroKnown()) ==> ZeroKnown()
    {
      hide *;
      page, refused := 0, false;
      var ok;
      ghost var taken;
      ok, tail, taken, e := EnsureFreeRegion(true);
      if !ok {
        return;
      }
      var addr;
      ghost var asked;
      addr, asked := Reserve(size, {});
      refused := addr == 0;
      if addr == 0 {
        return;
      }
      var unalignedSize := size;
      if AlignmentSlop(addr, alignment) != 0 {
        unalignedSize := size + alignment - 1;
        addr, asked := Reserve(unalignedSize, asked);
        refused := addr == 0;
        if addr == 0 {
          return;
        }
      }
      var alignedAddr := addr + AlignmentSlop(addr, alignment);
      var committed: bool := *;
      refused := !committed;
      if !committed {
        return;
      }
      StateIs(0);
      var region := Region(addr, alignedAddr + size, addr + unalignedSize, 0, true);
      LargeNoTails(regions, region);
      if !tail {
        LargeReady(blocks, freelists, regions, descriptors, records, larges, region, alignedAddr, size);
        AccountsParts(blocks, regions, numAlloc, numDecommitted, largeAllocs, uncounted, 0, sloppyCommit);
      }
      NewRegion(region);
      largeAllocs := largeAllocs + size;
      larges := larges + {(alignedAddr, size)};
      AccountsParts(blocks, regions, numAlloc, numDecommitted, largeAllocs, uncounted, size, sloppyCommit);
      StateIs(size);
      page := alignedAddr;
    }

    /** A block from the memory at hand; its pages are due to be counted. */
    method AllocPages(size: nat, zero: bool, alignment: nat) returns (b: Choice, zero': bool, ghost h: nat)
      requires HeapOk(blocks, freelists) && size > 0 && alignment > 0
      modifies this`blocks, this`freelists, this`numDecommitted, this`zeroed
      ensures HeapOk(blocks, freelists)
      ensures old(Sound() && Accounts(0)) ==> Sound() && Accounts(if b.None? then 0 else size)
      ensures b.Chosen? <==> AtHand(old(blocks), old(freelists), size, alignment, useVirtualMemory)
      ensures b.None? ==> blocks == old(blocks) && InUse() == old(InUse()) && zero' == zero
      ensures b.Chosen? ==> b.block < |blocks| && InHand(blocks, b.block) && blocks[b.block].page > 0
      ensures b.Chosen? ==> blocks[b.block].page % alignment == 0 && blocks[b.block].size == size
      ensures b.Chosen? && old(Sound() && Accounts(0)) ==>
        && InUse() == old(InUse()) + {(blocks[b.block].page, size)}
        && forall u :: u in old(InUse()) ==> u.0 != blocks[b.block].page
      ensures b.Chosen? ==> Allocated(old(blocks), blocks, h, b.block, size, alignment)
      ensures b.Chosen? ==> ChosenFrom(old(blocks), h, size, alignment, useVirtualMemory)
      ensures b.Chosen? && alignment == 1 && !OnlyRuns(old(blocks), size, 1) ==> BestFit(old(blocks), h, size)
      ensures b.Chosen? && zero' ==> zero
      ensures b.Chosen? && zero && !zero' && old(ZeroKnown()) ==> CellsZero(blocks, b.block, Z())
      ensures old(ZeroKnown()) ==> ZeroKnown()
    {
      hide *;
      StateIs(0);
      ghost var bs, fl, sound := blocks, freelists, Sound() && Accounts(0);
      if sound { AccountsParts(blocks, regions, numAlloc, numDecommitted, largeAllocs, uncounted, 0, sloppyCommit); }
      b, zero', h := AllocBlock(size, zero, alignment);
      AtHandIs(bs, fl, size, alignment, useVirtualMemory);
      if b.Chosen? {
        AllocatedBlock(bs, blocks, freelists, h, b.block, size, alignment, Z());
      }
      if b.Chosen? && sound {
        AllocatedSound(bs, fl, blocks, freelists, regions, descriptors, records, larges, useVirtualMemory, h, b.block,
                       size, alignment);
        OneMoreClient(bs, descriptors, records, larges, blocks, (blocks[b.block].page, size));
        ClientsApart(bs, descriptors, records, larges, blocks[b.block].page);
        AccountsParts(blocks, regions, numAlloc, numDecommitted, largeAllocs, uncounted, size, sloppyCommit);
      }
      StateIs(if b.None? then 0 else size);
    }

    /**
     AllocHelper: from the memory at hand if it will do, otherwise a region of its own
     for a large request, and an expansion and another try for any other.  `mid` is the
     heap from which block `b` was cut, and `h` the block that it was cut from.
     */
    method AllocHelper(size: nat, expand: bool, zero: bool, alignment: nat)
      returns (page: nat, zero': bool, b: Choice, tail: bool, ghost mid: seq<HeapBlock>, ghost h: nat,
               ghost e: Expansion, ghost refused: bool)
      requires Sound() && Accounts(0) && size > 0 && alignment > 0
      modifies this
      // the heap stays sound unless an expansion takes pages that a large allocation has left over
      ensures e.Expansion? ==> expand && Enlarges(e, old(blocks), old(regions))
      ensures tail <==> e.Expansion? && TakesTail(old(regions), e.m)
      ensures !tail ==> Sound() && Accounts(if page == 0 then 0 else size)
      ensures !tail ==> InUse() == old(InUse()) + if page == 0 then {} else {(page, size)}
      ensures !tail && page > 0 ==> forall u :: u in old(InUse()) ==> u.0 != page
      ensures NoTails(old(regions)) ==> !tail
      ensures NoTails(old(regions)) && (useVirtualMemory && expand && size >= OS_ALLOC_THRESHOLD ==> alignment == 1) ==>
        NoTails(regions)
      ensures page % alignment == 0 && (b.None? ==> zero' == zero)
      ensures (!tail && page > 0 && b.None? ==> (page, size) in larges)
      // large allocations get a region of their own, if there is virtual memory, and no others do
      ensures b.None? && page > 0 ==> expand && size >= OS_ALLOC_THRESHOLD && useVirtualMemory
      ensures b.Chosen? && expand && size >= OS_ALLOC_THRESHOLD && useVirtualMemory ==>
        AtHand(old(blocks), old(freelists), size, alignment, true)
      // from the heap's own blocks
      ensures b.Chosen? ==>
        b.block < |blocks| && InHand(blocks, b.block) && page == blocks[b.block].page > 0 && blocks[b.block].size == size
      ensures b.Chosen? ==>
        Allocated(mid, blocks, h, b.block, size, alignment) && ChosenFrom(mid, h, size, alignment, useVirtualMemory)
      ensures b.Chosen? && alignment == 1 && !OnlyRuns(mid, size, 1) ==> BestFit(mid, h, size)
      ensures b.Chosen? && zero' ==> zero
      ensures b.Chosen? && zero && !zero' && old(ZeroKnown()) ==> CellsZero(blocks, b.block, Z())
      // without growing, whenever that is possible
      ensures AtHand(old(blocks), old(freelists), size, alignment, useVirtualMemory) ==>
        b.Chosen? && mid == old(blocks) && e == NotExpanded && regions == old(regions)
      ensures !expand && !AtHand(old(blocks), old(freelists), size, alignment, useVirtualMemory) ==>
        page == 0 && blocks == old(blocks)
      // it fails only if it must not grow, if the system has refused something, or if growing was not enough
      ensures page == 0 && expand ==> refused || e == Refused || e.Expansion?
      ensures !expand ==> regions == old(regions) && largeAllocs == old(largeAllocs)
      ensures !expand ==> uncounted == old(uncounted) && numAlloc == old(numAlloc)
      // an expansion is followed by success, unless a page for region records was carved out of a request that needed
      // no rounding up
      ensures e.Expansion? && (size < OS_ALLOC_THRESHOLD || !useVirtualMemory) && alignment == 1 && e.rest >= size ==>
        b.Chosen?
      ensures e.Expansion? && (size < OS_ALLOC_THRESHOLD || !useVirtualMemory) && alignment == 1 && e.settled ==>
        (e.moved || old(nextRegions) > 0 || size % MIN_HEAP_INCREMENT != 0 ==> b.Chosen?)
      ensures old(ZeroKnown()) ==> ZeroKnown()
    {
      hide *;
      StateIs(0);
      SoundIs();
      page, tail, e, mid, refused := 0, false, NotExpanded, blocks, false;
      b, zero', h := AllocPages(size, zero, alignment);
      if b.None? && expand {
        StateIs(0);
        if size >= OS_ALLOC_THRESHOLD && useVirtualMemory {
          page, tail, e, refused := LargeAlloc(size, alignment);
          StateIs(0);
          return;
        }
        var ok;
        ok, tail, e := ExpandHeapInternal(size);
        StateIs(0);
        mid := blocks;
        if e.Expansion? && e.rest >= size && alignment == 1 {
          ServesLess(blocks, e.rest, size);
          ServesSuffices(blocks, size);
          AtHandIs(blocks, freelists, size, 1, useVirtualMemory);
        }
        b, zero', h := AllocPages(size, zero', alignment);
      }
      if b.Chosen? {
        page := blocks[b.block].page;
      }
      StateIs(if page == 0 then 0 else size);
    }

    /** Alloc: the pages are counted, and cleared if zeros were asked for and they may hold something else. */
    method Alloc(size: nat, kExpand: bool, kZero: bool, alignment: nat)
      returns (page: nat, b: Choice, tail: bool, ghost mid: seq<HeapBlock>, ghost h: nat, ghost e: Expansion)
      requires Sound() && Accounts(0) && size > 0 && alignment > 0
      modifies this
      ensures e.Expansion? ==> kExpand && Enlarges(e, old(blocks), old(regions))
      ensures tail <==> e.Expansion? && TakesTail(old(regions), e.m)
      ensures !tail ==> Sound() && Accounts(0)
      ensures !tail ==> InUse() == old(InUse()) + if page == 0 then {} else {(page, size)}
      ensures !tail && page > 0 ==> forall u :: u in old(InUse()) ==> u.0 != page
      ensures NoTails(old(regions)) ==> !tail
      ensures NoTails(old(regions)) && (useVirtualMemory && kExpand && size >= OS_ALLOC_THRESHOLD ==> alignment == 1) ==>
        NoTails(regions)
      ensures page % alignment == 0
      ensures AtHand(old(blocks), old(freelists), size, alignment, useVirtualMemory) ==> b.Chosen? && mid == old(blocks)
      ensures !kExpand && !AtHand(old(blocks), old(freelists), size, alignment, useVirtualMemory) ==> page == 0
      ensures b.Chosen? ==>
        b.block < |blocks| && InHand(blocks, b.block) && page == blocks[b.block].page > 0 && blocks[b.block].size == size
      ensures b.Chosen? ==>
        Allocated(mid, blocks, h, b.block, size, alignment) && ChosenFrom(mid, h, size, alignment, useVirtualMemory)
      ensures b.Chosen? && alignment == 1 && !OnlyRuns(mid, size, 1) ==> BestFit(mid, h, size)
      ensures old(ZeroKnown()) && b.Chosen? && kZero ==> CellsZero(blocks, b.block, zeroed)
      ensures b.None? && page > 0 ==> kExpand && size >= OS_ALLOC_THRESHOLD && useVirtualMemory
      ensures b.Chosen? && kExpand && size >= OS_ALLOC_THRESHOLD && useVirtualMemory ==>
        AtHand(old(blocks), old(freelists), size, alignment, true)
      ensures !tail && page > 0 && b.None? ==> (page, size) in larges && ((page, size) in blank <==> kZero)
      ensures !kExpand ==> numAlloc == old(numAlloc) + if page == 0 then 0 else size
      ensures !kExpand ==> regions == old(regions)
      ensures old(ZeroKnown()) ==> ZeroKnown()
    {
      hide *;
      var zero;
      ghost var refused;
      page, zero, b, tail, mid, h, e, refused := AllocHelper(size, kExpand, kZero, alignment);
      if page == 0 {
        return;
      }
      StateIs(size);
      if !tail { AccountsParts(blocks, regions, numAlloc, numDecommitted, largeAllocs, uncounted, size, sloppyCommit); }
      numAlloc := numAlloc + size;
      if !tail { AccountsParts(blocks, regions, numAlloc, numDecommitted, largeAllocs, uncounted, 0, sloppyCommit); }
      ZIs();
      if zero && b.Chosen? {
        ClearedZero(blocks, b.block, zeroed);
        zeroed := zeroed + Cells(blocks, b.block);
      } else if b.Chosen? {
        ZeroGrowsTo(blocks, b.block, Z(), zeroed);
      } else {
        blank := if zero then blank + {(page, size)} else blank - {(page, size)};
      }
      ZIs();
      StateIs(0);
    }

    /** LargeAllocSize: a large allocation reaches to the end of what is committed of its region. */
    method LargeAllocSize(page: nat, ghost size: nat) returns (s: nat)
      requires Sound() && (page, size) in larges
      ensures s == size
    {
      hide *;
      SoundIs();
      SoundParts(blocks, freelists, regions, descriptors, records, larges, useVirtualMemory);
      LargeHasRegion(blocks, regions, larges, (page, size));
      var r := AddrToRegion(page);
      LargeFound(blocks, regions, larges, (page, size), r.block);
      LargeInIs(regions[r.block], (page, size));
      s := regions[r.block].commitTop - page;
    }

    /** LargeFree: the region goes back to the system, and its record to the heap. */
    method LargeFree(page: nat, ghost size: nat)
      requires Sound() && Accounts(size) && useVirtualMemory && (page, size) in larges && page !in records
      modifies this`regions, this`freeRegions, this`largeAllocs, this`larges, this`blank
      ensures Sound() && Accounts(0) && InUse() == old(InUse()) - {(page, size)}
      ensures NoTails(old(regions)) ==> NoTails(regions)
      ensures freeRegions == old(freeRegions) + 1
    {
      hide *;
      StateIs(size);
      SoundIs();
      SoundParts(blocks, freelists, regions, descriptors, records, larges, useVirtualMemory);
      LargeHasRegion(blocks, regions, larges, (page, size));
      var s := LargeAllocSize(page, size);
      largeAllocs := largeAllocs - s;
      var r := AddrToRegion(page);
      LargeFound(blocks, regions, larges, (page, size), r.block);
      LargeClientLess(blocks, regions, descriptors, records, larges, (page, size));
      LargeRemovedSound(blocks, freelists, regions, descriptors, records, larges, r.block, (page, size));
      AccountsParts(blocks, regions, numAlloc, numDecommitted, old(largeAllocs), uncounted, size, sloppyCommit);
      regions := regions[..r.block] + regions[r.block + 1..];
      freeRegions := freeRegions + 1;
      larges, blank := larges - {(page, size)}, blank - {(page, size)};
      AccountsParts(blocks, regions, numAlloc, numDecommitted, largeAllocs, uncounted, 0, sloppyCommit);
      StateIs(0);
    }

    /** FreeInternal: whoever holds an allocation gives it back by its address alone. */
    method FreeInternal(page: nat, ghost size: nat)
      requires Sound() && Accounts(0) && (page, size) in InUse()
      modifies this
      ensures Sound() && Accounts(0) && InUse() == old(InUse()) - {(page, size)}
      ensures NoTails(old(regions)) ==> NoTails(regions)
      ensures numAlloc == old(numAlloc) - size
      ensures old(ZeroKnown()) ==> ZeroKnown()
    {
      hide *;
      StateIs(0);
      SoundIs();
      SoundParts(blocks, freelists, regions, descriptors, records, larges, useVirtualMemory);
      ghost var bs, fl := blocks, freelists;
      AccountsParts(blocks, regions, numAlloc, numDecommitted, largeAllocs, uncounted, 0, sloppyCommit);
      ghost var x := ClientOf(blocks, freelists, regions, descriptors, records, larges, useVirtualMemory, (page, size));
      HandsAreHeads(blocks);
      var block := BaseAddrToBlock(page);
      if block.None? {
        LargeClient(blocks, regions, larges, (page, size), x);
        var s := LargeAllocSize(page, size);
        numAlloc := numAlloc - s;
        AccountsParts(blocks, regions, numAlloc, numDecommitted, largeAllocs, uncounted, size, sloppyCommit);
        StateIs(size);
        LargeFree(page, size);
      } else {
        BlockClient(blocks, regions, larges, (page, size), x, block.block, page);
        numAlloc := numAlloc - blocks[block.block].size;
        FreeBlock(block.block);
        FreedSound(bs, fl, blocks, freelists, regions, descriptors, records, larges, useVirtualMemory, block.block);
        OneClientLess(bs, descriptors, records, larges, blocks, (page, size));
        AccountsParts(blocks, regions, numAlloc, numDecommitted, largeAllocs, uncounted, 0, sloppyCommit);
      }
      StateIs(0);
    }

    /** The holder of an allocation writes to it: nothing is known of its pages any more. */
    ghost method Write(page: nat, size: nat)
      requires Sound() && Accounts(0) && (page, size) in InUse()
      modifies this`zeroed, this`blank
      ensures Sound() && Accounts(0) && InUse() == old(InUse()) && zeroed <= old(zeroed)
      ensures blank == old(blank) - {(page, size)}
      ensures forall i: nat :: i < |blocks| && InHand(blocks, i) && blocks[i].page == page ==>
        zeroed == old(zeroed) - Cells(blocks, i)
      ensures old(ZeroKnown()) ==> ZeroKnown()
    {
      hide *;
      StateIs(0);
      SoundIs();
      HandsAreHeads(blocks);
      blank := blank - {(page, size)};
      var x := ClientOf(blocks, freelists, regions, descriptors, records, larges, useVirtualMemory, (page, size));
      if x.Chosen? {
        OnlyBlock(blocks, regions, x.block);
        WroteZero(blocks, freelists, x.block, Z());
        ZIs();
        zeroed := zeroed - Cells(blocks, x.block);
        ZIs();
      } else {
        SoundParts(blocks, freelists, regions, descriptors, records, larges, useVirtualMemory);
        NoBlockAt(blocks, regions, larges, (page, size));
      }
      StateIs(0);
    }

    /** Free undoes Alloc: everybody holds what was held before, and no page stays counted. */
    method AllocThenFree(size: nat, kExpand: bool, kZero: bool, alignment: nat)
      returns (page: nat, ghost between: set<(nat, nat)>)
      requires Valid() && Accounts(0) && size > 0 && alignment > 0
      modifies this
      // in between, the pages were held, by nobody else, if there were any to be had
      ensures AtHand(old(blocks), old(freelists), size, alignment, useVirtualMemory) ==> page > 0
      ensures between == old(InUse()) + if page == 0 then {} else {(page, size)}
      ensures page % alignment == 0 && (page > 0 ==> forall u :: u in old(InUse()) ==> u.0 != page)
      ensures Sound() && Accounts(0) && InUse() == old(InUse())
      ensures !kExpand ==> numAlloc == old(numAlloc)
      ensures old(ZeroKnown()) ==> ZeroKnown()
    {
      hide *;
      StateIs(0);
      var b, tail;
      ghost var mid, h, e;
      page, b, tail, mid, h, e := Alloc(size, kExpand, kZero, alignment);
      between := InUse();
      if page > 0 {
        FreeInternal(page, size);
        assert old(InUse()) + {(page, size)} - {(page, size)} == old(InUse()) by {
          assert (page, size) !in old(InUse());
        }
      }
    }

    // ----- giving a region back -----

    /** The links of the free lists, for descriptors that move down from behind block `h`. */
    method SlideLists(h: nat, blockSize: nat, senOffset: int)
      requires Removable(blocks, h) && AllOutside(blocks, h, freelists)
      requires blockSize - senOffset == Src(blocks, h) - Dst(blocks, h)
      modifies this`freelists
      ensures AllMoved(blocks, h, old(freelists), freelists)
    {
      assert IsHead(blocks, h) && NextOf(blocks, h) < |blocks|;
      hide Removable, Compacted;
      ghost var fl := freelists;
      var l := 0;
      while l < |freelists|
        invariant l <= |freelists| == |fl|
        invariant forall k :: 0 <= k < l ==> freelists[k] == Moved(blocks, h, fl[k])
        invariant forall k :: l <= k < |fl| ==> freelists[k] == fl[k]
      {
        var list := freelists[l];
        assert Outside(blocks, h, fl[l]);
        var i := 0;
        while i < |list|
          invariant i <= |list| == |fl[l]|
          invariant forall k :: 0 <= k < i ==> list[k] == Shift(blocks, h, fl[l][k])
          invariant forall k :: i <= k < |list| ==> list[k] == fl[l][k]
          modifies {}
        {
          if list[i] > h {
            var moved: nat := list[i] - blockSize + senOffset;
            list := list[i := moved];
          }
          i := i + 1;
        }
        assert list == Moved(blocks, h, fl[l]);
        freelists := freelists[l := list];
        l := l + 1;
      }
    }

    /** The block ids of the regions whose descriptors move down. */
    method SlideRegions(h: nat, g: nat, blockSize: nat, senOffset: int)
      requires HeapOk(blocks, freelists) && RegionsOk(blocks, regions) && Removable(blocks, h)
      requires g < |regions| && Covers(blocks, h, regions[g])
      requires blockSize - senOffset == Src(blocks, h) - Dst(blocks, h)
      modifies this`regions
      ensures |regions| == |old(regions)|
      ensures forall k :: 0 <= k < |regions| ==> regions[k] == MovedRegion(blocks, h, old(regions)[k])
    {
      ghost var rs := regions;
      var r := 0;
      while r < |regions|
        invariant r <= |regions| == |rs| && regions[g].blockId == h
        invariant forall k :: 0 <= k < r ==> regions[k] == MovedRegion(blocks, h, rs[k])
        invariant forall k :: r <= k < |rs| ==> regions[k] == rs[k]
      {
        RegionBehind(blocks, freelists, h, rs, g, r);
        if !regions[r].large && regions[r].blockId > regions[g].blockId {
          regions := regions[r := regions[r].(blockId := regions[r].blockId - (blockSize - senOffset))];
        }
        r := r + 1;
      }
    }

    /** The compaction of RemoveBlock: descriptors, list links and block ids slide down over the cells of block `h`. */
    method SlideDown(h: nat, g: nat)
      requires HeapOk(blocks, freelists) && RegionsOk(blocks, regions) && h < |blocks| && InHand(blocks, h)
      requires g < |regions| && Covers(blocks, h, regions[g])
      modifies this`blocks, this`freelists, this`regions
      ensures Removable(old(blocks), h) && blocks == Compacted(old(blocks), h) && HeapOk(blocks, freelists)
      ensures AllOutside(old(blocks), h, old(freelists)) && AllMoved(old(blocks), h, old(freelists), freelists)
      ensures RegionsMoved(old(blocks), h, old(regions), g, regions)
      ensures forall kind :: Pages(kind, blocks) == Pages(kind, old(blocks)) - Weight(kind, old(blocks)[h])
    {
      hide *;
      ghost var bs, fl, rs := blocks, freelists, regions;
      RemoveReady(bs, fl, h);
      CompactedIs(bs, h);
      var nextBlock := h + blocks[h].size;
      var needSentinel := blocks[h].sizePrevious > 0 && blocks[nextBlock].size > 0;
      var removeSentinel := blocks[h].sizePrevious == 0 && blocks[nextBlock].size == 0;
      var sizePrevious, blockSize := blocks[h].sizePrevious, blocks[h].size;
      var src := if removeSentinel then nextBlock + 1 else nextBlock;
      var senOffset: int := if needSentinel then 1 else if removeSentinel then -1 else 0;
      SlideRegions(h, g, blockSize, senOffset);
      RegionsCut(bs, h, rs, g, regions);
      SlideLists(h, blockSize, senOffset);
      blocks := blocks[nextBlock := blocks[nextBlock].(sizePrevious := if needSentinel then 0 else sizePrevious)];
      var sentinel := if needSentinel then [CLEAR.(sizePrevious := sizePrevious)] else [];
      blocks := blocks[..h] + sentinel + blocks[src..];
      regions := regions[..g] + regions[g + 1..];
      RemoveDone(bs, blocks, fl, freelists, h);
    }

    /** RemoveBlock: the block in hand at `h`, which fills region `g`, leaves the heap together with its region. */
    method RemoveBlock(h: nat, ghost g: nat)
      requires Sound() && h < |blocks| && InHand(blocks, h) && blocks[h].page != descriptors
      requires blocks[h].page !in records
      requires g < |regions| && Covers(blocks, h, regions[g])
      modifies this`blocks, this`freelists, this`regions, this`freeRegions, this`zeroed
      ensures Sound() && (NoTails(old(regions)) ==> NoTails(regions))
      ensures Removable(old(blocks), h) && blocks == Compacted(old(blocks), h)
      ensures AllOutside(old(blocks), h, old(freelists)) && AllMoved(old(blocks), h, old(freelists), freelists)
      ensures RegionsMoved(old(blocks), h, old(regions), g, regions) && freeRegions == old(freeRegions) + 1
      ensures Users(blocks, descriptors) == Users(old(blocks), descriptors) - {(old(blocks)[h].page, old(blocks)[h].size)}
      ensures forall kind :: Pages(kind, blocks) == Pages(kind, old(blocks)) - Weight(kind, old(blocks)[h])
      ensures RegionPages(regions) == RegionPages(old(regions)) - CommittedPages(old(regions)[g])
      ensures zeroed == Shifted(old(blocks), h, old(zeroed))
      ensures old(ZeroKnown()) ==> ZeroKnown()
    {
      hide *;
      StateIs(0);
      SoundIs();
      ghost var bs, fl, rs, z := blocks, freelists, regions, Z();
      CoversPage(bs, rs, g, h);
      var r := AddrToRegion(blocks[h].page);
      OneRegion(bs, rs, g, blocks[h].page);
      SlideDown(h, r.block);
      freeRegions := freeRegions + 1;
      RemovedSound(bs, fl, h, freelists, rs, g, regions, descriptors, records, larges, useVirtualMemory);
      RemovedPages(bs, h, rs, g, regions);
      ShiftedZero(bs, h, z);
      ZIs();
      zeroed := Shifted(bs, h, zeroed);
      ZIs();
      StateIs(0);
    }

    // ----- decommitting -----

    /** Keep only the first `k` pages of the block in hand. */
    method Shorten(h: nat, k: nat, ghost bs: seq<HeapBlock>)
      requires HeapOk(blocks, freelists) && Detached(bs, blocks, h) && h < |blocks| && 0 < k < blocks[h].size
      modifies this`blocks, this`freelists
      ensures HeapOk(blocks, freelists) && Detached(bs, blocks, h) && h < |blocks| && blocks[h].size == k
      ensures ZeroOk(old(blocks), Z()) && CleanOk(old(blocks), h, Z()) ==>
        ZeroOk(blocks, Z()) && CleanOk(blocks, h, Z())
    {
      hide *;
      ghost var bs1 := blocks;
      DetachedParts(bs, bs1, h);
      SplitFacts(blocks, freelists, h, k, Z());
      blocks := Split(blocks, h, k);
      ghost var bs2 := blocks;
      AddToFreeList(h + k, false);
      Untouched(bs2, blocks, h + k, h, Z());
      DetachLess(bs, bs1, bs2, blocks, h, k);
      DetachedParts(bs, blocks, h);
    }

    /** Take a free block out of the lists, or the first `most` pages of it. */
    method TakeOff(h: nat, most: nat)
      requires HeapOk(blocks, freelists) && h < |blocks| && blocks[h].free && blocks[h].committed && most > 0
      modifies this`blocks, this`freelists
      ensures HeapOk(blocks, freelists) && Detached(old(blocks), blocks, h) && h < |blocks|
      ensures blocks[h].size == if old(blocks)[h].size > most then most else old(blocks)[h].size
      ensures ZeroOk(old(blocks), Z()) ==> ZeroOk(blocks, Z()) && CleanOk(blocks, h, Z())
    {
      hide *;
      ghost var bs := blocks;
      DetachWhole(bs, freelists, h, Z());
      RemoveFromList(h);
      if blocks[h].size > most {
        Shorten(h, most, bs);
      }
    }

    /** The system takes the pages of the block in hand back. */
    method DecommitMemory(h: nat, ghost bs: seq<HeapBlock>)
      requires HeapOk(blocks, freelists) && Detached(bs, blocks, h) && h < |blocks|
      modifies this`blocks, this`numDecommitted, this`zeroed
      ensures HeapOk(blocks, freelists) && Blank(bs, blocks, h) && h < |blocks| == |old(blocks)|
      ensures blocks[h].size == old(blocks)[h].size && numDecommitted == old(numDecommitted) + blocks[h].size
      ensures ZeroOk(old(blocks), old(Z())) ==> ZeroOk(blocks, Z())
    {
      hide *;
      DetachedParts(bs, blocks, h);
      DetachedBlank(bs, blocks, freelists, h);
      ReleaseBlank(blocks, freelists, h, Z());
      WroteZero(blocks, freelists, h, Z());
      ZIs();
      zeroed := zeroed - Cells(blocks, h);
      ZIs();
      blocks := blocks[h := blocks[h].(committed := false, dirty := false)];
      numDecommitted := numDecommitted + blocks[h].size;
    }

    /** Coalesce a decommitted block with its free decommitted predecessor. */
    method AbsorbPrev(h: nat) returns (b: nat)
      requires HeapOk(blocks, freelists) && h < |blocks| && InHand(blocks, h) && !blocks[h].committed
      modifies this`blocks, this`freelists
      ensures HeapOk(blocks, freelists) && Absorbed(old(blocks), h, blocks, b, Z())
    {
      hide *;
      ghost var bs, fl := blocks, freelists;
      b := h;
      AbsorbReady(bs, fl, h, Z());
      PrevAbsorbsIs(bs, h);
      if blocks[h].sizePrevious != 0 {
        var p := h - blocks[h].sizePrevious;
        if !blocks[p].committed && blocks[p].free {
          RemoveFromList(p);
          AbsorbedPrev(bs, fl, freelists, h, Z());
          blocks := Merge(blocks, p);
          b := p;
        }
      }
    }

    /** Coalesce a decommitted block with its free decommitted successor. */
    method AbsorbNext(b: nat)
      requires HeapOk(blocks, freelists) && b < |blocks| && InHand(blocks, b) && !blocks[b].committed
      requires PrevDiffers(blocks, b, false)
      modifies this`blocks, this`freelists
      ensures HeapOk(blocks, freelists) && Absorbed(old(blocks), b, blocks, b, Z()) && NextDiffers(blocks, b, false)
    {
      hide *;
      ghost var bs, fl := blocks, freelists;
      AbsorbReady(bs, fl, b, Z());
      NextAbsorbsIs(bs, b);
      var n := b + blocks[b].size;
      if blocks[n].size != 0 && !blocks[n].committed && blocks[n].free {
        RemoveFromList(n);
        AbsorbedNext(bs, fl, freelists, b, Z());
        blocks := Merge(blocks, b);
      }
    }

    /** File a decommitted block at the back of the bus, so that committed memory is used first. */
    method FileAtBack(b: nat)
      requires HeapOk(blocks, freelists) && b < |blocks| && InHand(blocks, b) && !blocks[b].committed
      requires PrevDiffers(blocks, b, false) && NextDiffers(blocks, b, false)
      modifies this`blocks, this`freelists
      ensures HeapOk(blocks, freelists) && blocks == Linked(old(blocks), b)
    {
      var l: nat := NUM_FREE_LISTS - 1;
      var s := freelists[l];
      assert ListOk(blocks, l, s);
      var i := 0;
      while i < |s| && !(blocks[s[i]].size >= blocks[b].size && !blocks[s[i]].committed)
        invariant i <= |s|
        modifies {}
      {
        i := i + 1;
      }
      BackOfTheBusFits(blocks, l, s, i, b);
      hide ListsOk, ListOk, FitsAt;
      assert Filed(blocks, l, b);
      Insert(blocks, freelists, l, i, b);
      freelists := freelists[l := Put(s, i, b)];
      blocks := blocks[b := blocks[b].(free := true)];
    }


    /** The free block that has been taken in hand fills region `i`, and goes with it. */
    method RemoveRegion(h: nat, i: nat, ghost bs: seq<HeapBlock>, ghost fl: Lists)
      requires HeapOk(blocks, freelists) && Detached(bs, blocks, h) && h < |blocks| && i < |regions|
      requires Covers(blocks, h, regions[i])
      requires SoundState(bs, fl, regions, descriptors, records, larges, useVirtualMemory)
      requires AccountsOk(bs, regions, numAlloc, numDecommitted, largeAllocs, uncounted, 0, sloppyCommit)
      modifies this`blocks, this`freelists, this`regions, this`freeRegions, this`zeroed
      ensures Sound() && Accounts(0) && InUse() == Clients(bs, descriptors, records, larges)
      ensures |regions| == |old(regions)| - 1 && freeRegions == old(freeRegions) + 1
      ensures (NoTails(old(regions)) ==> NoTails(regions))
      ensures Pages(Used, blocks) == Pages(Used, bs) && Pages(Decommitted, blocks) == Pages(Decommitted, bs)
      ensures Pages(All, blocks) == Pages(All, bs) - old(blocks)[h].size
      ensures ZeroOk(old(blocks), old(Z())) ==> ZeroKnown()
    {
      hide *;
      ghost var bs1 := blocks;
      DetachedParts(bs, bs1, h);
      HandSound(bs, fl, bs1, freelists, regions, descriptors, records, larges, useVirtualMemory, h);
      StateIs(0);
      SoundIs();
      AllCommitted(bs1, regions, i, h);
      AccountsParts(bs, regions, numAlloc, numDecommitted, largeAllocs, uncounted, 0, sloppyCommit);
      RemoveBlock(h, i);
      OneRegionLess(bs1, h, old(regions), i, regions);
      WeightsOf(bs1, h);
      AccountsParts(blocks, regions, numAlloc, numDecommitted, largeAllocs, uncounted, 0, sloppyCommit);
      BackToSame(Users(bs, descriptors), Users(blocks, descriptors), (bs1[h].page, bs1[h].size));
      ClientsSame(bs, blocks, descriptors, records, larges);
      StateIs(0);
    }

    /** The block in hand is decommitted, joined with decommitted neighbours, and filed at the back. */
    method FileDecommitted(h: nat, ghost bs: seq<HeapBlock>)
      requires HeapOk(blocks, freelists) && Detached(bs, blocks, h) && h < |blocks|
      modifies this`blocks, this`freelists, this`numDecommitted, this`zeroed
      ensures HeapOk(blocks, freelists) && Released(bs, blocks, h, old(blocks)[h].size)
      ensures numDecommitted == old(numDecommitted) + old(blocks)[h].size
      ensures ZeroOk(old(blocks), old(Z())) ==> ZeroOk(blocks, Z())
    {
      hide *;
      DecommitMemory(h, bs);
      ghost var bs1 := blocks;
      BlankParts(bs, bs1, h);
      var b := AbsorbPrev(h);
      ghost var bs2 := blocks;
      AbsorbedParts(bs1, h, bs2, b, Z());
      AbsorbNext(b);
      AbsorbedParts(bs2, b, blocks, b, Z());
      ReleaseDone(bs, bs1, h, bs2, b, blocks, Z());
      FileAtBack(b);
    }

    /**
     One round of Decommit with virtual memory.  If the block, or as much of it as is
     wanted, covers a whole region and regions are to be released, the region is
     unreserved; otherwise the pages are decommitted, joined with decommitted
     neighbours and filed at the back.
     */
    method DecommitBlock(h: nat, most: nat, release: bool) returns (n: nat, removed: bool)
      requires Sound() && Accounts(0) && h < |blocks| && blocks[h].free && blocks[h].committed && most > 0
      modifies this`blocks, this`freelists, this`numDecommitted, this`zeroed, this`regions, this`freeRegions
      ensures Sound() && Accounts(0) && InUse() == old(InUse()) && (NoTails(old(regions)) ==> NoTails(regions))
      ensures 0 < n <= most && Pages(Used, blocks) == Pages(Used, old(blocks))
      ensures removed <==>
        release && CoversRegion(old(blocks), old(regions), h, if old(blocks)[h].size > most then most else old(blocks)[h].size)
      ensures removed ==> |regions| == |old(regions)| - 1
      ensures removed ==>
        Pages(All, blocks) == Pages(All, old(blocks)) - n && Pages(Decommitted, blocks) == Pages(Decommitted, old(blocks))
      ensures !removed ==> n == if old(blocks)[h].size > most then most else old(blocks)[h].size
      ensures !removed ==> Released(old(blocks), blocks, h, n) && regions == old(regions)
      ensures old(ZeroKnown()) ==> ZeroKnown()
    {
      hide *;
      StateIs(0);
      SoundIs();
      ghost var bs, fl := blocks, freelists;
      TakeOff(h, most);
      ghost var bs1 := blocks;
      DetachedParts(bs, bs1, h);
      HandSound(bs, fl, bs1, freelists, regions, descriptors, records, larges, useVirtualMemory, h);
      SoundParts(bs1, freelists, regions, descriptors, records, larges, useVirtualMemory);
      HandsAreHeads(bs1);
      ghost var j := RegionOf(bs1, regions, h);
      var i := AddrToRegion(blocks[h].page);
      OneRegion(bs1, regions, j, blocks[h].page);
      var region := regions[i.block];
      DetachedPage(bs, bs1, bs1, h);
      CoversRegionIs(bs, bs1, regions, j, h);
      removed := release && blocks[h].page <= region.base && region.reserveTop <= blocks[h].page + blocks[h].size;
      if removed {
        var k := region.reserveTop - blocks[h].page;
        if blocks[h].size > k {
          Shorten(h, k, bs);
        }
        DetachedPage(bs, bs1, blocks, h);
        CoversIs(blocks, bs1, regions, j, h);
        n := blocks[h].size;
        RemoveRegion(h, i.block, bs, fl);
      } else {
        n := blocks[h].size;
        FileDecommitted(h, bs);
        ReleasedParts(bs, blocks, h, n);
        AccountsParts(bs, regions, numAlloc, old(numDecommitted), largeAllocs, uncounted, 0, sloppyCommit);
        AccountsParts(blocks, regions, numAlloc, numDecommitted, largeAllocs, uncounted, 0, sloppyCommit);
        SameSound(bs, fl, blocks, freelists, regions, descriptors, records, larges, useVirtualMemory);
        ClientsSame(bs, blocks, descriptors, records, larges);
        StateIs(0);
      }
    }

    /** Without virtual memory: the free block that fills region `i` is given back with it. */
    method ReleaseBlock(h: nat, i: nat)
      requires Sound() && Accounts(0) && h < |blocks| && blocks[h].free && blocks[h].committed && !useVirtualMemory
      requires i < |regions| && regions[i].base == blocks[h].page
      requires regions[i].commitTop == blocks[h].page + blocks[h].size
      modifies this`blocks, this`freelists, this`regions, this`freeRegions, this`zeroed
      ensures Sound() && Accounts(0) && InUse() == old(InUse()) && (NoTails(old(regions)) ==> NoTails(regions))
      ensures |regions| == |old(regions)| - 1 && Pages(Used, blocks) == Pages(Used, old(blocks))
      ensures Pages(All, blocks) == Pages(All, old(blocks)) - old(blocks)[h].size
      ensures Pages(Decommitted, blocks) == Pages(Decommitted, old(blocks))
      ensures old(ZeroKnown()) ==> ZeroKnown()
    {
      hide *;
      StateIs(0);
      SoundIs();
      ghost var bs, fl := blocks, freelists;
      DetachWhole(bs, fl, h, Z());
      PlainCovers(bs, fl, regions, descriptors, records, larges, h, i);
      RemoveFromList(h);
      RemoveRegion(h, i, bs, fl);
      StateIs(0);
    }

    /**
     One pass of Decommit: from the largest list down, and in each list from the back.
     `left` is what is still to be decommitted; after a region has gone, the pass has to
     start over.
     */
    method DecommitPass(wanted: nat, release: bool) returns (left: nat, restart: bool)
      requires Sound() && Accounts(0)
      modifies this`blocks, this`freelists, this`numDecommitted, this`zeroed, this`regions, this`freeRegions
      ensures Sound() && Accounts(0) && InUse() == old(InUse()) && (NoTails(old(regions)) ==> NoTails(regions))
      ensures Pages(Used, blocks) == Pages(Used, old(blocks)) && left <= wanted
      ensures |regions| == |old(regions)| - if restart then 1 else 0
      // decommitted and removed pages together are what is wanted no more
      ensures useVirtualMemory ==>
        wanted - left == Pages(Decommitted, blocks) - Pages(Decommitted, old(blocks)) + Pages(All, old(blocks)) - Pages(All, blocks)
      ensures !useVirtualMemory ==> left == wanted && Pages(Decommitted, blocks) == Pages(Decommitted, old(blocks))
      ensures !restart ==> Pages(All, blocks) == Pages(All, old(blocks)) && |blocks| == |old(blocks)|
      ensures restart ==> (useVirtualMemory ==> release) && Pages(All, blocks) <= Pages(All, old(blocks))
      ensures !restart && left > 0 ==>
        forall h: nat :: h < |blocks| && blocks[h].free ==> Stays(blocks, regions, useVirtualMemory, h)
      ensures old(ZeroKnown()) ==> ZeroKnown()
    {
      hide *;
      ghost var bs := blocks;
      left, restart := wanted, false;
      var l: nat := NUM_FREE_LISTS;
      DecommitStart(blocks, regions, useVirtualMemory, l);
      while l > 0 && left > 0
        invariant l <= NUM_FREE_LISTS && left <= wanted && Sound() && Accounts(0) && InUse() == old(InUse())
        invariant regions == old(regions) && |blocks| == |bs|
        invariant Pages(Used, blocks) == Pages(Used, bs) && Pages(All, blocks) == Pages(All, bs)
        invariant Pages(Decommitted, blocks) == Pages(Decommitted, bs) + wanted - left
        invariant !useVirtualMemory ==> left == wanted
        invariant old(ZeroKnown()) ==> ZeroKnown()
        invariant left > 0 ==> DoneAbove(blocks, regions, useVirtualMemory, l)
      {
        var list: nat := l - 1;
        SoundIs();
        ListCount(blocks, freelists);
        var i: nat := |freelists[list]|;
        DecommitBack(blocks, regions, useVirtualMemory, freelists, list);
        while i > 0 && left > 0
          invariant |freelists| == NUM_FREE_LISTS && i <= |freelists[list]| && left <= wanted
          invariant Sound() && Accounts(0) && InUse() == old(InUse()) && regions == old(regions) && |blocks| == |bs|
          invariant Pages(Used, blocks) == Pages(Used, bs) && Pages(All, blocks) == Pages(All, bs)
          invariant Pages(Decommitted, blocks) == Pages(Decommitted, bs) + wanted - left
          invariant !useVirtualMemory ==> left == wanted
          invariant old(ZeroKnown()) ==> ZeroKnown()
          invariant left > 0 ==> DoneAbove(blocks, regions, useVirtualMemory, list + 1)
          invariant left > 0 ==> DoneFrom(blocks, regions, useVirtualMemory, freelists, list, i)
          decreases left, i
        {
          i := i - 1;
          SoundIs();
          ListedFree(blocks, freelists, list, i);
          var h := freelists[list][i];
          if !blocks[h].committed {
            CommittedStays(blocks, regions, useVirtualMemory, h);
            DecommitSkip(blocks, regions, useVirtualMemory, freelists, list, i);
          } else if useVirtualMemory {
            ghost var was := blocks;
            var n;
            n, restart := DecommitBlock(h, left, release);
            left := left - n;
            if restart {
              return;
            }
            ReleasedParts(was, blocks, h, n);
            if left > 0 { ReleasedDone(was, blocks, h, n, regions, list + 1); }
            SoundIs();
            ListCount(blocks, freelists);
            i := |freelists[list]|;
            DecommitBack(blocks, regions, useVirtualMemory, freelists, list);
          } else {
            FreeIsHead(blocks, freelists, h);
            ghost var j := RegionOf(blocks, regions, h);
            var r := AddrToRegion(blocks[h].page);
            OneRegion(blocks, regions, j, blocks[h].page);
            var region := regions[r.block];
            if blocks[h].page == region.base && region.commitTop == blocks[h].page + blocks[h].size {
              ReleaseBlock(h, r.block);
              restart := true;
              return;
            }
            PartlyStays(blocks, regions, h, r.block);
            DecommitSkip(blocks, regions, useVirtualMemory, freelists, list, i);
          }
        }
        SoundIs();
        if left > 0 { DecommitList(blocks, regions, useVirtualMemory, freelists, list); }
        l := list;
      }
      SoundIs();
      if left > 0 { DecommitAll(blocks, freelists, regions, useVirtualMemory); }
    }

    /** Decommit, once it is settled how many pages to give back, and whether whole regions may be released. */
    method GiveBack(request: nat, release: bool)
      requires Sound() && Accounts(0)
      modifies this`blocks, this`freelists, this`numDecommitted, this`zeroed, this`regions, this`freeRegions
      ensures Sound() && Accounts(0) && InUse() == old(InUse()) && (NoTails(old(regions)) ==> NoTails(regions))
      ensures Pages(Used, blocks) == Pages(Used, old(blocks)) && Pages(All, blocks) <= Pages(All, old(blocks))
      // as much as was asked for is decommitted or gone, unless no committed free block is left
      ensures useVirtualMemory ==>
        Pages(Decommitted, blocks) - Pages(Decommitted, old(blocks)) + Pages(All, old(blocks)) - Pages(All, blocks) <= request
      ensures useVirtualMemory ==>
        || Pages(Decommitted, blocks) - Pages(Decommitted, old(blocks)) + Pages(All, old(blocks)) - Pages(All, blocks) == request
        || forall h: nat :: h < |blocks| && blocks[h].free ==> !blocks[h].committed
      ensures useVirtualMemory && !release ==>
        Pages(All, blocks) == Pages(All, old(blocks)) && |blocks| == |old(blocks)|
      // without virtual memory the request does not count: every free block that fills a region goes
      ensures !useVirtualMemory && request > 0 ==>
        forall h: nat :: h < |blocks| && blocks[h].free && blocks[h].committed ==> !Fills(blocks, regions, h)
      ensures !useVirtualMemory ==> Pages(Decommitted, blocks) == Pages(Decommitted, old(blocks))
      ensures old(ZeroKnown()) ==> ZeroKnown()
    {
      hide *;
      var decommitSize: nat, restart := request, true;
      ghost var bs := blocks;
      while restart
        invariant Sound() && Accounts(0) && InUse() == old(InUse()) && (NoTails(old(regions)) ==> NoTails(regions))
        invariant Pages(Used, blocks) == Pages(Used, bs) && Pages(All, blocks) <= Pages(All, bs)
        invariant decommitSize <= request
        invariant useVirtualMemory ==>
          request - decommitSize == Pages(Decommitted, blocks) - Pages(Decommitted, bs) + Pages(All, bs) - Pages(All, blocks)
        invariant !useVirtualMemory ==> decommitSize == request && Pages(Decommitted, blocks) == Pages(Decommitted, bs)
        invariant useVirtualMemory && !release ==> Pages(All, blocks) == Pages(All, bs) && |blocks| == |bs|
        invariant !restart && decommitSize > 0 ==>
          forall h: nat :: h < |blocks| && blocks[h].free ==> Stays(blocks, regions, useVirtualMemory, h)
        invariant old(ZeroKnown()) ==> ZeroKnown()
        decreases |regions|, restart
      {
        decommitSize, restart := DecommitPass(decommitSize, release);
      }
      StaysIs(blocks, regions, useVirtualMemory);
    }

    /** GetTotalHeapSize: sentinels count as pages. */
    function TotalHeapSize(): int
      reads this`blocks, this`numDecommitted, this`largeAllocs
    {
      |blocks| - numDecommitted + largeAllocs
    }

    /** GetFreeHeapSize. */
    function FreeHeapSize(): int
      reads this`blocks, this`numDecommitted, this`largeAllocs, this`numAlloc
    {
      TotalHeapSize() - numAlloc
    }

    /** How many pages Decommit is going to ask for. */
    function PagesToGiveBack(p: Policy): nat
      reads this`blocks, this`numDecommitted, this`largeAllocs, this`numAlloc
    {
      DecommitSize(p, initialSize, Word(TotalHeapSize()), Word(FreeHeapSize()))
    }

    /** What the two sizes count, if the accounts are exact. */
    lemma SizesAre()
      requires !sloppyCommit && Accounts(0)
      ensures TotalHeapSize() == |blocks| - Pages(Decommitted, blocks) + largeAllocs
      ensures FreeHeapSize() == |blocks| - Pages(Decommitted, blocks) - Pages(Used, blocks) + uncounted
    {
      hide Pages;
    }

    lemma DueIsAskedFor(p: Policy)
      requires !sloppyCommit && Accounts(0)
      ensures var heapSize, freeSize := TotalHeapSize(), FreeHeapSize();
        0 <= freeSize && initialSize <= heapSize && Sane(p, initialSize, heapSize, freeSize) ==>
          && PagesToGiveBack(p) == Due(p, initialSize, heapSize, freeSize)
          && (MayRelease(p, Word(heapSize), Word(freeSize)) <==> p.trimVirtualMemory && 2 * freeSize > heapSize)
          && (4 * freeSize <= heapSize && WithinLimits(p, heapSize, freeSize) ==> PagesToGiveBack(p) == 0)
          && PagesToGiveBack(p) + initialSize <= heapSize
    {
      var heapSize, freeSize := TotalHeapSize(), FreeHeapSize();
      if 0 <= freeSize && initialSize <= heapSize && Sane(p, initialSize, heapSize, freeSize) {
        NoWrap(heapSize);
        NoWrap(freeSize);
        NoWrap(freeSize * 100);
        NoWrap(heapSize * RELEASE_THRESHOLD_PERCENTAGE);
        AskedForIsDue(p, initialSize, heapSize, freeSize);
        if Wanted(p, heapSize, freeSize) { InitialSizeIsKept(p, initialSize, heapSize, freeSize); }
      }
      hide Accounts, Wanted;
    }

    /**
     Decommit: nothing happens as long as at most a quarter of the heap is free and no limit
     is exceeded; otherwise what is due is given back.  As long as no region is released
     the heap does not get smaller than it was in the beginning.  All this is so for exact
     accounts, and sizes that the arithmetic can hold; in any case, what the policy asks
     for is given back.
     */
    method Decommit(p: Policy)
      requires Sound() && Accounts(0)
      modifies this`blocks, this`freelists, this`numDecommitted, this`zeroed, this`regions, this`freeRegions
      ensures Sound() && Accounts(0) && InUse() == old(InUse()) && (NoTails(old(regions)) ==> NoTails(regions))
      ensures old(PagesToGiveBack(p)) == 0 ==> unchanged(this)
      ensures useVirtualMemory ==> GivenBack(old(blocks), blocks, old(PagesToGiveBack(p)))
      ensures var heapSize := |old(blocks)| - Pages(Decommitted, old(blocks)) + largeAllocs;
        var freeSize := |old(blocks)| - Pages(Decommitted, old(blocks)) - Pages(Used, old(blocks)) + uncounted;
        !sloppyCommit && 0 <= freeSize && initialSize <= heapSize && Sane(p, initialSize, heapSize, freeSize) ==>
          && (4 * freeSize <= heapSize && WithinLimits(p, heapSize, freeSize) ==> unchanged(this))
          && (useVirtualMemory ==> GivenBack(old(blocks), blocks, Due(p, initialSize, heapSize, freeSize)))
          && (useVirtualMemory && !(p.trimVirtualMemory && 2 * freeSize > heapSize) ==>
                && Pages(All, blocks) == Pages(All, old(blocks)) && |blocks| == |old(blocks)|
                && initialSize <= |blocks| - Pages(Decommitted, blocks) + largeAllocs)
      ensures old(ZeroKnown()) ==> ZeroKnown()
    {
      hide *;
      StateIs(0);
      var heapSize, freeSize := Word(TotalHeapSize()), Word(FreeHeapSize());
      var request := PagesToGiveBack(p);
      PagesAre(p);
      ghost var bs := blocks;
      if !sloppyCommit {
        SizesAre();
        DueIsAskedFor(p);
      }
      if request > 0 {
        GiveBack(request, MayRelease(p, heapSize, freeSize));
      }
      GivenBackIs(bs, blocks, request);
    }

    lemma PagesAre(p: Policy)
      ensures PagesToGiveBack(p) == DecommitSize(p, initialSize, Word(TotalHeapSize()), Word(FreeHeapSize()))
    {
    }

    // ----- whole runs -----

    /** The allocation is known to hold only zeros. */
    ghost predicate AllZero(u: (nat, nat))
      reads this
    {
      || (u in larges && u in blank)
      || exists i: nat :: i < |blocks| && InHand(blocks, i) && (blocks[i].page, blocks[i].size) == u && CellsZero(blocks, i, zeroed)
    }

    /** The heap, and what a client holds. */
    ghost function Now(held: seq<(nat, nat)>): Snapshot
      reads this
    {
      Snapshot(blocks, freelists, regions, InUse(), held, (set u | u in InUse() && AllZero(u)), ZeroKnown())
    }

    lemma NowIs(held: seq<(nat, nat)>)
      ensures var s := Now(held); s.blocks == blocks && s.freelists == freelists && s.regions == regions && s.used == InUse()
      ensures Now(held).held == held && (Now(held).clean <==> ZeroKnown())
    {
      hide InUse, ZeroKnown, AllZero;
    }

    lemma ZeroBlock(held: seq<(nat, nat)>, i: nat)
      requires i < |blocks| && InHand(blocks, i) && (blocks[i].page, blocks[i].size) in InUse()
      requires CellsZero(blocks, i, zeroed)
      ensures (blocks[i].page, blocks[i].size) in Now(held).zeros
    {
      hide InUse, ZeroKnown;
    }

    lemma ZeroLarge(held: seq<(nat, nat)>, u: (nat, nat))
      requires u in InUse() && u in larges && u in blank
      ensures u in Now(held).zeros
    {
      hide InUse, ZeroKnown;
    }

    /** An allocation for a client. */
    method ServeAllocation(q: Request, held: seq<(nat, nat)>) returns (held': seq<(nat, nat)>, tail: bool)
      requires Sound() && Accounts(0) && q.Allocate? && q.size > 0 && q.alignment > 0
      modifies this
      ensures !tail ==> Sound() && Accounts(0) && Served(q, old(Now(held)), Now(held'), useVirtualMemory)
      ensures tail ==> TookTail(q, old(Now(held)))
      ensures NoTails(old(regions)) ==> !tail
      ensures NoTails(old(regions)) && Modest(q, useVirtualMemory) ==> NoTails(regions)
      ensures old(ZeroKnown()) ==> ZeroKnown()
    {
      hide *;
      ModestIs(q, useVirtualMemory);
      NowIs(held);
      ghost var s := Now(held);
      InStockIs(q, s, useVirtualMemory);
      held' := held;
      var page, b;
      ghost var mid, h, e;
      page, b, tail, mid, h, e := Alloc(q.size, q.kExpand, q.kZero, q.alignment);
      if page > 0 {
        held' := held + [(page, q.size)];
      }
      NowIs(held');
      if tail {
        TookTailIs(q, s, e);
        return;
      }
      if page > 0 {
        NewlyHeldIs(s.used, held, InUse(), held', page, q.size, q.alignment);
        if q.kZero && s.clean {
          if b.Chosen? { ZeroBlock(held', b.block); } else { ZeroLarge(held', (page, q.size)); }
        }
        GivenIs(q, s, Now(held'), page, h, if b.Chosen? then b.block else 0, useVirtualMemory);
      }
      ServedAllocation(q, s, Now(held'), useVirtualMemory, page);
    }

    /**
     One request of a client that holds the allocations `held`, given by address and
     size.  A request that makes no sense is passed over.  If an expansion takes pages
     that a large allocation has left over (`tail`), nothing is promised any more.
     */
    method Serve(q: Request, held: seq<(nat, nat)>) returns (held': seq<(nat, nat)>, tail: bool)
      requires Sound() && Accounts(0) && forall u :: u in held ==> u in InUse()
      modifies this
      ensures !tail ==> Sound() && Accounts(0) && Served(q, old(Now(held)), Now(held'), useVirtualMemory)
      ensures tail ==> TookTail(q, old(Now(held)))
      ensures NoTails(old(regions)) ==> !tail
      ensures NoTails(old(regions)) && Modest(q, useVirtualMemory) ==> NoTails(regions)
      ensures old(ZeroKnown()) ==> ZeroKnown()
    {
      hide *;
      ModestIs(q, useVirtualMemory);
      NowIs(held);
      ghost var s := Now(held);
      held', tail := held, false;
      match q {
        case Allocate(size, kExpand, kZero, alignment) =>
          if size == 0 || alignment == 0 {
            ServedNothing(q, s, useVirtualMemory);
            return;
          }
          held', tail := ServeAllocation(q, held);
        case FreePages(k) =>
          if k >= |held| {
            ServedNothing(q, s, useVirtualMemory);
            return;
          }
          FreeInternal(held[k].0, held[k].1);
          held' := held[..k] + held[k + 1..];
          NowIs(held');
          ServedRelease(q, s, Now(held'), useVirtualMemory);
        case WritePages(k) =>
          if k < |held| { Write(held[k].0, held[k].1); }
          NowIs(held);
          ServedWrite(q, s, Now(held), useVirtualMemory);
        case DecommitPages(pages, release) =>
          GiveBack(pages, release);
          NowIs(held);
          ServedDecommit(q, s, Now(held), useVirtualMemory);
      }
    }

    /**
     Every run of requests, from any sound state, with any answers of the system: the
     heap stays sound, the accounts exact, and clean pages zero.  `log` has the states
     between the requests: each request is answered as it has to be.  What is in use at
     the end is what was in use at the start and what this client was given and has not
     given back, each at its own address.  Only an expansion that takes pages which a
     large allocation has left over puts an end to this; without aligned requests for a
     region of their own there are none.
     */
    method Run(requests: seq<Request>) returns (held: seq<(nat, nat)>, tail: bool, ghost log: seq<Snapshot>)
      requires Sound() && Accounts(0)
      modifies this
      ensures 0 < |log| <= |requests| + 1 && log[0] == old(Now([]))
      ensures forall k :: 0 <= k < |log| - 1 ==> Served(requests[k], log[k], log[k + 1], useVirtualMemory)
      ensures forall k :: 0 <= k < |log| ==> HeapOk(log[k].blocks, log[k].freelists)
      ensures !tail ==> |log| == |requests| + 1 && log[|requests|] == Now(held)
      ensures !tail ==> Sound() && Accounts(0) && Holding(old(InUse()), held, InUse())
      ensures tail ==> |log| <= |requests| && TookTail(requests[|log| - 1], log[|log| - 1])
      ensures NoTails(old(regions)) && (forall q :: q in requests ==> Modest(q, useVirtualMemory)) ==>
        !tail && NoTails(regions)
      ensures old(ZeroKnown()) ==> ZeroKnown()
    {
      hide *;
      held, tail := [], false;
      log := [Now([])];
      NowIs([]);
      SoundIs();
      HoldingNothing(InUse());
      for k := 0 to |requests|
        invariant Sound() && Accounts(0) && Holding(old(InUse()), held, InUse()) && !tail
        invariant old(ZeroKnown()) ==> ZeroKnown()
        invariant |log| == k + 1 && log[0] == old(Now([])) && log[k] == Now(held)
        invariant forall j :: 0 <= j < k ==> Served(requests[j], log[j], log[j + 1], useVirtualMemory)
        invariant forall j :: 0 <= j <= k ==> HeapOk(log[j].blocks, log[j].freelists)
        invariant NoTails(old(regions)) && (forall q :: q in requests ==> Modest(q, useVirtualMemory)) ==>
          NoTails(regions)
      {
        NowIs(held);
        HoldingParts(old(InUse()), held, InUse());
        held, tail := Serve(requests[k], held);
        if tail {
          return;
        }
        NowIs(held);
        SoundIs();
        HoldingOn(old(InUse()), log[k], Now(held), requests[k], useVirtualMemory);
        log := log + [Now(held)];
      }
    }
  }
}
