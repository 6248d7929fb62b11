/**
 MMgc's allocator for objects of one size class: a quick list in front of per-block
 free lists, deferred coalescing under a global budget, and lazy sweeping.
 */
module GCAlloc {
  import opened AllocPool
  import opened AllocSteps
  import opened AllocFinalize

  /** The size of `k` items. */
  function Bytes(itemSize: nat, k: int): int {
    itemSize * k
  }

  lemma BytesMinus(itemSize: nat, a: int, b: int)
    ensures Bytes(itemSize, a - b) == Bytes(itemSize, a) - Bytes(itemSize, b)
    ensures Bytes(itemSize, 0) == 0 && Bytes(itemSize, 1) == itemSize
  {
  }

  class GCAlloc {
    const itemSize: nat
    const itemsPerBlock: nat
    const containsFinalizedObjects: bool

    /** The blocks by address, the order they are linked in, and the next address to be handed out. */
    var blocks: Blocks
    var chain: seq<nat>
    var nextBlock: nat

    /** m_firstFree and m_needsSweeping, as the lists they begin. */
    var firstFree: seq<nat>
    var needsSweeping: seq<nat>

    var qList: seq<Item>
    var qBudget: int
    var qBudgetObtained: int
    var totalAllocatedBytes: int
    var finalized: bool

    /** The items that are live. */
    ghost var live: set<Item>

    /** Everything but the quick list's accounts; `q` holds the quick items, also while they are taken off `qList`. */
    ghost predicate Sound(q: seq<Item>)
      reads this
    {
      SoundPool(itemsPerBlock, blocks, chain, firstFree, needsSweeping, q, live, nextBlock)
    }

    lemma SoundIs(q: seq<Item>)
      ensures Sound(q) == SoundPool(itemsPerBlock, blocks, chain, firstFree, needsSweeping, q, live, nextBlock)
    {
    }

    lemma BudgetIs()
      ensures Budgeted() <==>
        && qBudgetObtained - qBudget == |qList| && qBudget >= 1
        && qBudgetObtained >= itemsPerBlock && (qList == [] ==> qBudget >= itemsPerBlock)
    {
    }

    /** How far totalAllocatedBytes is from the size of the items that are not free. */
    ghost function Drift(): int
      reads this
    {
      totalAllocatedBytes - Bytes(itemSize, TotalInUse(blocks, chain))
    }

    /** What has been taken from the budget is on the quick list; a block's worth is always left of it. */
    ghost predicate Budgeted()
      reads this
    {
      && qBudgetObtained - qBudget == |qList| && qBudget >= 1
      && qBudgetObtained >= itemsPerBlock && (qList == [] ==> qBudget >= itemsPerBlock)
    }

    ghost predicate Valid()
      reads this
    {
      Sound(qList) && Drift() == 0 && Budgeted()
    }

    /** Item `x` has a block and a mark there. */
    ghost predicate Placed(x: Item)
      reads this
    {
      x.block in blocks && x.index < |blocks[x.block].marks|
    }

    constructor (itemSize: nat, itemsPerBlock: nat, containsFinalizedObjects: bool)
      requires itemSize > 0 && itemsPerBlock > 0
      ensures Valid() && live == {} && Calm(blocks) && blocks == map[]
      ensures qBudget == qBudgetObtained == itemsPerBlock && !finalized
      ensures this.itemSize == itemSize && this.itemsPerBlock == itemsPerBlock
      ensures this.containsFinalizedObjects == containsFinalizedObjects
    {
      this.itemSize, this.itemsPerBlock := itemSize, itemsPerBlock;
      this.containsFinalizedObjects, finalized := containsFinalizedObjects, false;
      blocks, chain, nextBlock := map[], [], 0;
      firstFree, needsSweeping, qList := [], [], [];
      qBudget, qBudgetObtained, totalAllocatedBytes := itemsPerBlock, itemsPerBlock, 0;
      live := {};
    }

    // ----- blocks -----

    /** CreateChunk: a new block, all of it free, at the head of the free list. */
    method CreateChunk(collecting: bool, ghost q: seq<Item>)
      requires Sound(q)
      modifies this`blocks, this`chain, this`nextBlock, this`firstFree
      ensures Sound(q) && Drift() == old(Drift())
      ensures firstFree == [old(nextBlock)] + old(firstFree) && nextBlock == old(nextBlock) + 1
      ensures old(Calm(blocks)) ==> Calm(blocks)
    {
      hide SoundPool, PoolOk, LiveIs, OthersKept, TotalInUse, Calm, Without, SameMarks, Bytes, BlockOk, MarksOk,
        SweptFrom, GivenBack, Distinct;
      hide NewBlock;
      ChunkStep(itemsPerBlock, blocks, chain, firstFree, needsSweeping, q, collecting && finalized, live, nextBlock);
      blocks := blocks[nextBlock := NewBlock(itemsPerBlock, collecting && finalized)];
      chain := chain + [nextBlock];
      firstFree := [nextBlock] + firstFree;
      nextBlock := nextBlock + 1;
    }

    /** UnlinkChunk and FreeChunk: the block leaves the chain and the free list, if it is on it. */
    method UnlinkChunk(b: nat)
      requires b in blocks && !blocks[b].needsSweeping
      modifies this`blocks, this`chain, this`firstFree, this`totalAllocatedBytes
      ensures blocks == old(blocks) - {b} && chain == Without(old(chain), b) && firstFree == Without(old(firstFree), b)
      ensures totalAllocatedBytes == old(totalAllocatedBytes) - Bytes(itemSize, itemsPerBlock - old(blocks)[b].numFree)
    {
      chain := Without(chain, b);
      totalAllocatedBytes := totalAllocatedBytes - Bytes(itemSize, itemsPerBlock - blocks[b].numFree);
      firstFree := Without(firstFree, b);
      blocks := blocks - {b};
    }

    /** SweepGuts: marked items lose their mark, items without one go to the block's free list. */
    method SweepGuts(b: Block, ghost id: nat) returns (s: Block)
      requires BlockOk(itemsPerBlock, b) && MarksOk(b, id, [])
      ensures SweptFrom(itemsPerBlock, b, s)
    {
      s := b;
      var i: nat := 0;
      hide Distinct;
      while i < itemsPerBlock
        invariant i <= itemsPerBlock && BlockOk(itemsPerBlock, s)
        invariant s.needsSweeping == b.needsSweeping && s.finalized == b.finalized
        invariant forall j: nat :: j < i ==>
          s.marks[j] == (if b.marks[j] == Marked || b.marks[j] == Queued then White else Freelist)
        invariant forall j: nat :: i <= j < itemsPerBlock ==> s.marks[j] == b.marks[j]
        invariant forall j: nat :: j < itemsPerBlock ==> (j in s.freeItems <==> s.marks[j] == Freelist)
      {
        match s.marks[i] {
          case Freelist =>
          case White =>
            FrontDistinct(s.freeItems, i);
            s := s.(freeItems := [i] + s.freeItems, numFree := s.numFree + 1, marks := s.marks[i := Freelist]);
          case _ =>
            s := s.(marks := s.marks[i := White]);
        }
        i := i + 1;
      }
    }

    /** Sweep one block; it may leave the allocator. */
    method Sweep(id: nat, ghost q: seq<Item>) returns (gone: bool)
      requires Sound(q) && id in blocks && blocks[id].needsSweeping && qList == []
      modifies this`blocks, this`chain, this`firstFree, this`needsSweeping, this`totalAllocatedBytes
      ensures Sound(q) && old(id in needsSweeping) && needsSweeping == Without(old(needsSweeping), id)
      ensures Drift() == old(Drift())
      ensures old(Calm(blocks)) ==> Calm(blocks)
      ensures (gone <==> id !in blocks) && OthersKept(old(blocks), blocks, id)
      // it leaves exactly if nothing in it was marked or queued, and joins the free list if something else was
      ensures gone <==> Marked !in old(blocks)[id].marks && Queued !in old(blocks)[id].marks
      ensures if !gone && blocks[id].numFree > 0 then firstFree == [id] + old(firstFree) else firstFree == old(firstFree)
    {
      hide SoundPool, PoolOk, LiveIs, OthersKept, TotalInUse, Calm, Without, SameMarks, Bytes, BlockOk, MarksOk,
        SweptFrom, GivenBack, Distinct;
      PendingListed(itemsPerBlock, blocks, chain, firstFree, needsSweeping, q, id, live, nextBlock);
      var b := blocks[id];
      var s := SweepGuts(b, id);
      ghost var total, swept := TotalInUse(blocks, chain), s.numFree - b.numFree;
      BytesMinus(itemSize, total, swept);
      BytesMinus(itemSize, itemsPerBlock, s.numFree);
      SweptEmpty(itemsPerBlock, b, s, id);
      OthersAre(blocks, id, s.(needsSweeping := false));
      totalAllocatedBytes := totalAllocatedBytes - Bytes(itemSize, s.numFree - b.numFree);
      gone := s.numFree == itemsPerBlock;
      if gone {
        SweepGone(itemsPerBlock, blocks, chain, firstFree, needsSweeping, q, id, s, live, nextBlock);
        blocks := blocks[id := s.(needsSweeping := false)];
        UnlinkChunk(id);
      } else {
        SweepStays(itemsPerBlock, blocks, chain, firstFree, needsSweeping, q, id, s, live, nextBlock);
        blocks := blocks[id := s.(needsSweeping := false)];
        if s.numFree > 0 {
          firstFree := [id] + firstFree;
        }
      }
      needsSweeping := Without(needsSweeping, id);
      assert TotalInUse(blocks, chain) == total - swept;
    }

    /** SweepNeedsSweeping: nothing awaits sweeping any more, and what was live is what is not free. */
    method SweepNeedsSweeping()
      requires Valid() && qList == []
      modifies this`blocks, this`chain, this`firstFree, this`needsSweeping, this`totalAllocatedBytes
      ensures Valid() && needsSweeping == [] && forall id :: id in blocks ==> !blocks[id].needsSweeping
      ensures old(Calm(blocks)) ==> Calm(blocks)
    {
      hide SoundPool, PoolOk, LiveIs, OthersKept, TotalInUse, Calm, Without, SameMarks, Bytes, BlockOk, MarksOk,
        SweptFrom, GivenBack, Distinct;
      while needsSweeping != []
        invariant Valid() && qList == [] && (old(Calm(blocks)) ==> Calm(blocks))
        decreases |needsSweeping|
      {
        HeadPending(itemsPerBlock, blocks, chain, firstFree, needsSweeping, qList, live, nextBlock);
        var gone := Sweep(needsSweeping[0], qList);
      }
      NonePending(itemsPerBlock, blocks, chain, firstFree, qList, live, nextBlock);
    }

    // ----- the quick list -----

    /** First loop of CoalesceQuickList: every quick item goes back to its block's list. */
    method ReturnQuickItems()
      requires Sound(qList)
      modifies this`blocks, this`firstFree, this`qList
      ensures Sound([]) && qList == [] && Drift() == old(Drift())
      ensures SameMarks(old(blocks), blocks) && (old(Calm(blocks)) ==> Calm(blocks))
      ensures forall id :: id in blocks <==> id in old(blocks)
      ensures old(qList) == [] ==> firstFree == old(firstFree)
    {
      hide SoundPool, PoolOk, LiveIs, OthersKept, TotalInUse, Calm, Without, SameMarks, Bytes, BlockOk, MarksOk,
        SweptFrom, GivenBack, Distinct;
      hide Returned;
      var items := qList;
      qList := [];
      ghost var blocks0, calm, drift := blocks, Calm(blocks), Drift();
      SameMarksSelf(blocks);
      while items != []
        invariant Sound(items) && qList == [] && Drift() == drift
        invariant SameMarks(blocks0, blocks) && (calm ==> Calm(blocks))
        invariant (forall id :: id in blocks <==> id in blocks0)
        invariant old(qList) == [] ==> items == [] && firstFree == old(firstFree)
        decreases |items|
      {
        var item := items[0];
        ReturnStep(itemsPerBlock, blocks, chain, firstFree, needsSweeping, items, live, nextBlock);
        ReturnedIs(blocks, item);
        SameMarksTransitive(blocks0, blocks, Returned(blocks, item));
        var b := blocks[item.block];
        if b.numFree == 0 {
          firstFree := [item.block] + firstFree;
        }
        blocks := blocks[item.block := b.(freeItems := [item.index] + b.freeItems, numFree := b.numFree + 1)];
        items := items[1..];
      }
    }

    /**
     Second loop of CoalesceQuickList.  It starts at the first block of the free list
     but goes on along the chain of all blocks, so an empty block stays exactly if it
     stands before that one in the chain.
     */
    method FreeEmptyBlocks()
      requires Sound([]) && qList == []
      modifies this`blocks, this`chain, this`firstFree, this`totalAllocatedBytes
      ensures Sound([]) && Drift() == old(Drift())
      ensures GivenBack(itemsPerBlock, old(blocks), blocks, old(FromFirstFree(chain, firstFree)))
      ensures SameMarks(old(blocks), blocks) && (old(Calm(blocks)) ==> Calm(blocks))
    {
      hide SoundPool, PoolOk, LiveIs, OthersKept, TotalInUse, Calm, Without, SameMarks, Bytes, BlockOk, MarksOk,
        SweptFrom, GivenBack, Distinct;
      ghost var blocks0, calm, drift := blocks, Calm(blocks), Drift();
      GiveBackNone(itemsPerBlock, blocks);
      FirstFreeInChain(itemsPerBlock, blocks, chain, firstFree, needsSweeping, [], live, nextBlock);
      var rest := FromFirstFree(chain, firstFree);
      ghost var seen := [];
      while rest != []
        invariant Sound([]) && qList == [] && Drift() == drift
        invariant GivenBack(itemsPerBlock, blocks0, blocks, seen) && (calm ==> Calm(blocks))
        invariant Distinct(rest) && (forall id :: id in rest ==> id in blocks)
        invariant seen + rest == old(FromFirstFree(chain, firstFree))
        decreases |rest|
      {
        var b := rest[0];
        TailDistinct(rest);
        RestStep(blocks, rest);
        GiveBackStep(itemsPerBlock, blocks0, blocks, seen, b);
        if blocks[b].numFree == itemsPerBlock && !blocks[b].needsSweeping {
          VacantDrop(itemsPerBlock, blocks, chain, firstFree, needsSweeping, b, live, nextBlock);
          BytesMinus(itemSize, itemsPerBlock, blocks[b].numFree);
          UnlinkChunk(b);
        }
        seen := seen + [b];
        rest := rest[1..];
      }
      assert seen + [] == seen;
      GivenBackMarks(itemsPerBlock, blocks0, blocks, seen);
    }

    /**
     CoalesceQuickList: every quick item goes back to its block's list, what was
     obtained of the budget beyond one block's worth is relinquished, and empty
     blocks are given back.
     */
    method CoalesceQuickList() returns (relinquished: int, ghost looked: seq<nat>)
      requires Sound(qList) && qBudgetObtained >= itemsPerBlock
      modifies this`blocks, this`chain, this`firstFree, this`qList, this`qBudget, this`qBudgetObtained,
        this`totalAllocatedBytes
      ensures Sound(qList) && Budgeted() && qList == [] && qBudgetObtained == itemsPerBlock
      ensures relinquished == Bytes(itemSize, old(qBudgetObtained) - itemsPerBlock)
      ensures Drift() == old(Drift())
      ensures SameMarks(old(blocks), blocks) && (old(Calm(blocks)) ==> Calm(blocks))
      // the blocks looked at are the end of the chain from the first block with a free item on
      ensures EndOf(looked, old(chain))
      ensures if looked == []
              then forall id :: id in old(blocks) && !old(blocks)[id].needsSweeping ==>
                InUse(old(blocks)[id].marks) == itemsPerBlock
              else
                && looked[0] in old(blocks) && !old(blocks)[looked[0]].needsSweeping
                && InUse(old(blocks)[looked[0]].marks) < itemsPerBlock
      ensures looked != [] && old(qList) == [] ==> old(firstFree) != [] && looked[0] == old(firstFree)[0]
      // of these, exactly those leave in which nothing is in use
      ensures forall id :: id in blocks <==>
        id in old(blocks)
        && !(id in looked && !old(blocks)[id].needsSweeping && InUse(old(blocks)[id].marks) == 0)
    {
      hide SoundPool, PoolOk, LiveIs, OthersKept, TotalInUse, Calm, Without, SameMarks, Bytes, BlockOk, MarksOk,
        SweptFrom, GivenBack, Distinct;
      PoolHasItems(itemsPerBlock, blocks, chain, firstFree, needsSweeping, qList, live, nextBlock);
      BytesMinus(itemSize, 0, 0);
      ghost var blocks0 := blocks;
      ReturnQuickItems();
      ghost var blocks1 := blocks;
      relinquished := 0;
      if qBudgetObtained > itemsPerBlock {
        relinquished := Bytes(itemSize, qBudgetObtained - itemsPerBlock);
        qBudgetObtained := itemsPerBlock;
      }
      qBudget := qBudgetObtained;
      looked := FromFirstFree(chain, firstFree);
      ghost var chain1, firstFree1 := chain, firstFree;
      FreeEmptyBlocks();
      SameMarksTransitive(blocks0, blocks1, blocks);
      GivenBackEmpty(itemsPerBlock, blocks0, blocks1, blocks, chain1, firstFree1, needsSweeping, live, nextBlock);
    }

    /**
     QuickListBudgetExhausted: ask for another block's worth.  The collector may meet
     the request by coalescing any allocator's quick list, this one's included.
     */
    method QuickListBudgetExhausted()
      requires Sound(qList) && qBudgetObtained - qBudget == |qList| && qBudgetObtained >= itemsPerBlock && qBudget >= 0
      modifies this`blocks, this`chain, this`firstFree, this`qList, this`qBudget, this`qBudgetObtained,
        this`totalAllocatedBytes
      ensures Sound(qList) && Budgeted() && Drift() == old(Drift())
      ensures SameMarks(old(blocks), blocks) && (old(Calm(blocks)) ==> Calm(blocks))
      ensures (qList == old(qList) && qBudgetObtained == old(qBudgetObtained) + itemsPerBlock)
           || (qList == [] && qBudgetObtained == 2 * itemsPerBlock)
    {
      hide SoundPool, PoolOk, LiveIs, OthersKept, TotalInUse, Calm, Without, SameMarks, Bytes, BlockOk, MarksOk,
        SweptFrom, GivenBack, Distinct;
      PoolHasItems(itemsPerBlock, blocks, chain, firstFree, needsSweeping, qList, live, nextBlock);
      SameMarksSelf(blocks);
      var victim := *;
      if victim {
        var _, _ := CoalesceQuickList();
      }
      qBudgetObtained := qBudgetObtained + itemsPerBlock;
      qBudget := qBudget + itemsPerBlock;
    }

    // ----- allocation -----

    method AllocFromQuickList() returns (x: Item)
      requires Sound(qList) && qList != []
      modifies this`blocks, this`qList, this`qBudget, this`live
      ensures Sound(qList) && x == old(qList)[0] && qList == old(qList)[1..] && qBudget == old(qBudget) + 1
      ensures live == old(live) + {x} && x !in old(live) && Drift() == old(Drift()) - itemSize
      ensures x.block in old(blocks) && x.index < |old(blocks)[x.block].marks| && blocks == Popped(old(blocks), x)
      ensures old(Calm(blocks)) ==> Calm(blocks)
    {
      hide SoundPool, PoolOk, LiveIs, OthersKept, TotalInUse, Calm, Without, SameMarks, Bytes, BlockOk, MarksOk,
        SweptFrom, GivenBack, Distinct;
      PopStep(itemsPerBlock, blocks, chain, firstFree, needsSweeping, qList, live, nextBlock);
      BytesMinus(itemSize, TotalInUse(blocks, chain) + 1, 1);
      x := qList[0];
      qList := qList[1..];
      var b := blocks[x.block];
      blocks := blocks[x.block := b.(marks := b.marks[x.index := White])];
      qBudget := qBudget + 1;
      live := live + {x};
    }

    /** FillQuickList: the free list of one block becomes the quick list.  The budget always allows it. */
    method FillQuickList(b: nat)
      requires Sound(qList) && Budgeted() && qList == [] && b in firstFree
      modifies this`blocks, this`firstFree, this`qList, this`qBudget, this`qBudgetObtained
      ensures Sound(qList) && qList != [] && qBudgetObtained - qBudget == |qList| && qBudget >= 0
      ensures qBudgetObtained == old(qBudgetObtained) && Drift() == old(Drift())
      ensures b in old(blocks) && blocks == Filled(old(blocks), b) && qList == ItemsOf(b, old(blocks)[b].freeItems)
      ensures old(Calm(blocks)) ==> Calm(blocks)
    {
      hide SoundPool, PoolOk, LiveIs, OthersKept, TotalInUse, Calm, Without, SameMarks, Bytes, BlockOk, MarksOk,
        SweptFrom, GivenBack, Distinct;
      hide ItemsOf;
      FillStep(itemsPerBlock, blocks, chain, firstFree, needsSweeping, b, live, nextBlock);
      if qBudget < blocks[b].numFree {
        assert false;
      }
      qList := ItemsOf(b, blocks[b].freeItems);
      qBudget := qBudget - blocks[b].numFree;
      blocks := blocks[b := blocks[b].(freeItems := [], numFree := 0)];
      firstFree := Without(firstFree, b);
    }

    /** The body of the loop that looks for a block with free items: sweep one if that is allowed, else make one. */
    method SweepOrCreate(collecting: bool, ghost fl: seq<nat>, ghost sl: seq<nat>, ghost next: nat)
      requires Sound(qList) && qList == [] && firstFree == []
      requires Sought(fl, sl, next, firstFree, needsSweeping, nextBlock, collecting)
      modifies this`blocks, this`chain, this`nextBlock, this`firstFree, this`needsSweeping, this`totalAllocatedBytes
      ensures Sound(qList) && Drift() == old(Drift()) && (old(Calm(blocks)) ==> Calm(blocks))
      ensures Sought(fl, sl, next, firstFree, needsSweeping, nextBlock, collecting)
      ensures |needsSweeping| < |old(needsSweeping)| || firstFree != []
    {
      hide *;
      assert SoundPool(itemsPerBlock, blocks, chain, firstFree, needsSweeping, qList, live, nextBlock) by {
        SoundIs(qList);
      }
      ghost var was, list := firstFree, needsSweeping;
      if needsSweeping != [] && !collecting {
        HeadPending(itemsPerBlock, blocks, chain, firstFree, needsSweeping, qList, live, nextBlock);
        ghost var id := needsSweeping[0];
        var gone := Sweep(needsSweeping[0], qList);
        SoughtSwept(fl, sl, next, list, nextBlock, was, firstFree, id);
      } else {
        SoughtMade(fl, sl, next, needsSweeping, nextBlock, firstFree, collecting);
        CreateChunk(collecting, qList);
      }
    }

    /** First part of AllocSlow: make the free list non-empty, by sweeping as long as that is allowed. */
    method FindFreeBlock(collecting: bool) returns (b: nat)
      requires Sound(qList) && Budgeted() && qList == []
      modifies this`blocks, this`chain, this`nextBlock, this`firstFree, this`needsSweeping, this`totalAllocatedBytes
      ensures Sound(qList) && Budgeted() && Drift() == old(Drift())
      ensures firstFree != [] && b == firstFree[0] && b in blocks && blocks[b].freeItems != []
      ensures old(Calm(blocks)) ==> Calm(blocks)
      // nothing happens if a block with free items is there already
      ensures old(firstFree) != [] ==> blocks == old(blocks) && chain == old(chain) && nextBlock == old(nextBlock)
      ensures old(firstFree) != [] ==> firstFree == old(firstFree) && needsSweeping == old(needsSweeping)
      // otherwise blocks are swept in their order until one has free items
      ensures EndOf(needsSweeping, old(needsSweeping))
      ensures old(firstFree) == [] ==> |firstFree| == 1
      ensures collecting ==> needsSweeping == old(needsSweeping)
      // and only when there is none left to sweep, or sweeping is not allowed, a block is made
      ensures nextBlock == old(nextBlock) || (nextBlock == old(nextBlock) + 1 && b == old(nextBlock))
      ensures nextBlock != old(nextBlock) ==> old(firstFree) == [] && (collecting || needsSweeping == [])
    {
      hide *;
      BudgetIs();
      ghost var drift, calm, fl, sl, next := Drift(), Calm(blocks), firstFree, needsSweeping, nextBlock;
      SoughtStart(fl, sl, next, collecting);
      while firstFree == []
        invariant Sound(qList) && qList == [] && Drift() == drift && (calm ==> Calm(blocks))
        invariant Sought(fl, sl, next, firstFree, needsSweeping, nextBlock, collecting)
        invariant fl != [] ==> blocks == old(blocks) && chain == old(chain)
        decreases firstFree == [], |needsSweeping|
      {
        SweepOrCreate(collecting, fl, sl, next);
      }
      b := firstFree[0];
      SoughtIs(fl, sl, next, firstFree, needsSweeping, nextBlock, collecting);
      BudgetIs();
      assert b in blocks && blocks[b].freeItems != [] by {
        SoundIs(qList);
        HeadFree(itemsPerBlock, blocks, chain, firstFree, needsSweeping, qList, live, nextBlock);
      }
    }

    /**
     AllocSlow.  While a collection is under way, or in greedy mode, the quick list is
     emptied again, and an item in a block that the collection has yet to finalize
     is marked, so that it survives.
     */
    method AllocSlow(collecting: bool, greedy: bool) returns (x: Item)
      requires Sound(qList) && Budgeted() && qList == [] && Drift() == itemSize
      modifies this`blocks, this`chain, this`nextBlock, this`firstFree, this`needsSweeping, this`totalAllocatedBytes
      modifies this`qList, this`qBudget, this`qBudgetObtained, this`live
      ensures Valid() && live == old(live) + {x} && x !in old(live) && Placed(x)
      ensures if collecting || greedy then qList == [] else blocks[x.block].freeItems == []
      ensures blocks[x.block].marks[x.index] == if collecting && !blocks[x.block].finalized then Marked else White
      ensures old(Calm(blocks)) && !collecting ==> Calm(blocks)
      // a block is made only if none has free items and there is none left to sweep, or sweeping is not allowed
      ensures nextBlock == old(nextBlock) || (nextBlock == old(nextBlock) + 1 && x.block == old(nextBlock))
      ensures nextBlock != old(nextBlock) ==> old(firstFree) == [] && (collecting || needsSweeping == [])
      // and no block is swept as long as there are free items elsewhere
      ensures old(firstFree) != [] || collecting ==> needsSweeping == old(needsSweeping)
      ensures EndOf(needsSweeping, old(needsSweeping))
      ensures old(firstFree) != [] ==> x.block == old(firstFree)[0]
    {
      hide SoundPool, PoolOk, LiveIs, OthersKept, TotalInUse, Calm, Without, SameMarks, Bytes, BlockOk, MarksOk,
        SweptFrom, GivenBack, Distinct;
      hide Popped, Filled, ItemsOf;
      BytesMinus(itemSize, 0, 1);
      var b := FindFreeBlock(collecting);
      ghost var blocks0 := blocks;
      FillQuickList(b);
      ghost var q := qList;
      x := AllocFromQuickList();
      FreshItem(blocks0, b, q, blocks);
      if collecting || greedy {
        if collecting && !blocks[b].finalized {
          MarkStep(itemsPerBlock, blocks, chain, firstFree, needsSweeping, qList, x, Marked, live, nextBlock);
          blocks := blocks[b := blocks[b].(marks := blocks[b].marks[x.index := Marked])];
        }
        ghost var blocks1 := blocks;
        var _, _ := CoalesceQuickList();
        LiveMark(itemsPerBlock, blocks1, blocks, chain, firstFree, needsSweeping, qList, live, nextBlock, x);
      }
    }

    /**
     Alloc: an item that was not live.  The quick list must be empty while a
     collection is under way.
     */
    method Alloc(collecting: bool, greedy: bool) returns (x: Item)
      requires Valid() && (collecting ==> qList == [])
      modifies this`blocks, this`chain, this`nextBlock, this`firstFree, this`needsSweeping, this`totalAllocatedBytes
      modifies this`qList, this`qBudget, this`qBudgetObtained, this`live
      ensures Valid() && live == old(live) + {x} && x !in old(live) && Placed(x)
      ensures (collecting ==> qList == [])
      ensures blocks[x.block].marks[x.index] == if collecting && !blocks[x.block].finalized then Marked else White
      ensures old(Calm(blocks)) && !collecting ==> Calm(blocks)
      ensures old(qList) != [] ==>
        x == old(qList)[0] && qList == old(qList)[1..] && nextBlock == old(nextBlock) && needsSweeping == old(needsSweeping)
      // a block is made only if none has free items and there is none left to sweep, or sweeping is not allowed
      ensures nextBlock == old(nextBlock) || (nextBlock == old(nextBlock) + 1 && x.block == old(nextBlock))
      ensures nextBlock != old(nextBlock) ==> old(firstFree) == [] && (collecting || needsSweeping == [])
      // and no block is swept as long as there are free items elsewhere
      ensures old(firstFree) != [] || collecting ==> needsSweeping == old(needsSweeping)
      ensures EndOf(needsSweeping, old(needsSweeping))
      ensures old(qList) == [] && old(firstFree) != [] ==> x.block == old(firstFree)[0]
    {
      hide SoundPool, PoolOk, LiveIs, OthersKept, TotalInUse, Calm, Without, SameMarks, Bytes, BlockOk, MarksOk,
        SweptFrom, GivenBack, Distinct;
      hide Popped, Filled, ItemsOf;
      BytesMinus(itemSize, 0, 1);
      totalAllocatedBytes := totalAllocatedBytes + itemSize;
      if qList == [] {
        x := AllocSlow(collecting, greedy);
      } else {
        ghost var blocks0 := blocks;
        x := AllocFromQuickList();
        PoppedMark(blocks0, x);
      }
    }

    // ----- explicit deallocation -----

    /**
     Free.  Refused while marking, if the item is queued or the collection has begun
     to reclaim; otherwise the item is dead from now on.
     */
    method Free(x: Item, marking: bool, collecting: bool) returns (aborted: bool)
      requires Valid() && Placed(x) && blocks[x.block].marks[x.index] != Freelist && (collecting ==> marking)
      modifies this`blocks, this`chain, this`firstFree, this`needsSweeping, this`totalAllocatedBytes
      modifies this`qList, this`qBudget, this`qBudgetObtained, this`live
      ensures Valid() && (aborted <==> marking && (collecting || old(blocks)[x.block].marks[x.index] == Queued))
      ensures live == if aborted then old(live) else old(live) - {x}
      ensures aborted ==> blocks == old(blocks) && qList == old(qList)
      // the item goes onto the quick list, and no more is asked of the budget as long as it lasts
      ensures !aborted && !old(blocks)[x.block].needsSweeping && old(qBudget) > 1 ==>
        qList == [x] + old(qList) && qBudget == old(qBudget) - 1 && qBudgetObtained == old(qBudgetObtained)
      ensures old(Calm(blocks)) ==> Calm(blocks)
    {
      hide SoundPool, PoolOk, LiveIs, OthersKept, TotalInUse, Calm, Without, SameMarks, Bytes, BlockOk, MarksOk,
        SweptFrom, GivenBack, Distinct;
      hide FreedMark, Returned;
      aborted := false;
      if marking && (collecting || blocks[x.block].marks[x.index] == Queued) {
        return true;
      }
      var b := blocks[x.block];
      BytesMinus(itemSize, TotalInUse(blocks, chain), 1);
      if b.needsSweeping {
        FreeSlow(x);
      } else {
        PushStep(itemsPerBlock, blocks, chain, firstFree, needsSweeping, qList, x, live, nextBlock);
        FreedMarkIs(blocks, x);
        blocks := blocks[x.block := b.(marks := b.marks[x.index := Freelist])];
        totalAllocatedBytes := totalAllocatedBytes - itemSize;
        live := live - {x};
        qList := [x] + qList;
        qBudget := qBudget - 1;
        if qBudget <= 0 {
          QuickListBudgetExhausted();
        }
      }
    }

    /**
     FreeSlow, for an item whose block awaits sweeping: it goes straight onto the
     block's list, and the block is swept while the quick list is out of the way.
     */
    method FreeSlow(x: Item)
      requires Valid() && Placed(x) && blocks[x.block].marks[x.index] != Freelist && blocks[x.block].needsSweeping
      modifies this`blocks, this`chain, this`firstFree, this`needsSweeping, this`totalAllocatedBytes, this`qList,
        this`live
      ensures Valid() && live == old(live) - {x} && qList == old(qList)
      ensures old(Calm(blocks)) ==> Calm(blocks)
    {
      hide SoundPool, PoolOk, LiveIs, OthersKept, TotalInUse, Calm, Without, SameMarks, Bytes, BlockOk, MarksOk,
        SweptFrom, GivenBack, Distinct;
      hide FreedMark, Returned;
      BytesMinus(itemSize, TotalInUse(blocks, chain), 1);
      PushPendingStep(itemsPerBlock, blocks, chain, firstFree, needsSweeping, qList, x, live, nextBlock);
      PendingIs(blocks, x);
      var b := blocks[x.block];
      b := b.(marks := b.marks[x.index := Freelist]);
      totalAllocatedBytes := totalAllocatedBytes - itemSize;
      live := live - {x};
      var saved := qList;
      qList := [];
      blocks := blocks[x.block := b.(freeItems := [x.index] + b.freeItems, numFree := b.numFree + 1)];
      var blockSwept := Sweep(x.block, saved);
      qList := saved;
    }

    // ----- finalization -----

    /** The marked items of a block. */
    method CountMarkedItems(b: Block) returns (numMarkedItems: nat)
      ensures numMarkedItems == CountMarked(b.marks)
    {
      numMarkedItems := 0;
      var i := 0;
      while i < |b.marks|
        invariant i <= |b.marks| && numMarkedItems == CountMarked(b.marks[..i])
      {
        CountMarkedNext(b.marks, i);
        if b.marks[i] == Marked {
          numMarkedItems := numMarkedItems + 1;
        }
        i := i + 1;
      }
      assert b.marks[..i] == b.marks;
    }

    /** Whether a block has a marked item; the search stops at the first. */
    method AnyMarked(b: Block) returns (any: bool)
      ensures any <==> CountMarked(b.marks) != 0
    {
      MarkedCount(b.marks);
      var i := 0;
      while i < |b.marks|
        invariant i <= |b.marks| && forall j :: 0 <= j < i ==> b.marks[j] != Marked
      {
        if b.marks[i] == Marked {
          return true;
        }
        i := i + 1;
      }
      any := false;
    }

    /** ClearMarks of a block: clear all mark and queued bits, then set both for the items of its free list. */
    method ClearBlockMarks(b: Block) returns (c: Block)
      requires BlockOk(itemsPerBlock, b)
      ensures MarksCleared(b, c) && c.finalized == b.finalized
    {
      c := b;
      var i := 0;
      while i < |c.marks|
        invariant i <= |c.marks| == |b.marks| && c == b.(marks := c.marks)
        invariant forall j :: 0 <= j < i ==> c.marks[j] == White
      {
        c := c.(marks := c.marks[i := White]);
        i := i + 1;
      }
      var k := 0;
      while k < |c.freeItems|
        invariant k <= |c.freeItems| && |c.marks| == |b.marks| && c == b.(marks := c.marks)
        invariant forall j: nat :: j < |c.marks| ==> c.marks[j] == if j in b.freeItems[..k] then Freelist else White
      {
        assert b.freeItems[..k + 1] == b.freeItems[..k] + [b.freeItems[k]];
        c := c.(marks := c.marks[c.freeItems[k] := Freelist]);
        k := k + 1;
      }
      assert b.freeItems[..k] == b.freeItems;
    }

    /** First outcome: nothing is marked; the block is unlinked, to be given back. */
    method FinalizeEmpty(b: nat, ghost wasFree: seq<nat>, ghost reduced: set<Item>)
      requires SoundPool(itemsPerBlock, blocks, chain, wasFree, needsSweeping, [], live, nextBlock) && qList == []
      requires firstFree == Without(wasFree, b) && b in blocks && !blocks[b].needsSweeping
      requires Reduced(blocks, live, b, reduced)
      requires CountMarked(blocks[b].marks) == 0
      modifies this`blocks, this`chain, this`firstFree, this`totalAllocatedBytes, this`live
      ensures Sound([]) && Drift() == old(Drift()) && live == reduced && Alike(old(blocks), blocks, b)
      ensures b !in blocks
    {
      hide SoundPool, PoolOk, LiveIs, TotalInUse, Calm, Without, Bytes, BlockOk, MarksOk, Distinct, CountMarked,
        InUse, Reduced, Alike,
           MarksCleared, Cleared;
      EmptyStep(itemsPerBlock, blocks, chain, wasFree, needsSweeping, b, live, reduced, nextBlock);
      BytesMinus(itemSize, TotalInUse(blocks, chain), itemsPerBlock - blocks[b].numFree);
      UnlinkChunk(b);
      live := reduced;
    }

    /** Second outcome: all items in use are marked; the marks are cleared, and the block goes back where it was. */
    method FinalizeFull(b: nat, putOnFreeList: bool, ghost wasFree: seq<nat>, ghost reduced: set<Item>)
      requires SoundPool(itemsPerBlock, blocks, chain, wasFree, needsSweeping, [], live, nextBlock) && qList == []
      requires firstFree == Without(wasFree, b) && b in blocks && !blocks[b].needsSweeping
      requires Reduced(blocks, live, b, reduced)
      requires CountMarked(blocks[b].marks) == itemsPerBlock - blocks[b].numFree && (putOnFreeList <==> b in wasFree)
      modifies this`blocks, this`firstFree, this`live
      ensures Sound([]) && Drift() == old(Drift()) && live == reduced && Alike(old(blocks), blocks, b)
      ensures b in blocks && Cleared(blocks[b]) && !blocks[b].needsSweeping && blocks[b].finalized
    {
      hide SoundPool, PoolOk, LiveIs, TotalInUse, Calm, Without, Bytes, BlockOk, MarksOk, Distinct, CountMarked,
        InUse, Reduced, Alike,
           MarksCleared, Cleared;
      BlockFacts(itemsPerBlock, blocks, chain, wasFree, needsSweeping, b, live, nextBlock);
      UnlistedIs(wasFree, b);
      var c := ClearBlockMarks(blocks[b]);
      ClearedAnyway(blocks[b], c, true);
      c := c.(finalized := true);
      ClearStep(itemsPerBlock, blocks, chain, wasFree, needsSweeping, b, c, live, reduced, nextBlock);
      blocks := blocks[b := c];
      if putOnFreeList {
        firstFree := [b] + firstFree;
      }
      live := reduced;
    }

    /** Third outcome, and the usual one of LazySweepPass: the block is put off. */
    method FinalizeLater(b: nat, ghost wasFree: seq<nat>, ghost reduced: set<Item>)
      requires SoundPool(itemsPerBlock, blocks, chain, wasFree, needsSweeping, [], live, nextBlock) && qList == []
      requires firstFree == Without(wasFree, b) && b in blocks && !blocks[b].needsSweeping
      requires Reduced(blocks, live, b, reduced)
      requires forall i :: 0 <= i < |blocks[b].marks| ==> blocks[b].marks[i] != Queued
      modifies this`blocks, this`needsSweeping, this`live
      ensures Sound([]) && Drift() == old(Drift()) && live == reduced && Alike(old(blocks), blocks, b)
      ensures b in blocks && Cleared(blocks[b]) && blocks[b].needsSweeping && blocks[b].finalized
    {
      hide SoundPool, PoolOk, LiveIs, TotalInUse, Calm, Without, Bytes, BlockOk, MarksOk, Distinct, CountMarked,
        InUse, Reduced, Alike,
           MarksCleared, Cleared;
      PendStep(itemsPerBlock, blocks, chain, wasFree, needsSweeping, b, live, reduced, nextBlock);
      blocks := blocks[b := blocks[b].(needsSweeping := true, finalized := true)];
      needsSweeping := [b] + needsSweeping;
      live := reduced;
    }

    /** FinalizationPass for one block, and its three outcomes. */
    method FinalizeBlock(b: nat)
      requires Sound([]) && qList == [] && b in blocks && !blocks[b].needsSweeping
      requires forall i :: 0 <= i < |blocks[b].marks| ==> blocks[b].marks[i] != Queued
      modifies this`blocks, this`chain, this`firstFree, this`needsSweeping, this`totalAllocatedBytes, this`live
      ensures Sound([]) && Drift() == old(Drift()) && Reduced(old(blocks), old(live), b, live)
      ensures Alike(old(blocks), blocks, b) && (b in blocks ==> Cleared(blocks[b]))
      // the block leaves if nothing in it is marked; if something else is in use besides, it is swept later
      ensures b in blocks <==> Marked in old(blocks)[b].marks
      ensures b in blocks ==> Outcome(false, old(blocks)[b], blocks[b])
    {
      hide SoundPool, PoolOk, LiveIs, TotalInUse, Calm, Without, Bytes, BlockOk, MarksOk, Distinct, CountMarked,
        InUse, Reduced, Alike,
           MarksCleared, Cleared;
      ghost var reduced := MarkedOnly(blocks, live, b);
      var putOnFreeList := false;
      ghost var wasFree := firstFree;
      UnlistedIs(firstFree, b);
      AnyMarkedIs(blocks[b].marks);
      BlockFacts(itemsPerBlock, blocks, chain, firstFree, needsSweeping, b, live, nextBlock);
      UnmarkedLeft(itemsPerBlock, blocks[b], b);
      if b in firstFree {
        putOnFreeList := true;
        firstFree := Without(firstFree, b);
      }
      var numMarkedItems := CountMarkedItems(blocks[b]);
      if numMarkedItems == 0 {
        FinalizeEmpty(b, wasFree, reduced);
      } else if numMarkedItems == itemsPerBlock - blocks[b].numFree {
        FinalizeFull(b, putOnFreeList, wasFree, reduced);
      } else {
        FinalizeLater(b, wasFree, reduced);
      }
    }

    /** LazySweepPass for one block: given back at once if nothing is marked, put off otherwise. */
    method LazySweepBlock(b: nat)
      requires Sound([]) && qList == [] && b in blocks && !blocks[b].needsSweeping
      requires forall i :: 0 <= i < |blocks[b].marks| ==> blocks[b].marks[i] != Queued
      modifies this`blocks, this`chain, this`firstFree, this`needsSweeping, this`totalAllocatedBytes, this`live
      ensures Sound([]) && Drift() == old(Drift()) && Reduced(old(blocks), old(live), b, live)
      ensures Alike(old(blocks), blocks, b) && (b in blocks ==> Cleared(blocks[b]))
      ensures b in blocks <==> Marked in old(blocks)[b].marks
      ensures b in blocks ==> Outcome(true, old(blocks)[b], blocks[b])
    {
      hide SoundPool, PoolOk, LiveIs, TotalInUse, Calm, Without, Bytes, BlockOk, MarksOk, Distinct, CountMarked,
        InUse, Reduced, Alike,
           MarksCleared, Cleared;
      ghost var reduced := MarkedOnly(blocks, live, b);
      ghost var wasFree := firstFree;
      UnlistedIs(firstFree, b);
      AnyMarkedIs(blocks[b].marks);
      var anyMarkedItems := AnyMarked(blocks[b]);
      if b in firstFree {
        firstFree := Without(firstFree, b);
      }
      if !anyMarkedItems {
        FinalizeEmpty(b, wasFree, reduced);
      } else {
        FinalizeLater(b, wasFree, reduced);
      }
    }

    /** FinalizationPass: go through all blocks in the order they are linked in. */
    method FinalizationPass()
      requires Valid() && qList == [] && MarkingDone(blocks)
      modifies this`blocks, this`chain, this`firstFree, this`needsSweeping, this`totalAllocatedBytes, this`live
      ensures Valid() && Calm(blocks)
      ensures forall x :: x in live <==> x in old(live) && MarkedIn(old(blocks), x)
      ensures forall id :: id in blocks <==> id in old(blocks) && Marked in old(blocks)[id].marks
      ensures forall id :: id in blocks ==> Outcome(false, old(blocks)[id], blocks[id])
    {
      hide SoundPool, PoolOk, LiveIs, TotalInUse, Calm, Without, Bytes, Distinct, Reduced, Alike, PassedOver,
        Survivors, MarkingDone, Outcome,
           Cleared, MarkedIn;
      ghost var blocks0, live0 := blocks, live;
      var order := chain;
      PassStart(false, itemsPerBlock, blocks, chain, firstFree, needsSweeping, live, nextBlock);
      SoundLive(itemsPerBlock, blocks, chain, firstFree, needsSweeping, [], live, nextBlock);
      var k := 0;
      while k < |order|
        invariant k <= |order| && Sound([]) && qList == [] && Drift() == 0
        invariant PassedOver(false, blocks0, blocks, order, k) && Survivors(blocks0, live0, order, k, live)
      {
        PassHead(false, blocks0, blocks, order, k);
        ghost var was, wasLive := blocks, live;
        FinalizeBlock(order[k]);
        PassNext(false, blocks0, was, blocks, order, k, live0, wasLive, live);
        k := k + 1;
      }
      PassOver(false, itemsPerBlock, blocks0, live0, order, blocks, chain, firstFree, needsSweeping, live, nextBlock);
    }

    /** LazySweepPass, for allocators without finalizers. */
    method LazySweepPass()
      requires Valid() && qList == [] && MarkingDone(blocks)
      modifies this`blocks, this`chain, this`firstFree, this`needsSweeping, this`totalAllocatedBytes, this`live
      ensures Valid() && Calm(blocks)
      ensures forall x :: x in live <==> x in old(live) && MarkedIn(old(blocks), x)
      ensures forall id :: id in blocks <==> id in old(blocks) && Marked in old(blocks)[id].marks
      ensures forall id :: id in blocks ==> Outcome(true, old(blocks)[id], blocks[id])
    {
      hide SoundPool, PoolOk, LiveIs, TotalInUse, Calm, Without, Bytes, Distinct, Reduced, Alike, PassedOver,
        Survivors, MarkingDone, Outcome,
           Cleared, MarkedIn;
      ghost var blocks0, live0 := blocks, live;
      var order := chain;
      PassStart(true, itemsPerBlock, blocks, chain, firstFree, needsSweeping, live, nextBlock);
      SoundLive(itemsPerBlock, blocks, chain, firstFree, needsSweeping, [], live, nextBlock);
      var k := 0;
      while k < |order|
        invariant k <= |order| && Sound([]) && qList == [] && Drift() == 0
        invariant PassedOver(true, blocks0, blocks, order, k) && Survivors(blocks0, live0, order, k, live)
      {
        PassHead(true, blocks0, blocks, order, k);
        ghost var was, wasLive := blocks, live;
        LazySweepBlock(order[k]);
        PassNext(true, blocks0, was, blocks, order, k, live0, wasLive, live);
        k := k + 1;
      }
      PassOver(true, itemsPerBlock, blocks0, live0, order, blocks, chain, firstFree, needsSweeping, live, nextBlock);
    }

    /** Finalize: from now on exactly the items that were marked are live. */
    method Finalize()
      requires Valid() && qList == [] && MarkingDone(blocks)
      modifies this`blocks, this`chain, this`firstFree, this`needsSweeping, this`totalAllocatedBytes, this`live,
        this`finalized
      ensures Valid() && Calm(blocks) && finalized
      ensures forall x :: x in live <==> x in old(live) && MarkedIn(old(blocks), x)
      ensures forall id :: id in blocks <==> id in old(blocks) && Marked in old(blocks)[id].marks
      ensures forall id :: id in blocks ==> Outcome(!containsFinalizedObjects, old(blocks)[id], blocks[id])
    {
      hide SoundPool, TotalInUse, Calm, MarkingDone, MarkedIn, Bytes;
      finalized := true;
      if containsFinalizedObjects {
        FinalizationPass();
      } else {
        LazySweepPass();
      }
    }

    /** The marker queues or marks an item, or takes its mark away. */
    method SetMark(x: Item, m: Mark)
      requires Valid() && x in live && Placed(x) && m != Freelist && (blocks[x.block].needsSweeping ==> m != White)
      modifies this`blocks
      ensures Valid() && Placed(x) && blocks[x.block].marks[x.index] == m
      ensures forall y: Item :: y != x && old(Placed(y)) ==>
        Placed(y) && blocks[y.block].marks[y.index] == old(blocks[y.block].marks[y.index])
    {
      MarkStep(itemsPerBlock, blocks, chain, firstFree, needsSweeping, qList, x, m, live, nextBlock);
      hide SoundPool, TotalInUse, Bytes;
      blocks := blocks[x.block := blocks[x.block].(marks := blocks[x.block].marks[x.index := m])];
    }

    /** GetAllocStats: the number of items in use, and the number there is room for. */
    method GetAllocStats() returns (numAlloc: int, maxAlloc: int)
      requires Valid()
      ensures numAlloc == TotalInUse(blocks, chain) && maxAlloc == Bytes(itemsPerBlock, |chain|)
      ensures totalAllocatedBytes == Bytes(itemSize, numAlloc)
    {
      hide SoundPool, TotalInUse, Bytes, CounterTotal;
      StatsExact(itemsPerBlock, blocks, chain, firstFree, needsSweeping, qList, live, nextBlock);
      CounterNone(itemsPerBlock, blocks);
      BytesMinus(itemsPerBlock, 0, 0);
      numAlloc, maxAlloc := 0, 0;
      var k := 0;
      while k < |chain|
        invariant k <= |chain| && numAlloc == CounterTotal(itemsPerBlock, blocks, chain[..k])
        invariant maxAlloc == Bytes(itemsPerBlock, k)
      {
        CounterNext(itemsPerBlock, blocks, chain, k);
        BytesMinus(itemsPerBlock, k + 1, 1);
        maxAlloc := maxAlloc + itemsPerBlock;
        numAlloc := numAlloc + (itemsPerBlock - blocks[chain[k]].numFree);
        k := k + 1;
      }
      assert chain[..k] == chain;
      numAlloc := numAlloc - (qBudgetObtained - qBudget);
    }

    /** The end of GC::Finalize: the finalized value flips, and with it the state of all blocks. */
    method EndFinalize()
      requires Valid()
      modifies this`blocks, this`finalized
      ensures Valid() && !finalized && blocks == Unflagged(old(blocks)) && (old(Calm(blocks)) ==> Calm(blocks))
    {
      UnflaggedStep(itemsPerBlock, blocks, chain, firstFree, needsSweeping, qList, live, nextBlock);
      hide SoundPool, TotalInUse, Bytes, Calm, Unflagged;
      finalized := false;
      blocks := Unflagged(blocks);
    }

    // ----- from one collection to the next -----

    /** A block's sweep that is still due, if there is one and the quick list is empty. */
    method SweepOne()
      requires Valid() && Calm(blocks)
      modifies this`blocks, this`chain, this`firstFree, this`needsSweeping, this`totalAllocatedBytes
      ensures Valid() && Calm(blocks)
      ensures needsSweeping == if qList == [] && old(needsSweeping) != [] then old(needsSweeping)[1..] else old(needsSweeping)
    {
      SoundLive(itemsPerBlock, blocks, chain, firstFree, needsSweeping, qList, live, nextBlock);
      hide SoundPool, TotalInUse, Bytes, Calm, Without;
      if qList == [] && needsSweeping != [] {
        HeadPending(itemsPerBlock, blocks, chain, firstFree, needsSweeping, qList, live, nextBlock);
        var gone := Sweep(needsSweeping[0], qList);
      }
    }

    /** One request of the program between collections. */
    method Serve(a: Request) returns (e: Event)
      requires Valid() && Calm(blocks)
      modifies this`blocks, this`chain, this`nextBlock, this`firstFree, this`needsSweeping, this`totalAllocatedBytes
      modifies this`qList, this`qBudget, this`qBudgetObtained, this`live
      ensures Valid() && Calm(blocks) && Answers(a, e, old(live))
      ensures live == After(old(live), e)
      ensures a.Reclaim? && old(qList) == [] && old(needsSweeping) != [] ==> needsSweeping == old(needsSweeping)[1..]
    {
      SoundLive(itemsPerBlock, blocks, chain, firstFree, needsSweeping, qList, live, nextBlock);
      hide SoundPool, TotalInUse, Bytes, Calm, Without;
      e := Nothing;
      match a {
        case Allocate(greedy) =>
          var x := Alloc(false, greedy);
          e := Allocated(x);
        case Release(x) =>
          if Live(blocks, x) {
            var aborted := Free(x, false, false);
            e := Freed(x);
          }
        case Reclaim => SweepOne();
      }
    }

    /** Requests in their order; a sweep may happen at any time. */
    method Mutate(actions: seq<Request>) returns (events: seq<Event>)
      requires Valid() && Calm(blocks)
      modifies this`blocks, this`chain, this`nextBlock, this`firstFree, this`needsSweeping, this`totalAllocatedBytes
      modifies this`qList, this`qBudget, this`qBudgetObtained, this`live
      ensures Valid() && Calm(blocks)
      ensures Answered(old(live), actions, events) && live == Replay(old(live), events)
    {
      hide SoundPool, TotalInUse, Bytes, Calm, Without, Answers;
      events := [];
      for k := 0 to |actions|
        invariant Valid() && Calm(blocks)
        invariant Answered(old(live), actions[..k], events) && live == Replay(old(live), events)
      {
        var e := Serve(actions[k]);
        AnsweredNext(old(live), actions[..k], events, actions[k], e);
        assert actions[..k + 1] == actions[..k] + [actions[k]];
        events := events + [e];
      }
      assert actions[..|actions|] == actions;
    }

    /**
     Lazy sweeping refines eager sweeping: from Finalize through any run of requests to
     the sweep that begins the next collection, the items in use are the marked ones,
     as changed by the requests in their order, and all bits are clear.
     */
    method Cycle(actions: seq<Request>) returns (events: seq<Event>)
      requires Valid() && qList == [] && MarkingDone(blocks)
      modifies this
      ensures Valid() && needsSweeping == [] && AllClear(blocks, live) && !finalized
      ensures var survivors := MarkedOf(old(blocks), old(live));
        Answered(survivors, actions, events) && live == Replay(survivors, events)
    {
      hide SoundPool, TotalInUse, Bytes, Calm, Without, MarkingDone, AllClear, Answered;
      ghost var marked := MarkedOf(blocks, live);
      Finalize();
      assert live == marked;
      EndFinalize();
      events := Mutate(actions);
      var _, _ := CoalesceQuickList();
      SweepNeedsSweeping();
      SweptClear(itemsPerBlock, blocks, chain, firstFree, qList, live, nextBlock);
    }
  }
}
