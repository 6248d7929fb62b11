/**
 The end of a collection in a small-object allocator: what each block becomes when
 the marks are read, and which items are live from then on.
 */
module AllocFinalize {
  import opened AllocPool
  import opened AllocSteps

  function CountMarked(marks: seq<Mark>): (k: nat)
    ensures k <= |marks|
  {
    if marks == [] then 0 else CountMarked(marks[..|marks| - 1]) + if marks[|marks| - 1] == Marked then 1 else 0
  }

  lemma CountMarkedNext(marks: seq<Mark>, i: nat)
    requires i < |marks|
    ensures CountMarked(marks[..i + 1]) == CountMarked(marks[..i]) + if marks[i] == Marked then 1 else 0
  {
    assert marks[..i + 1][..i] == marks[..i];
  }

  /** As many marked items as items in use: all of them are marked. */
  lemma {:induction false} MarkedCount(marks: seq<Mark>)
    ensures CountMarked(marks) <= InUse(marks)
    ensures CountMarked(marks) == 0 <==> forall i :: 0 <= i < |marks| ==> marks[i] != Marked
    ensures CountMarked(marks) == InUse(marks) <==>
      forall i :: 0 <= i < |marks| ==> marks[i] == Freelist || marks[i] == Marked
  {
    if marks != [] { MarkedCount(marks[..|marks| - 1]); }
  }

  /** Nothing is on a mark stack, and nothing awaits sweeping. */
  ghost predicate MarkingDone(blocks: Blocks) {
    forall id :: id in blocks ==> !blocks[id].needsSweeping && forall i :: 0 <= i < |blocks[id].marks| ==> blocks[id].marks[i] != Queued
  }

  /** Of the items of block `id` only the marked ones stay live. */
  ghost predicate Reduced(blocks: Blocks, live: set<Item>, id: nat, live': set<Item>)
    requires id in blocks
  {
    forall x :: x in live' <==> x in live && (x.block == id ==> x.index < |blocks[id].marks| && blocks[id].marks[x.index] == Marked)
  }

  /** What is left of the live items when only the marked ones of block `id` stay. */
  ghost function MarkedOnly(blocks: Blocks, live: set<Item>, id: nat): (live': set<Item>)
    requires id in blocks
    ensures Reduced(blocks, live, id, live')
  {
    set x | x in live && (x.block == id ==> x.index < |blocks[id].marks| && blocks[id].marks[x.index] == Marked)
  }

  /** Marks of a block that has been finalized and needs no sweep. */
  ghost predicate Cleared(b: Block) {
    !b.needsSweeping ==> forall i :: 0 <= i < |b.marks| ==> b.marks[i] == White || b.marks[i] == Freelist
  }

  // ----- outcome 1: nothing marked, the block leaves -----

  lemma EmptyLive(blocks: Blocks, id: nat, live: set<Item>, live': set<Item>)
    requires id in blocks && LiveIs(blocks, live) && Reduced(blocks, live, id, live')
    requires CountMarked(blocks[id].marks) == 0
    ensures LiveIs(blocks - {id}, live')
  {
    MarkedCount(blocks[id].marks);
    forall x ensures Live(blocks - {id}, x) <==> x in live' {
      assert Live(blocks, x) <==> x in live;
    }
  }

  lemma AnyMarkedIs(marks: seq<Mark>)
    ensures CountMarked(marks) == 0 <==> Marked !in marks
  {
    MarkedCount(marks);
  }

  /** A block in which not all items in use are marked has one without a mark. */
  lemma UnmarkedLeft(n: nat, b: Block, id: nat)
    requires BlockOk(n, b) && MarksOk(b, id, []) && forall i :: 0 <= i < |b.marks| ==> b.marks[i] != Queued
    ensures CountMarked(b.marks) == n - b.numFree <==> White !in b.marks
  {
    InUseIs(n, b, id, []);
    MarkedCount(b.marks);
    hide InUse, CountMarked, Distinct;
  }

  // ----- outcome 2: all in use are marked, the marks are cleared -----

  /** ClearMarks: all bits off, and both on again for the items of the block's list. */
  ghost predicate MarksCleared(b: Block, b': Block) {
    && |b'.marks| == |b.marks| && b'.freeItems == b.freeItems && b'.numFree == b.numFree
    && b'.needsSweeping == b.needsSweeping
    && forall i: nat :: i < |b.marks| ==> b'.marks[i] == if i in b.freeItems then Freelist else White
  }

  lemma ClearLive(n: nat, blocks: Blocks, id: nat, b': Block, live: set<Item>, live': set<Item>)
    requires id in blocks && BlockOk(n, blocks[id]) && MarksOk(blocks[id], id, []) && !blocks[id].needsSweeping
    requires MarksCleared(blocks[id], b') && CountMarked(blocks[id].marks) == n - blocks[id].numFree
    requires LiveIs(blocks, live) && Reduced(blocks, live, id, live')
    ensures LiveIs(blocks[id := b'], live') && Cleared(b')
  {
    InUseIs(n, blocks[id], id, []);
    MarkedCount(blocks[id].marks);
    forall x ensures Live(blocks[id := b'], x) <==> x in live' {
      assert Live(blocks, x) <==> x in live;
    }
  }

  lemma ClearKeeps(n: nat, blocks: Blocks, chain: seq<nat>, fl: seq<nat>, sl: seq<nat>, id: nat, b': Block)
    requires PoolOk(n, blocks, chain, fl, sl, []) && id in blocks && MarksCleared(blocks[id], b')
    requires !blocks[id].needsSweeping
    ensures PoolOk(n, blocks[id := b'], chain, fl, sl, [])
    ensures PoolOk(n, blocks[id := b'], chain, if id in fl then [id] + Without(fl, id) else fl, sl, [])
    ensures TotalInUse(blocks[id := b'], chain) == TotalInUse(blocks, chain)
  {
    var b := blocks[id];
    assert BlockOk(n, b) && MarksOk(b, id, []);
    InUseSame(b.marks, b'.marks);
    TotalUpdate(blocks, chain, id, b');
    WithoutDistinct(fl, id);
    FrontDistinct(Without(fl, id), id);
    hide TotalInUse, InUse, Without, BlocksOk, QuickOk;
    PoolUpdate(n, blocks, chain, fl, sl, [], id, b', fl, sl, []);
    if id in fl { PoolUpdate(n, blocks, chain, fl, sl, [], id, b', [id] + Without(fl, id), sl, []); }
  }

  // ----- outcome 3: some are not marked, the block is to be swept later -----

  lemma PendLive(blocks: Blocks, id: nat, b': Block, live: set<Item>, live': set<Item>)
    requires id in blocks && !blocks[id].needsSweeping && b'.needsSweeping && b'.marks == blocks[id].marks
    requires forall i :: 0 <= i < |b'.marks| ==> b'.marks[i] != Queued
    requires LiveIs(blocks, live) && Reduced(blocks, live, id, live')
    ensures LiveIs(blocks[id := b'], live') && Cleared(b')
  {
    forall x ensures Live(blocks[id := b'], x) <==> x in live' {
      assert Live(blocks, x) <==> x in live;
    }
  }

  lemma PendKeeps(n: nat, blocks: Blocks, chain: seq<nat>, fl: seq<nat>, sl: seq<nat>, id: nat, finalized: bool)
    requires PoolOk(n, blocks, chain, fl, sl, []) && id in blocks && !blocks[id].needsSweeping
    ensures var b' := blocks[id].(needsSweeping := true, finalized := finalized);
      && PoolOk(n, blocks[id := b'], chain, Without(fl, id), [id] + sl, [])
      && TotalInUse(blocks[id := b'], chain) == TotalInUse(blocks, chain)
  {
    var b := blocks[id];
    var b' := b.(needsSweeping := true, finalized := finalized);
    assert BlockOk(n, b) && MarksOk(b, id, []);
    TotalUpdate(blocks, chain, id, b');
    WithoutDistinct(fl, id);
    FrontDistinct(sl, id);
    hide TotalInUse, InUse, Without, BlocksOk, QuickOk;
    PoolUpdate(n, blocks, chain, fl, sl, [], id, b', Without(fl, id), [id] + sl, []);
  }

  // ----- the pass over all blocks -----

  /**
   A block that stays is put off if something in it is in use without a mark; in the lazy pass it is
   so in any case.
   */
  ghost predicate Outcome(lazy: bool, b: Block, b': Block) {
    b'.finalized && (b'.needsSweeping <==> lazy || White in b.marks)
  }

  /** The first `k` blocks of the chain have been finalized; the others are as they were. */
  ghost predicate PassedOver(lazy: bool, blocks0: Blocks, blocks: Blocks, chain0: seq<nat>, k: nat) {
    && k <= |chain0| && Distinct(chain0) && (forall id :: id in chain0 <==> id in blocks0)
    && (forall id :: id in blocks ==> id in blocks0)
    && (forall id :: id in chain0[k..] ==> id in blocks && blocks[id] == blocks0[id])
    && (forall id :: id in blocks && id in chain0[..k] ==> Cleared(blocks[id]) && Outcome(lazy, blocks0[id], blocks[id]))
    && forall id :: id in blocks0 && id in chain0[..k] ==> (id in blocks <==> Marked in blocks0[id].marks)
  }

  /** Of the blocks passed over only marked items are left. */
  ghost predicate Survivors(blocks0: Blocks, live0: set<Item>, chain0: seq<nat>, k: nat, live: set<Item>) {
    && k <= |chain0|
    && forall x :: x in live <==> x in live0 && (x.block in chain0[..k] ==> MarkedIn(blocks0, x))
  }

  predicate MarkedIn(blocks: Blocks, x: Item) {
    x.block in blocks && x.index < |blocks[x.block].marks| && blocks[x.block].marks[x.index] == Marked
  }

  lemma PassStep(lazy: bool, blocks0: Blocks, blocks: Blocks, blocks': Blocks, chain0: seq<nat>, k: nat,
                 live0: set<Item>, live: set<Item>, live': set<Item>)
    requires PassedOver(lazy, blocks0, blocks, chain0, k) && Survivors(blocks0, live0, chain0, k, live) && k < |chain0|
    requires var id := chain0[k];
      && id in blocks && blocks[id] == blocks0[id] && Reduced(blocks, live, id, live')
      && (forall y :: y != id ==> (y in blocks' <==> y in blocks) && (y in blocks ==> blocks'[y] == blocks[y]))
      && (id in blocks' ==> Cleared(blocks'[id]) && Outcome(lazy, blocks[id], blocks'[id]))
      && (id in blocks' <==> Marked in blocks[id].marks)
    ensures PassedOver(lazy, blocks0, blocks', chain0, k + 1) && Survivors(blocks0, live0, chain0, k + 1, live')
  {
    ChainStep(chain0, k);
    BlocksStep(lazy, blocks0, blocks, blocks', chain0, k);
    LiveStep(blocks0, blocks, chain0, k, live0, live, live');
  }

  /** The chain around its block `k`. */
  lemma ChainStep(chain0: seq<nat>, k: nat)
    requires Distinct(chain0) && k < |chain0|
    ensures chain0[k] !in chain0[..k] && chain0[k] !in chain0[k + 1..]
    ensures forall y :: y in chain0[..k + 1] <==> y in chain0[..k] || y == chain0[k]
    ensures forall y :: y in chain0[k..] <==> y in chain0[k + 1..] || y == chain0[k]
  {
    assert chain0[..k + 1] == chain0[..k] + [chain0[k]];
    assert chain0[k..] == [chain0[k]] + chain0[k + 1..];
    SuffixDistinct(chain0, k);
    TailDistinct(chain0[k..]);
    PrefixMisses(chain0, k);
  }

  lemma BlocksStep(lazy: bool, blocks0: Blocks, blocks: Blocks, blocks': Blocks, chain0: seq<nat>, k: nat)
    requires PassedOver(lazy, blocks0, blocks, chain0, k) && k < |chain0|
    requires var id := chain0[k];
      && id in blocks && blocks[id] == blocks0[id]
      && (forall y :: y != id ==> (y in blocks' <==> y in blocks) && (y in blocks ==> blocks'[y] == blocks[y]))
      && (id in blocks' ==> Cleared(blocks'[id]) && Outcome(lazy, blocks[id], blocks'[id]))
      && (id in blocks' <==> Marked in blocks[id].marks)
    ensures PassedOver(lazy, blocks0, blocks', chain0, k + 1)
  {
    hide Outcome, Cleared;
    ChainStep(chain0, k);
    hide Distinct;
  }

  lemma LiveStep(blocks0: Blocks, blocks: Blocks, chain0: seq<nat>, k: nat,
                 live0: set<Item>, live: set<Item>, live': set<Item>)
    requires Survivors(blocks0, live0, chain0, k, live) && Distinct(chain0) && k < |chain0|
    requires chain0[k] in blocks && chain0[k] in blocks0 && blocks[chain0[k]] == blocks0[chain0[k]]
    requires Reduced(blocks, live, chain0[k], live')
    ensures Survivors(blocks0, live0, chain0, k + 1, live')
  {
    ChainStep(chain0, k);
    hide Distinct;
  }

  lemma SuffixDistinct(s: seq<nat>, k: nat)
    requires Distinct(s) && k <= |s|
    ensures Distinct(s[k..])
  {
    assert s == s[..k] + s[k..];
    forall x ensures multiset(s[k..])[x] <= 1 {
      assert multiset(s[..k] + s[k..])[x] == multiset(s[..k])[x] + multiset(s[k..])[x];
      assert multiset(s)[x] <= 1;
    }
  }

  lemma PrefixMisses(s: seq<nat>, k: nat)
    requires Distinct(s) && k < |s|
    ensures s[k] !in s[..k]
  {
    SuffixDistinct(s, 0);
    assert s == s[..k] + s[k..];
    assert multiset(s[..k] + s[k..])[s[k]] == multiset(s[..k])[s[k]] + multiset(s[k..])[s[k]];
    assert multiset(s)[s[k]] <= 1;
    assert s[k] in s[k..];
  }

  /** All passed over: exactly the marked items are live, and no mark is left outside the blocks to be swept. */
  lemma PassEnd(lazy: bool, blocks0: Blocks, blocks: Blocks, chain0: seq<nat>, live0: set<Item>, live: set<Item>)
    requires PassedOver(lazy, blocks0, blocks, chain0, |chain0|) && Survivors(blocks0, live0, chain0, |chain0|, live)
    requires LiveIs(blocks0, live0) && LiveIs(blocks, live)
    ensures forall x :: x in live <==> x in live0 && MarkedIn(blocks0, x)
    ensures Calm(blocks) && forall id :: id in blocks <==> id in blocks0 && Marked in blocks0[id].marks
    ensures forall id :: id in blocks ==> id in blocks0 && Outcome(lazy, blocks0[id], blocks[id])
  {
    assert chain0[..|chain0|] == chain0;
    forall x ensures x in live <==> x in live0 && MarkedIn(blocks0, x) {
      assert x in live0 ==> Live(blocks0, x);
    }
    forall x | Live(blocks, x) && !blocks[x.block].needsSweeping ensures blocks[x.block].marks[x.index] == White {
      assert x.block in blocks0;
      assert Cleared(blocks[x.block]);
    }
  }

  // ----- the outcomes on the whole state -----

  /** All blocks but `id` are as they were. */
  ghost predicate Alike(a: Blocks, b: Blocks, id: nat) {
    forall y :: y != id ==> (y in b <==> y in a) && (y in a ==> b[y] == a[y])
  }

  lemma EmptyStep(n: nat, blocks: Blocks, chain: seq<nat>, fl: seq<nat>, sl: seq<nat>, id: nat, live: set<Item>,
                  live': set<Item>, next: nat)
    requires SoundPool(n, blocks, chain, fl, sl, [], live, next) && id in blocks && !blocks[id].needsSweeping
    requires Reduced(blocks, live, id, live') && CountMarked(blocks[id].marks) == 0
    ensures SoundPool(n, blocks - {id}, Without(chain, id), Without(fl, id), sl, [], live', next)
    ensures TotalInUse(blocks - {id}, Without(chain, id)) == TotalInUse(blocks, chain) - (n - blocks[id].numFree)
    ensures Alike(blocks, blocks - {id}, id) && Without(Without(fl, id), id) == Without(fl, id)
  {
    assert BlockOk(n, blocks[id]) && MarksOk(blocks[id], id, []);
    hide PoolOk, TotalInUse, LiveIs, MarksOk, Without, CountMarked, Reduced, Distinct;
    WithoutTwice(n, blocks, chain, fl, sl, [], id);
    DropKeeps(n, blocks, chain, fl, sl, [], id);
    EmptyLive(blocks, id, live, live');
  }

  lemma WithoutTwice(n: nat, blocks: Blocks, chain: seq<nat>, fl: seq<nat>, sl: seq<nat>, q: seq<Item>, id: nat)
    requires PoolOk(n, blocks, chain, fl, sl, q)
    ensures Without(Without(fl, id), id) == Without(fl, id)
  {
    WithoutDistinct(fl, id);
  }

  lemma ClearStep(n: nat, blocks: Blocks, chain: seq<nat>, fl: seq<nat>, sl: seq<nat>, id: nat, b': Block,
                  live: set<Item>, live': set<Item>, next: nat)
    requires SoundPool(n, blocks, chain, fl, sl, [], live, next) && id in blocks && !blocks[id].needsSweeping
    requires MarksCleared(blocks[id], b') && CountMarked(blocks[id].marks) == n - blocks[id].numFree
    requires Reduced(blocks, live, id, live')
    ensures SoundPool(n, blocks[id := b'], chain, if id in fl then [id] + Without(fl, id) else fl, sl, [], live', next)
    ensures TotalInUse(blocks[id := b'], chain) == TotalInUse(blocks, chain)
    ensures Alike(blocks, blocks[id := b'], id) && Cleared(b')
  {
    assert BlockOk(n, blocks[id]) && MarksOk(blocks[id], id, []);
    hide PoolOk, TotalInUse, LiveIs, MarksOk, Without, CountMarked, Reduced, MarksCleared;
    ClearKeeps(n, blocks, chain, fl, sl, id, b');
    ClearLive(n, blocks, id, b', live, live');
  }

  lemma PendStep(n: nat, blocks: Blocks, chain: seq<nat>, fl: seq<nat>, sl: seq<nat>, id: nat,
                 live: set<Item>, live': set<Item>, next: nat)
    requires SoundPool(n, blocks, chain, fl, sl, [], live, next) && id in blocks && !blocks[id].needsSweeping
    requires (forall i :: 0 <= i < |blocks[id].marks| ==> blocks[id].marks[i] != Queued)
    requires Reduced(blocks, live, id, live')
    ensures var b' := blocks[id].(needsSweeping := true, finalized := true);
      && SoundPool(n, blocks[id := b'], chain, Without(fl, id), [id] + sl, [], live', next)
      && TotalInUse(blocks[id := b'], chain) == TotalInUse(blocks, chain)
      && Alike(blocks, blocks[id := b'], id) && Cleared(b')
  {
    hide PoolOk, TotalInUse, LiveIs, Without, CountMarked, Reduced;
    PendKeeps(n, blocks, chain, fl, sl, id, true);
    PendLive(blocks, id, blocks[id].(needsSweeping := true, finalized := true), live, live');
  }

  lemma UnlistedIs(fl: seq<nat>, id: nat)
    ensures id !in fl ==> Without(fl, id) == fl
  {
  }

  /** A block that is present in a sound pool, and what its fields are worth. */
  lemma BlockFacts(n: nat, blocks: Blocks, chain: seq<nat>, fl: seq<nat>, sl: seq<nat>, id: nat, live: set<Item>,
                   next: nat)
    requires SoundPool(n, blocks, chain, fl, sl, [], live, next) && id in blocks
    ensures |blocks[id].marks| == n && n > 0 && BlockOk(n, blocks[id]) && MarksOk(blocks[id], id, [])
  {
    assert BlockOk(n, blocks[id]) && MarksOk(blocks[id], id, []);
  }

  lemma PassStart(lazy: bool, n: nat, blocks: Blocks, chain: seq<nat>, fl: seq<nat>, sl: seq<nat>, live: set<Item>,
                  next: nat)
    requires SoundPool(n, blocks, chain, fl, sl, [], live, next)
    ensures PassedOver(lazy, blocks, blocks, chain, 0) && Survivors(blocks, live, chain, 0, live)
  {
    assert chain[0..] == chain;
  }

  lemma PassHead(lazy: bool, blocks0: Blocks, blocks: Blocks, chain0: seq<nat>, k: nat)
    requires PassedOver(lazy, blocks0, blocks, chain0, k) && k < |chain0| && MarkingDone(blocks0)
    ensures chain0[k] in blocks && blocks[chain0[k]] == blocks0[chain0[k]] && chain0[k] in blocks0
    ensures !blocks[chain0[k]].needsSweeping
    ensures forall i :: 0 <= i < |blocks[chain0[k]].marks| ==> blocks[chain0[k]].marks[i] != Queued
  {
    assert chain0[k..][0] == chain0[k];
    assert chain0[k] in chain0[k..];
  }

  lemma PassNext(lazy: bool, blocks0: Blocks, blocks: Blocks, blocks': Blocks, chain0: seq<nat>, k: nat,
                 live0: set<Item>, live: set<Item>, live': set<Item>)
    requires PassedOver(lazy, blocks0, blocks, chain0, k) && Survivors(blocks0, live0, chain0, k, live) && k < |chain0|
    requires chain0[k] in blocks && blocks[chain0[k]] == blocks0[chain0[k]] && Reduced(blocks, live, chain0[k], live')
    requires Alike(blocks, blocks', chain0[k]) && (chain0[k] in blocks' ==> Cleared(blocks'[chain0[k]]))
    requires chain0[k] in blocks' ==> Outcome(lazy, blocks[chain0[k]], blocks'[chain0[k]])
    requires chain0[k] in blocks' <==> Marked in blocks[chain0[k]].marks
    ensures PassedOver(lazy, blocks0, blocks', chain0, k + 1) && Survivors(blocks0, live0, chain0, k + 1, live')
  {
    PassStep(lazy, blocks0, blocks, blocks', chain0, k, live0, live, live');
  }

  lemma PassOver(lazy: bool, n: nat, blocks0: Blocks, live0: set<Item>, chain0: seq<nat>,
                 blocks: Blocks, chain: seq<nat>, fl: seq<nat>, sl: seq<nat>, live: set<Item>, next: nat)
    requires LiveIs(blocks0, live0) && SoundPool(n, blocks, chain, fl, sl, [], live, next)
    requires PassedOver(lazy, blocks0, blocks, chain0, |chain0|) && Survivors(blocks0, live0, chain0, |chain0|, live)
    ensures (forall x :: x in live <==> x in live0 && MarkedIn(blocks0, x)) && Calm(blocks)
    ensures forall id :: id in blocks <==> id in blocks0 && Marked in blocks0[id].marks
    ensures forall id :: id in blocks ==> id in blocks0 && Outcome(lazy, blocks0[id], blocks[id])
  {
    PassEnd(lazy, blocks0, blocks, chain0, live0, live);
  }

  lemma SoundLive(n: nat, blocks: Blocks, chain: seq<nat>, fl: seq<nat>, sl: seq<nat>, q: seq<Item>, live: set<Item>,
                  next: nat)
    requires SoundPool(n, blocks, chain, fl, sl, q, live, next)
    ensures LiveIs(blocks, live)
  {
  }

  lemma ClearedAnyway(b: Block, c: Block, finalized: bool)
    ensures MarksCleared(b, c) <==> MarksCleared(b, c.(finalized := finalized))
  {
  }

  // ----- between collections -----

  /** The items that a collection leaves alive. */
  ghost function MarkedOf(blocks: Blocks, live: set<Item>): set<Item> {
    set x | x in live && MarkedIn(blocks, x)
  }

  /** What the program may ask for between collections; `Reclaim` lets a pending block be swept. */
  datatype Request = Allocate(greedy: bool) | Release(item: Item) | Reclaim

  /** What came of a request. */
  datatype Event = Allocated(item: Item) | Freed(item: Item) | Nothing

  function After(s: set<Item>, e: Event): set<Item> {
    if e.Allocated? then s + {e.item} else if e.Freed? then s - {e.item} else s
  }

  /** The items in use after some allocations and deallocations, in order. */
  function Replay(s: set<Item>, events: seq<Event>): set<Item> {
    if events == [] then s else After(Replay(s, events[..|events| - 1]), events[|events| - 1])
  }

  /**
   An allocation yields an item that was not in use; a deallocation frees the item
   exactly if it was; a sweep is not to be noticed.
   */
  ghost predicate Answers(a: Request, e: Event, inUse: set<Item>) {
    match a
    case Allocate(greedy) => e.Allocated? && e.item !in inUse
    case Release(x) => e == if x in inUse then Freed(x) else Nothing
    case Reclaim => e.Nothing?
  }

  /** Each request has been answered, in its turn. */
  ghost predicate Answered(s: set<Item>, actions: seq<Request>, events: seq<Event>) {
    && |events| == |actions|
    && forall k :: 0 <= k < |events| ==> Answers(actions[k], events[k], Replay(s, events[..k]))
  }

  lemma AnsweredNext(s: set<Item>, actions: seq<Request>, events: seq<Event>, a: Request, e: Event)
    requires Answered(s, actions, events) && Answers(a, e, Replay(s, events))
    ensures Answered(s, actions + [a], events + [e])
    ensures Replay(s, events + [e]) == After(Replay(s, events), e)
  {
    var events' := events + [e];
    assert events'[..|events|] == events;
    forall k | 0 <= k < |events'| ensures Answers((actions + [a])[k], events'[k], Replay(s, events'[..k])) {
      if k < |events| { assert events'[..k] == events[..k]; }
    }
  }

  /** Every item is either free or live with clear bits. */
  ghost predicate AllClear(blocks: Blocks, live: set<Item>) {
    forall x: Item :: x.block in blocks && x.index < |blocks[x.block].marks| ==>
      blocks[x.block].marks[x.index] == if x in live then White else Freelist
  }

  lemma SweptClear(n: nat, blocks: Blocks, chain: seq<nat>, fl: seq<nat>, q: seq<Item>, live: set<Item>, next: nat)
    requires SoundPool(n, blocks, chain, fl, [], q, live, next) && Calm(blocks)
    ensures AllClear(blocks, live)
  {
    forall x: Item | x.block in blocks && x.index < |blocks[x.block].marks|
      ensures blocks[x.block].marks[x.index] == if x in live then White else Freelist
    {
      assert Live(blocks, x) <==> x in live;
    }
  }

  // ----- statistics -----

  /** The quick items of one block. */
  function QuickIn(q: seq<Item>, id: nat): (s: seq<nat>)
    ensures forall i :: i in s <==> Item(id, i) in q
    ensures |s| <= |q|
  {
    if q == [] then []
    else if q[0].block == id then [q[0].index] + QuickIn(q[1..], id) else QuickIn(q[1..], id)
  }

  lemma {:induction false} QuickInDistinct(q: seq<Item>, id: nat)
    requires Distinct(q)
    ensures Distinct(QuickIn(q, id))
  {
    if q != [] {
      TailDistinct(q);
      QuickInDistinct(q[1..], id);
      if q[0].block == id { FrontDistinct(QuickIn(q[1..], id), q[0].index); }
    }
  }

  /** What a block's counter does not know: its items on the quick list are counted as in use. */
  lemma CounterIs(n: nat, b: Block, id: nat, q: seq<Item>)
    requires BlockOk(n, b) && MarksOk(b, id, q) && Distinct(q)
    requires forall x :: x in q && x.block == id ==> x.index < n && x.index !in b.freeItems
    ensures n - b.numFree == InUse(b.marks) + |QuickIn(q, id)|
  {
    var s: seq<nat> := QuickIn(q, id);
    QuickInDistinct(q, id);
    var all: seq<nat> := b.freeItems + s;
    forall i: nat ensures multiset(all)[i] <= 1 {
      assert multiset(all)[i] == multiset(b.freeItems)[i] + multiset(s)[i];
      assert i in s ==> i !in b.freeItems;
      assert multiset(b.freeItems)[i] <= 1 && multiset(s)[i] <= 1;
    }
    forall i | 0 <= i < |all| ensures all[i] < |b.marks| { assert all[i] in b.freeItems || Item(id, all[i]) in q; }
    FreeCount(b.marks, all);
  }

  /** Quick items over the blocks of a chain. */
  function QuickOver(q: seq<Item>, chain: seq<nat>): nat {
    if chain == [] then 0 else QuickOver(q, chain[..|chain| - 1]) + |QuickIn(q, chain[|chain| - 1])|
  }

  lemma {:induction false} QuickOverNone(chain: seq<nat>)
    ensures QuickOver([], chain) == 0
  {
    if chain != [] { QuickOverNone(chain[..|chain| - 1]); }
  }

  lemma {:induction false} QuickOverFront(q: seq<Item>, chain: seq<nat>)
    requires q != [] && Distinct(chain)
    ensures QuickOver(q, chain) == QuickOver(q[1..], chain) + if q[0].block in chain then 1 else 0
  {
    if chain != [] {
      var c, z := chain[..|chain| - 1], chain[|chain| - 1];
      assert chain == c + [z];
      LastDistinct(c, z);
      QuickOverFront(q, c);
    }
  }

  lemma LastDistinct(s: seq<nat>, z: nat)
    requires Distinct(s + [z])
    ensures Distinct(s) && z !in s
  {
    forall x: nat ensures multiset(s)[x] + (if x == z then 1 else 0) == multiset(s + [z])[x] { }
    assert multiset(s + [z])[z] <= 1;
  }

  /** Every quick item belongs to a block of the chain. */
  lemma {:induction false} QuickOverAll(q: seq<Item>, chain: seq<nat>)
    requires Distinct(chain) && forall x :: x in q ==> x.block in chain
    ensures QuickOver(q, chain) == |q|
  {
    if q == [] {
      QuickOverNone(chain);
    } else {
      QuickOverFront(q, chain);
      assert q[0] in q;
      QuickOverAll(q[1..], chain);
    }
  }

  /** Adding up the blocks' counters. */
  function CounterTotal(n: nat, blocks: Blocks, chain: seq<nat>): int {
    if chain == [] then 0
    else CounterTotal(n, blocks, chain[..|chain| - 1])
         + if chain[|chain| - 1] in blocks then n - blocks[chain[|chain| - 1]].numFree else 0
  }

  lemma CounterNone(n: nat, blocks: Blocks)
    ensures forall chain :: |chain| == 0 ==> CounterTotal(n, blocks, chain) == 0
  {
  }

  lemma CounterNext(n: nat, blocks: Blocks, chain: seq<nat>, k: nat)
    requires k < |chain| && forall id :: id in chain ==> id in blocks
    ensures chain[k] in blocks
    ensures CounterTotal(n, blocks, chain[..k + 1]) == CounterTotal(n, blocks, chain[..k]) + n - blocks[chain[k]].numFree
  {
    assert chain[..k + 1][..k] == chain[..k] && chain[k] in chain;
  }

  lemma {:induction false} TotalLast(blocks: Blocks, c: seq<nat>, z: nat)
    ensures TotalInUse(blocks, c + [z]) == TotalInUse(blocks, c) + if z in blocks then InUse(blocks[z].marks) else 0
  {
    if c == [] {
      assert c + [z] == [z] && [z][1..] == [];
    } else {
      assert (c + [z])[1..] == c[1..] + [z];
      TotalLast(blocks, c[1..], z);
    }
  }

  lemma {:induction false} CountersAre(n: nat, blocks: Blocks, chain: seq<nat>, q: seq<Item>)
    requires BlocksOk(n, blocks, q) && QuickOk(n, blocks, q) && forall id :: id in chain ==> id in blocks
    ensures CounterTotal(n, blocks, chain) == TotalInUse(blocks, chain) + QuickOver(q, chain)
  {
    if chain != [] {
      var c, z := chain[..|chain| - 1], chain[|chain| - 1];
      assert chain == c + [z];
      CountersAre(n, blocks, c, q);
      TotalLast(blocks, c, z);
      assert BlockOk(n, blocks[z]) && MarksOk(blocks[z], z, q);
      forall x | x in q && x.block == z ensures x.index < n && x.index !in blocks[z].freeItems {
        assert QuickItemOk(n, blocks, x);
      }
      CounterIs(n, blocks[z], z, q);
    }
  }

  /** GetAllocStats is exact: the counters less the length of the quick list give the items in use. */
  lemma StatsExact(n: nat, blocks: Blocks, chain: seq<nat>, fl: seq<nat>, sl: seq<nat>, q: seq<Item>, live: set<Item>,
                   next: nat)
    requires SoundPool(n, blocks, chain, fl, sl, q, live, next)
    ensures (forall id :: id in chain ==> id in blocks)
    ensures CounterTotal(n, blocks, chain) - |q| == TotalInUse(blocks, chain)
  {
    CountersAre(n, blocks, chain, q);
    forall x | x in q ensures x.block in chain { assert QuickItemOk(n, blocks, x); }
    QuickOverAll(q, chain);
  }

  // ----- the end of GC::Finalize -----

  /** Flipping the collector's finalized value makes every block one that the next collection has yet to finalize. */
  function Unflagged(blocks: Blocks): (r: Blocks)
    ensures forall id :: id in r <==> id in blocks
    ensures forall id :: id in r ==> r[id] == blocks[id].(finalized := false)
  {
    map id | id in blocks :: blocks[id].(finalized := false)
  }

  lemma {:induction false} UnflaggedTotal(blocks: Blocks, chain: seq<nat>)
    ensures TotalInUse(Unflagged(blocks), chain) == TotalInUse(blocks, chain)
  {
    if chain != [] { UnflaggedTotal(blocks, chain[1..]); }
  }

  lemma UnflaggedStep(n: nat, blocks: Blocks, chain: seq<nat>, fl: seq<nat>, sl: seq<nat>, q: seq<Item>,
                      live: set<Item>, next: nat)
    requires SoundPool(n, blocks, chain, fl, sl, q, live, next)
    ensures SoundPool(n, Unflagged(blocks), chain, fl, sl, q, live, next)
    ensures TotalInUse(Unflagged(blocks), chain) == TotalInUse(blocks, chain)
    ensures (Calm(blocks) ==> Calm(Unflagged(blocks)))
  {
    var r := Unflagged(blocks);
    UnflaggedTotal(blocks, chain);
    hide Unflagged, TotalInUse;
    forall id | id in r
      ensures BlockOk(n, r[id]) && MarksOk(r[id], id, q)
    {
      assert BlockOk(n, blocks[id]) && MarksOk(blocks[id], id, q);
    }
    forall x | x in q ensures QuickItemOk(n, r, x) { assert QuickItemOk(n, blocks, x); }
    forall x ensures Live(r, x) <==> x in live { assert Live(blocks, x) <==> x in live; }
    if Calm(blocks) {
      forall x | Live(r, x) && !r[x.block].needsSweeping
        ensures r[x.block].marks[x.index] == White
      {
        assert Live(blocks, x);
      }
    }
  }
}
