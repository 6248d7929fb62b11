/**
 The state of a small-object allocator: blocks of equal items, each with its own
 free list, the allocator's quick list, and the lists of blocks with free items and
 of blocks that still have to be swept.
 */
module AllocPool {

  /** The mark and queued bits of an item; both set mean that it is free. */
  datatype Mark = White | Queued | Marked | Freelist

  /** `freeItems` is the list that starts at firstFree; `finalized` that this collection has finalized the block. */
  datatype Block = Block(freeItems: seq<nat>, numFree: nat, marks: seq<Mark>, needsSweeping: bool, finalized: bool)

  datatype Item = Item(block: nat, index: nat)

  type Blocks = map<nat, Block>

  // ----- lists without repetition -----

  ghost predicate Distinct<T(!new)>(s: seq<T>) {
    forall x :: multiset(s)[x] <= 1
  }

  /** A doubly linked list after unlinking `x`. */
  function Without(s: seq<nat>, x: nat): (r: seq<nat>)
    ensures x in s ==> multiset(r) == multiset(s) - multiset{x}
    ensures x !in s ==> r == s
  {
    if s == [] then []
    else if s[0] == x then (assert s == [x] + s[1..]; s[1..])
    else (assert s == [s[0]] + s[1..]; [s[0]] + Without(s[1..], x))
  }

  lemma WithoutDistinct(s: seq<nat>, x: nat)
    requires Distinct(s)
    ensures Distinct(Without(s, x))
    ensures forall y :: y in Without(s, x) <==> y in s && y != x
  {
    hide Without;
    forall y: nat ensures multiset(Without(s, x))[y] == if y == x then 0 else multiset(s)[y] {
      assert multiset(s)[x] <= 1;
    }
    forall y: nat ensures y in Without(s, x) <==> y in s && y != x {
      assert y in multiset(Without(s, x)) <==> y in Without(s, x);
      assert y in multiset(s) <==> y in s;
    }
  }

  lemma FrontDistinct<T(!new)>(s: seq<T>, x: T)
    requires Distinct(s) && x !in s
    ensures Distinct([x] + s)
  {
    assert multiset([x] + s) == multiset{x} + multiset(s);
    assert multiset(s)[x] == 0;
  }

  lemma TailDistinct<T(!new)>(s: seq<T>)
    requires Distinct(s) && s != []
    ensures Distinct(s[1..]) && s[0] !in s[1..]
  {
    assert s == [s[0]] + s[1..];
    forall x ensures multiset(s[1..])[x] + (if x == s[0] then 1 else 0) == multiset(s)[x] {
      assert multiset([s[0]] + s[1..])[x] == multiset([s[0]])[x] + multiset(s[1..])[x];
    }
    assert multiset(s)[s[0]] <= 1;
  }

  // ----- counting -----

  /** Items of a block that are not free. */
  function InUse(marks: seq<Mark>): (k: nat)
    ensures k <= |marks|
  {
    if marks == [] then 0 else InUse(marks[..|marks| - 1]) + if marks[|marks| - 1] == Freelist then 0 else 1
  }

  lemma {:induction false} InUseUpdate(marks: seq<Mark>, i: nat, m: Mark)
    requires i < |marks|
    ensures InUse(marks[i := m]) == InUse(marks) - (if marks[i] == Freelist then 0 else 1) + (if m == Freelist then 0 else 1)
    decreases |marks|
  {
    var n := |marks| - 1;
    if i == n {
      assert marks[i := m][..n] == marks[..n];
    } else {
      assert marks[i := m][..n] == marks[..n][i := m];
      InUseUpdate(marks[..n], i, m);
    }
  }

  lemma {:induction false} InUseNone(marks: seq<Mark>)
    ensures InUse(marks) == 0 <==> forall i :: 0 <= i < |marks| ==> marks[i] == Freelist
  {
    if marks != [] { InUseNone(marks[..|marks| - 1]); }
  }

  lemma {:induction false} InUseSame(a: seq<Mark>, b: seq<Mark>)
    requires |a| == |b| && forall i :: 0 <= i < |a| ==> (a[i] == Freelist <==> b[i] == Freelist)
    ensures InUse(a) == InUse(b)
  {
    if a != [] { InUseSame(a[..|a| - 1], b[..|b| - 1]); }
  }

  /** When the free marks are exactly those of a list without repetition, the list's length tells how many. */
  lemma {:induction false} FreeCount(marks: seq<Mark>, s: seq<nat>)
    requires Distinct(s) && (forall i :: 0 <= i < |s| ==> s[i] < |marks|)
    requires forall i: nat :: i < |marks| ==> (marks[i] == Freelist <==> i in s)
    ensures InUse(marks) == |marks| - |s|
    decreases |s|
  {
    if s == [] {
      InUseAll(marks);
    } else {
      TailDistinct(s);
      var marks' := marks[s[0] := White];
      forall i: nat | i < |marks'| ensures marks'[i] == Freelist <==> i in s[1..] {
        assert i in s <==> i == s[0] || i in s[1..];
      }
      forall i | 0 <= i < |s[1..]| ensures s[1..][i] < |marks'| { assert s[1..][i] == s[i + 1]; }
      FreeCount(marks', s[1..]);
      assert s[0] in s;
      InUseUpdate(marks, s[0], White);
    }
  }

  lemma {:induction false} InUseAll(marks: seq<Mark>)
    requires forall i :: 0 <= i < |marks| ==> marks[i] != Freelist
    ensures InUse(marks) == |marks|
  {
    if marks != [] { InUseAll(marks[..|marks| - 1]); }
  }

  /** Items that are not free, over all blocks of a chain. */
  function TotalInUse(blocks: Blocks, chain: seq<nat>): nat {
    if chain == [] then 0
    else TotalInUse(blocks, chain[1..]) + if chain[0] in blocks then InUse(blocks[chain[0]].marks) else 0
  }

  lemma {:induction false} TotalUpdate(blocks: Blocks, chain: seq<nat>, id: nat, b: Block)
    requires Distinct(chain) && id in blocks
    ensures TotalInUse(blocks[id := b], chain) ==
      if id in chain then TotalInUse(blocks, chain) - InUse(blocks[id].marks) + InUse(b.marks) else TotalInUse(blocks, chain)
  {
    if chain != [] {
      TailDistinct(chain);
      TotalUpdate(blocks, chain[1..], id, b);
      assert id in chain <==> id == chain[0] || id in chain[1..];
    }
  }

  lemma {:induction false} TotalRemove(blocks: Blocks, chain: seq<nat>, id: nat)
    requires Distinct(chain) && id in blocks && id in chain
    ensures TotalInUse(blocks - {id}, Without(chain, id)) == TotalInUse(blocks, chain) - InUse(blocks[id].marks)
  {
    TailDistinct(chain);
    if chain[0] == id {
      TotalOther(blocks, chain[1..], id);
    } else {
      TotalRemove(blocks, chain[1..], id);
      assert ([chain[0]] + Without(chain[1..], id))[1..] == Without(chain[1..], id);
    }
  }

  lemma {:induction false} TotalOther(blocks: Blocks, chain: seq<nat>, id: nat)
    requires id !in chain
    ensures TotalInUse(blocks - {id}, chain) == TotalInUse(blocks, chain)
  {
    if chain != [] { TotalOther(blocks, chain[1..], id); }
  }

  lemma {:induction false} TotalAppend(blocks: Blocks, chain: seq<nat>, id: nat, b: Block)
    requires id !in chain
    ensures TotalInUse(blocks[id := b], chain + [id]) == TotalInUse(blocks, chain) + InUse(b.marks)
  {
    if chain == [] {
      assert chain + [id] == [id];
    } else {
      TotalAppend(blocks, chain[1..], id, b);
      assert (chain + [id])[1..] == chain[1..] + [id];
    }
  }

  // ----- the invariant -----

  ghost predicate BlockOk(n: nat, b: Block) {
    && |b.marks| == n && b.numFree == |b.freeItems| && Distinct(b.freeItems)
    && forall i :: 0 <= i < |b.freeItems| ==> b.freeItems[i] < n
  }

  /** An item is free exactly if it is on its block's list or on the quick list. */
  ghost predicate MarksOk(b: Block, id: nat, q: seq<Item>) {
    forall i: nat :: i < |b.marks| ==> (b.marks[i] == Freelist <==> i in b.freeItems || Item(id, i) in q)
  }

  ghost predicate BlocksOk(n: nat, blocks: Blocks, q: seq<Item>) {
    forall id :: id in blocks ==> BlockOk(n, blocks[id]) && MarksOk(blocks[id], id, q)
  }

  /** Quick-list items are on no block's list, and never belong to blocks that await sweeping. */
  ghost predicate QuickItemOk(n: nat, blocks: Blocks, x: Item) {
    x.block in blocks && x.index < n && !blocks[x.block].needsSweeping && x.index !in blocks[x.block].freeItems
  }

  ghost predicate QuickOk(n: nat, blocks: Blocks, q: seq<Item>) {
    Distinct(q) && forall x :: x in q ==> QuickItemOk(n, blocks, x)
  }

  /** A block is on the free list exactly if it has free items and needs no sweep, and on the sweep list if it does. */
  ghost predicate ListsOk(blocks: Blocks, chain: seq<nat>, freeList: seq<nat>, sweepList: seq<nat>) {
    && Distinct(chain) && Distinct(freeList) && Distinct(sweepList)
    && (forall id :: id in chain <==> id in blocks)
    && (forall id :: id in freeList <==> id in blocks && blocks[id].numFree > 0 && !blocks[id].needsSweeping)
    && (forall id :: id in sweepList <==> id in blocks && blocks[id].needsSweeping)
  }

  ghost predicate PoolOk(n: nat, blocks: Blocks, chain: seq<nat>, freeList: seq<nat>, sweepList: seq<nat>,
                         q: seq<Item>) {
    n > 0 && BlocksOk(n, blocks, q) && QuickOk(n, blocks, q) && ListsOk(blocks, chain, freeList, sweepList)
  }

  // ----- what is live -----

  /** In a block that awaits sweeping only what was marked is live; elsewhere all that is not free. */
  predicate Live(blocks: Blocks, x: Item) {
    && x.block in blocks && x.index < |blocks[x.block].marks|
    && var m := blocks[x.block].marks[x.index];
       if blocks[x.block].needsSweeping then m == Marked || m == Queued else m != Freelist
  }

  ghost predicate LiveIs(blocks: Blocks, live: set<Item>) {
    forall x :: Live(blocks, x) <==> x in live
  }

  /** No mark is left over in a block that needs no sweep. */
  ghost predicate Calm(blocks: Blocks) {
    forall x :: Live(blocks, x) && !blocks[x.block].needsSweeping ==> blocks[x.block].marks[x.index] == White
  }

  /** The surviving blocks' marks are untouched. */
  ghost predicate SameMarks(a: Blocks, b: Blocks) {
    forall id :: id in b ==>
      id in a && b[id] == a[id].(freeItems := b[id].freeItems, numFree := b[id].numFree)
  }

  lemma SameMarksTransitive(a: Blocks, b: Blocks, c: Blocks)
    requires SameMarks(a, b) && SameMarks(b, c)
    ensures SameMarks(a, c)
  {
  }

  /** Where a block stands in the chain. */
  function IndexOf(s: seq<nat>, x: nat): (p: nat)
    requires x in s
    ensures p < |s| && s[p] == x && x !in s[..p]
  {
    if s[0] == x then 0 else 1 + IndexOf(s[1..], x)
  }

  /** A block with nothing in it and no sweep pending. */
  predicate Vacant(n: nat, b: Block) {
    b.numFree == n && !b.needsSweeping
  }

  /** The whole invariant: the lists, what is live, and addresses from `next` on are not in use. */
  ghost predicate SoundPool(n: nat, blocks: Blocks, chain: seq<nat>, fl: seq<nat>, sl: seq<nat>, q: seq<Item>,
                            live: set<Item>, next: nat) {
    PoolOk(n, blocks, chain, fl, sl, q) && LiveIs(blocks, live) && forall id :: id in blocks ==> id < next
  }

  /** No block but `id` has changed, and none has come. */
  ghost predicate OthersKept(a: Blocks, b: Blocks, id: nat) {
    forall y :: y in b ==> y in a && (y != id ==> b[y] == a[y])
  }

  lemma OthersAre(a: Blocks, id: nat, b: Block)
    requires id in a
    ensures OthersKept(a, a[id := b], id) && OthersKept(a, a[id := b] - {id}, id)
  {
  }
}
