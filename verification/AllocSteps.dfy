/**
 The steps of a small-object allocator, each a change of one block and of the lists
 it is on, with what it does to the live items and to the number of items in use.
 */
module AllocSteps {
  import opened AllocPool

  /** The lists `a` and `b` differ at most in `id`, which is on `b` exactly if `want`. */
  ghost predicate Relisted(a: seq<nat>, b: seq<nat>, id: nat, want: bool) {
    Distinct(b) && (forall y :: y != id ==> (y in a <==> y in b)) && (id in b <==> want)
  }

  /** Quick lists that differ at most in items of block `id`. */
  ghost predicate Requicked(n: nat, q: seq<Item>, q': seq<Item>, id: nat, b: Block) {
    && Distinct(q')
    && (forall x: Item :: x.block != id ==> (x in q <==> x in q'))
    && forall x: Item :: x in q' && x.block == id ==> x.index < n && !b.needsSweeping && x.index !in b.freeItems
  }

  /** One block changes, with its places on the lists. */
  lemma PoolUpdate(n: nat, blocks: Blocks, chain: seq<nat>, fl: seq<nat>, sl: seq<nat>, q: seq<Item>,
                   id: nat, b: Block, fl': seq<nat>, sl': seq<nat>, q': seq<Item>)
    requires PoolOk(n, blocks, chain, fl, sl, q) && id in blocks
    requires BlockOk(n, b) && MarksOk(b, id, q') && Requicked(n, q, q', id, b)
    requires Relisted(fl, fl', id, b.numFree > 0 && !b.needsSweeping) && Relisted(sl, sl', id, b.needsSweeping)
    ensures PoolOk(n, blocks[id := b], chain, fl', sl', q')
  {
    var blocks' := blocks[id := b];
    forall x | x in blocks' ensures BlockOk(n, blocks'[x]) && MarksOk(blocks'[x], x, q') {
      if x != id { assert BlockOk(n, blocks[x]) && MarksOk(blocks[x], x, q); }
    }
    forall x | x in q' ensures QuickItemOk(n, blocks', x) {
      if x.block != id { assert QuickItemOk(n, blocks, x); }
    }
  }

  /** An item is on the quick list at most once, and is then free. */
  lemma QuickIsFree(n: nat, blocks: Blocks, q: seq<Item>, x: Item)
    requires BlocksOk(n, blocks, q) && QuickOk(n, blocks, q) && x in q
    ensures x.block in blocks && BlockOk(n, blocks[x.block]) && x.index < n
    ensures blocks[x.block].marks[x.index] == Freelist
    ensures !blocks[x.block].needsSweeping
  {
    assert QuickItemOk(n, blocks, x);
    assert BlockOk(n, blocks[x.block]) && MarksOk(blocks[x.block], x.block, q);
  }

  // ----- allocation from the quick list -----

  function Popped(blocks: Blocks, x: Item): Blocks
    requires x.block in blocks && x.index < |blocks[x.block].marks|
  {
    var b := blocks[x.block];
    blocks[x.block := b.(marks := b.marks[x.index := White])]
  }

  lemma PopKeeps(n: nat, blocks: Blocks, chain: seq<nat>, fl: seq<nat>, sl: seq<nat>, q: seq<Item>)
    requires PoolOk(n, blocks, chain, fl, sl, q) && q != []
    ensures var x := q[0];
      && x.block in blocks && x.index < |blocks[x.block].marks| && !blocks[x.block].needsSweeping
      && PoolOk(n, Popped(blocks, x), chain, fl, sl, q[1..])
      && TotalInUse(Popped(blocks, x), chain) == TotalInUse(blocks, chain) + 1
  {
    var x := q[0];
    QuickIsFree(n, blocks, q, x);
    var b := blocks[x.block];
    var b' := b.(marks := b.marks[x.index := White]);
    TailDistinct(q);
    TailItems(q);
    assert QuickItemOk(n, blocks, x) && MarksOk(b, x.block, q);
    PopMarks(b, x, q);
    forall y: Item | y in q[1..] && y.block == x.block
      ensures y.index !in b'.freeItems
    {
      assert QuickItemOk(n, blocks, y);
    }
    InUseUpdate(b.marks, x.index, White);
    TotalUpdate(blocks, chain, x.block, b');
    hide BlocksOk, QuickOk, MarksOk, TotalInUse, InUse;
    PoolUpdate(n, blocks, chain, fl, sl, q, x.block, b', fl, sl, q[1..]);
  }

  lemma TailItems<T>(q: seq<T>)
    requires q != []
    ensures forall y :: y in q <==> y == q[0] || y in q[1..]
  {
    assert q == [q[0]] + q[1..];
  }

  lemma PopMarks(b: Block, x: Item, q: seq<Item>)
    requires x.index < |b.marks| && q != [] && q[0] == x && MarksOk(b, x.block, q) && x !in q[1..]
    requires x.index !in b.freeItems
    ensures MarksOk(b.(marks := b.marks[x.index := White]), x.block, q[1..])
  {
    TailItems(q);
  }

  /** The item taken was dead and is live; nothing else changes. */
  lemma PopLive(n: nat, blocks: Blocks, q: seq<Item>, live: set<Item>)
    requires BlocksOk(n, blocks, q) && QuickOk(n, blocks, q) && q != [] && LiveIs(blocks, live)
    ensures var x := q[0];
      && x.block in blocks && x.index < |blocks[x.block].marks|
      && x !in live && LiveIs(Popped(blocks, x), live + {x}) && (Calm(blocks) ==> Calm(Popped(blocks, x)))
  {
    var x := q[0];
    QuickIsFree(n, blocks, q, x);
    assert !Live(blocks, x);
    var blocks' := Popped(blocks, x);
    forall y ensures Live(blocks', y) <==> y in live + {x} {
      assert Live(blocks, y) <==> y in live;
    }
    forall y | Calm(blocks) && Live(blocks', y) && !blocks'[y.block].needsSweeping
      ensures blocks'[y.block].marks[y.index] == White
    {
      assert y != x ==> Live(blocks, y);
    }
  }

  // ----- filling the quick list -----

  function ItemsOf(id: nat, s: seq<nat>): (q: seq<Item>)
    ensures |q| == |s| && forall i :: 0 <= i < |s| ==> q[i] == Item(id, s[i])
  {
    seq(|s|, i requires 0 <= i < |s| => Item(id, s[i]))
  }

  lemma {:induction false} ItemsOfCount(id: nat, s: seq<nat>, x: Item)
    ensures multiset(ItemsOf(id, s))[x] == if x.block == id then multiset(s)[x.index] else 0
  {
    if s != [] {
      var r, z := s[..|s| - 1], s[|s| - 1];
      ItemsOfCount(id, r, x);
      assert s == r + [z];
      assert ItemsOf(id, s) == ItemsOf(id, r) + [Item(id, z)];
    }
  }

  lemma ItemsOfDistinct(id: nat, s: seq<nat>)
    requires Distinct(s)
    ensures Distinct(ItemsOf(id, s)) && forall x :: x in ItemsOf(id, s) <==> x.block == id && x.index in s
  {
    forall x ensures multiset(ItemsOf(id, s))[x] <= 1 { ItemsOfCount(id, s, x); }
    forall x ensures x in ItemsOf(id, s) <==> x.block == id && x.index in s {
      ItemsOfCount(id, s, x);
      assert x in multiset(ItemsOf(id, s)) <==> x in ItemsOf(id, s);
      assert x.index in multiset(s) <==> x.index in s;
    }
  }

  function Filled(blocks: Blocks, id: nat): Blocks
    requires id in blocks
  {
    blocks[id := blocks[id].(freeItems := [], numFree := 0)]
  }

  lemma FillKeeps(n: nat, blocks: Blocks, chain: seq<nat>, fl: seq<nat>, sl: seq<nat>, id: nat)
    requires PoolOk(n, blocks, chain, fl, sl, []) && id in fl
    ensures id in blocks && 0 < blocks[id].numFree <= n && |blocks[id].freeItems| == blocks[id].numFree
    ensures PoolOk(n, Filled(blocks, id), chain, Without(fl, id), sl, ItemsOf(id, blocks[id].freeItems))
    ensures TotalInUse(Filled(blocks, id), chain) == TotalInUse(blocks, chain)
  {
    var b := blocks[id];
    assert BlockOk(n, b) && MarksOk(b, id, []);
    var b' := b.(freeItems := [], numFree := 0);
    var q := ItemsOf(id, b.freeItems);
    ItemsOfDistinct(id, b.freeItems);
    WithoutDistinct(fl, id);
    DistinctBound(b.freeItems, n);
    TotalUpdate(blocks, chain, id, b');
    hide BlocksOk, TotalInUse, ItemsOf;
    assert Distinct(b'.freeItems);
    PoolUpdate(n, blocks, chain, fl, sl, [], id, b', Without(fl, id), sl, q);
  }

  lemma {:induction false} DistinctBound(s: seq<nat>, n: nat)
    requires Distinct(s) && forall i :: 0 <= i < |s| ==> s[i] < n
    ensures |s| <= n
  {
    var marks := seq(n, i requires 0 <= i < n => if i in s then Freelist else White);
    FreeCount(marks, s);
  }

  /** Changing lists and counters of a block, but no mark, changes nothing that is live. */
  lemma SameMarksLive(blocks: Blocks, id: nat, b: Block, live: set<Item>)
    requires id in blocks && b.marks == blocks[id].marks && b.needsSweeping == blocks[id].needsSweeping
    requires LiveIs(blocks, live)
    ensures LiveIs(blocks[id := b], live) && (Calm(blocks) ==> Calm(blocks[id := b]))
  {
    forall x ensures Live(blocks[id := b], x) <==> x in live {
      assert Live(blocks, x) <==> x in live;
    }
    if Calm(blocks) {
      forall x | Live(blocks[id := b], x) && !blocks[id := b][x.block].needsSweeping
        ensures blocks[id := b][x.block].marks[x.index] == White
      {
        assert Live(blocks, x);
      }
    }
  }

  // ----- explicit deallocation -----

  function FreedMark(blocks: Blocks, x: Item): Blocks
    requires x.block in blocks && x.index < |blocks[x.block].marks|
  {
    var b := blocks[x.block];
    blocks[x.block := b.(marks := b.marks[x.index := Freelist])]
  }

  lemma PushKeeps(n: nat, blocks: Blocks, chain: seq<nat>, fl: seq<nat>, sl: seq<nat>, q: seq<Item>, x: Item)
    requires PoolOk(n, blocks, chain, fl, sl, q) && x.block in blocks && x.index < n
    requires !blocks[x.block].needsSweeping && x.index < |blocks[x.block].marks|
    requires blocks[x.block].marks[x.index] != Freelist
    ensures PoolOk(n, FreedMark(blocks, x), chain, fl, sl, [x] + q)
    ensures TotalInUse(blocks, chain) == TotalInUse(FreedMark(blocks, x), chain) + 1
  {
    var b := blocks[x.block];
    assert BlockOk(n, b) && MarksOk(b, x.block, q);
    var b' := b.(marks := b.marks[x.index := Freelist]);
    assert x !in q && x.index !in b.freeItems;
    FrontDistinct(q, x);
    TailItems([x] + q);
    assert ([x] + q)[1..] == q;
    InUseUpdate(b.marks, x.index, Freelist);
    TotalUpdate(blocks, chain, x.block, b');
    forall y: Item | y in [x] + q && y.block == x.block ensures y.index < n && y.index !in b'.freeItems {
      if y != x { assert QuickItemOk(n, blocks, y); }
    }
    hide BlocksOk, TotalInUse, InUse;
    PoolUpdate(n, blocks, chain, fl, sl, q, x.block, b', fl, sl, [x] + q);
  }

  lemma FreeLive(blocks: Blocks, x: Item, live: set<Item>)
    requires x.block in blocks && x.index < |blocks[x.block].marks| && LiveIs(blocks, live)
    ensures LiveIs(FreedMark(blocks, x), live - {x}) && (Calm(blocks) ==> Calm(FreedMark(blocks, x)))
  {
    var blocks' := FreedMark(blocks, x);
    forall y ensures Live(blocks', y) <==> y in live - {x} {
      assert Live(blocks, y) <==> y in live;
    }
    if Calm(blocks) {
      forall y | Live(blocks', y) && !blocks'[y.block].needsSweeping ensures blocks'[y.block].marks[y.index] == White {
        assert Live(blocks, y);
      }
    }
  }

  // ----- coalescing -----

  function Returned(blocks: Blocks, x: Item): Blocks
    requires x.block in blocks
  {
    var b := blocks[x.block];
    blocks[x.block := b.(freeItems := [x.index] + b.freeItems, numFree := b.numFree + 1)]
  }

  function ReturnedList(blocks: Blocks, fl: seq<nat>, x: Item): seq<nat>
    requires x.block in blocks
  {
    if blocks[x.block].numFree == 0 then [x.block] + fl else fl
  }

  lemma ReturnKeeps(n: nat, blocks: Blocks, chain: seq<nat>, fl: seq<nat>, sl: seq<nat>, q: seq<Item>)
    requires PoolOk(n, blocks, chain, fl, sl, q) && q != []
    ensures var x := q[0];
      && x.block in blocks
      && PoolOk(n, Returned(blocks, x), chain, ReturnedList(blocks, fl, x), sl, q[1..])
      && TotalInUse(Returned(blocks, x), chain) == TotalInUse(blocks, chain)
  {
    var x := q[0];
    QuickIsFree(n, blocks, q, x);
    var b := blocks[x.block];
    assert BlockOk(n, b) && MarksOk(b, x.block, q) && QuickItemOk(n, blocks, x);
    var b' := b.(freeItems := [x.index] + b.freeItems, numFree := b.numFree + 1);
    TotalUpdate(blocks, chain, x.block, b');
    ReturnBlock(n, blocks, q);
    if b.numFree == 0 { FrontDistinct(fl, x.block); }
    hide BlocksOk, QuickOk, TotalInUse, BlockOk, MarksOk, Requicked;
    PoolUpdate(n, blocks, chain, fl, sl, q, x.block, b', ReturnedList(blocks, fl, x), sl, q[1..]);
  }

  lemma ReturnBlock(n: nat, blocks: Blocks, q: seq<Item>)
    requires BlocksOk(n, blocks, q) && QuickOk(n, blocks, q) && q != [] && q[0].block in blocks
    ensures var x := q[0];
      var b' := blocks[x.block].(freeItems := [x.index] + blocks[x.block].freeItems, numFree := blocks[x.block].numFree + 1);
      BlockOk(n, b') && MarksOk(b', x.block, q[1..]) && Requicked(n, q, q[1..], x.block, b')
  {
    var x := q[0];
    var b := blocks[x.block];
    assert BlockOk(n, b) && MarksOk(b, x.block, q) && QuickItemOk(n, blocks, x);
    TailDistinct(q);
    TailItems(q);
    FrontDistinct(b.freeItems, x.index);
    forall y: Item | y in q[1..] && y.block == x.block
      ensures y.index < n && !b.needsSweeping && y.index !in [x.index] + b.freeItems
    {
      assert QuickItemOk(n, blocks, y);
    }
  }

  // ----- blocks that come and go -----

  ghost predicate NoQuick(q: seq<Item>, id: nat) {
    forall x :: x in q ==> x.block != id
  }

  /** Without quick items, a block's list tells how many of its items are in use. */
  lemma InUseIs(n: nat, b: Block, id: nat, q: seq<Item>)
    requires BlockOk(n, b) && MarksOk(b, id, q) && NoQuick(q, id)
    ensures InUse(b.marks) == n - b.numFree && b.numFree <= n
  {
    FreeCount(b.marks, b.freeItems);
  }

  /** UnlinkChunk and FreeChunk. */
  lemma DropKeeps(n: nat, blocks: Blocks, chain: seq<nat>, fl: seq<nat>, sl: seq<nat>, q: seq<Item>, id: nat)
    requires PoolOk(n, blocks, chain, fl, sl, q) && id in blocks && !blocks[id].needsSweeping && NoQuick(q, id)
    ensures PoolOk(n, blocks - {id}, Without(chain, id), Without(fl, id), sl, q)
    ensures TotalInUse(blocks - {id}, Without(chain, id)) == TotalInUse(blocks, chain) - (n - blocks[id].numFree)
  {
    assert BlockOk(n, blocks[id]) && MarksOk(blocks[id], id, q);
    InUseIs(n, blocks[id], id, q);
    TotalRemove(blocks, chain, id);
    hide TotalInUse, BlocksOk, QuickOk, ListsOk;
    DropBlocks(n, blocks, q, id);
    DropLists(blocks, chain, fl, sl, id);
  }

  lemma DropBlocks(n: nat, blocks: Blocks, q: seq<Item>, id: nat)
    requires BlocksOk(n, blocks, q) && QuickOk(n, blocks, q) && id in blocks && NoQuick(q, id)
    ensures BlocksOk(n, blocks - {id}, q) && QuickOk(n, blocks - {id}, q)
  {
    forall x | x in q ensures QuickItemOk(n, blocks - {id}, x) { assert QuickItemOk(n, blocks, x); }
  }

  lemma DropLists(blocks: Blocks, chain: seq<nat>, fl: seq<nat>, sl: seq<nat>, id: nat)
    requires ListsOk(blocks, chain, fl, sl) && id in blocks && !blocks[id].needsSweeping
    ensures ListsOk(blocks - {id}, Without(chain, id), Without(fl, id), sl)
  {
    WithoutDistinct(chain, id);
    WithoutDistinct(fl, id);
    hide Without, Distinct;
  }

  /** A block all of whose items are free takes nothing live with it. */
  lemma DropLive(n: nat, blocks: Blocks, id: nat, q: seq<Item>, live: set<Item>)
    requires id in blocks && BlockOk(n, blocks[id]) && MarksOk(blocks[id], id, q) && NoQuick(q, id)
    requires !blocks[id].needsSweeping && blocks[id].numFree == n && LiveIs(blocks, live)
    ensures LiveIs(blocks - {id}, live) && (Calm(blocks) ==> Calm(blocks - {id}))
  {
    InUseIs(n, blocks[id], id, q);
    InUseNone(blocks[id].marks);
    forall x ensures Live(blocks - {id}, x) <==> x in live {
      assert Live(blocks, x) <==> x in live;
    }
    if Calm(blocks) {
      forall x | Live(blocks - {id}, x) && !(blocks - {id})[x.block].needsSweeping
        ensures (blocks - {id})[x.block].marks[x.index] == White
      {
        assert Live(blocks, x);
      }
    }
  }

  /** A new block: all its items are free and on its list, in address order. */
  function NewBlock(n: nat, finalized: bool): (b: Block)
    ensures |b.freeItems| == n && forall i :: 0 <= i < n ==> b.freeItems[i] == i
    ensures |b.marks| == n && forall i :: 0 <= i < n ==> b.marks[i] == Freelist
    ensures b.numFree == n && !b.needsSweeping
  {
    Block(seq(n, i requires 0 <= i < n => i), n, seq(n, i => Freelist), false, finalized)
  }

  lemma {:induction false} AscendingDistinct(s: seq<nat>)
    requires forall i, j :: 0 <= i < j < |s| ==> s[i] < s[j]
    ensures Distinct(s)
  {
    if s != [] {
      var r, z := s[..|s| - 1], s[|s| - 1];
      AscendingDistinct(r);
      assert s == r + [z];
      forall x ensures multiset(s)[x] <= 1 {
        assert multiset(r + [z])[x] == multiset(r)[x] + multiset([z])[x];
        assert x == z ==> x !in r;
      }
    }
  }

  lemma ChunkKeeps(n: nat, blocks: Blocks, chain: seq<nat>, fl: seq<nat>, sl: seq<nat>, q: seq<Item>, id: nat,
                   finalized: bool)
    requires PoolOk(n, blocks, chain, fl, sl, q) && id !in blocks
    ensures var b := NewBlock(n, finalized);
      && PoolOk(n, blocks[id := b], chain + [id], [id] + fl, sl, q)
      && TotalInUse(blocks[id := b], chain + [id]) == TotalInUse(blocks, chain)
  {
    var b := NewBlock(n, finalized);
    var blocks' := blocks[id := b];
    AscendingDistinct(b.freeItems);
    assert id !in chain && id !in fl && id !in sl;
    TotalAppend(blocks, chain, id, b);
    InUseNone(b.marks);
    FrontDistinct(fl, id);
    AppendDistinct(chain, id);
    hide TotalInUse, NewBlock;
    forall i: nat | i < n ensures i in b.freeItems { assert b.freeItems[i] == i; }
    forall x | x in q ensures QuickItemOk(n, blocks', x) { assert QuickItemOk(n, blocks, x); }
    forall y | y in blocks' ensures BlockOk(n, blocks'[y]) && MarksOk(blocks'[y], y, q) {
      if y != id { assert BlockOk(n, blocks[y]) && MarksOk(blocks[y], y, q); }
    }
  }

  lemma AppendDistinct(s: seq<nat>, x: nat)
    requires Distinct(s) && x !in s
    ensures Distinct(s + [x]) && forall y :: y in s + [x] <==> y in s || y == x
  {
    forall y ensures multiset(s + [x])[y] <= 1 {
      assert multiset(s + [x])[y] == multiset(s)[y] + multiset([x])[y];
      assert multiset(s)[y] <= 1;
    }
  }

  lemma ChunkLive(n: nat, blocks: Blocks, id: nat, finalized: bool, live: set<Item>)
    requires id !in blocks && LiveIs(blocks, live)
    ensures var blocks' := blocks[id := NewBlock(n, finalized)];
      LiveIs(blocks', live) && (Calm(blocks) ==> Calm(blocks'))
  {
    var blocks' := blocks[id := NewBlock(n, finalized)];
    forall x ensures Live(blocks', x) <==> x in live {
      assert Live(blocks, x) <==> x in live;
    }
    if Calm(blocks) {
      forall x | Live(blocks', x) && !blocks'[x.block].needsSweeping ensures blocks'[x.block].marks[x.index] == White {
        assert Live(blocks, x);
      }
    }
  }

  // ----- sweeping -----

  /** What SweepGuts makes of a block: marked and queued items survive with clear bits, the rest is free and listed. */
  ghost predicate SweptFrom(n: nat, b: Block, b': Block) {
    && |b.marks| == n && BlockOk(n, b') && b'.needsSweeping == b.needsSweeping && b'.finalized == b.finalized
    && forall i: nat :: i < n ==>
         && b'.marks[i] == (if b.marks[i] == Marked || b.marks[i] == Queued then White else Freelist)
         && (i in b'.freeItems <==> b'.marks[i] == Freelist)
  }

  lemma SweepKeeps(n: nat, blocks: Blocks, chain: seq<nat>, fl: seq<nat>, sl: seq<nat>, q: seq<Item>, id: nat, s: Block)
    requires PoolOk(n, blocks, chain, fl, sl, q) && id in sl && id in blocks && SweptFrom(n, blocks[id], s)
    ensures NoQuick(q, id) && id !in fl && blocks[id].numFree <= s.numFree <= n
    ensures var b := s.(needsSweeping := false);
      && PoolOk(n, blocks[id := b], chain, if b.numFree > 0 then [id] + fl else fl, Without(sl, id), q)
      && TotalInUse(blocks[id := b], chain) == TotalInUse(blocks, chain) - (s.numFree - blocks[id].numFree)
  {
    var b, b' := blocks[id], s.(needsSweeping := false);
    assert BlockOk(n, b) && MarksOk(b, id, q);
    forall x | x in q ensures x.block != id { assert QuickItemOk(n, blocks, x); }
    InUseIs(n, b, id, q);
    InUseIs(n, b', id, q);
    InUseFewer(b.marks, b'.marks);
    TotalUpdate(blocks, chain, id, b');
    WithoutDistinct(sl, id);
    if b'.numFree > 0 { FrontDistinct(fl, id); }
    hide TotalInUse, InUse, Without, BlocksOk, QuickOk;
    PoolUpdate(n, blocks, chain, fl, sl, q, id, b', if b'.numFree > 0 then [id] + fl else fl, Without(sl, id), q);
  }

  lemma {:induction false} InUseFewer(a: seq<Mark>, b: seq<Mark>)
    requires |a| == |b| && forall i :: 0 <= i < |a| ==> (a[i] == Freelist ==> b[i] == Freelist)
    ensures InUse(b) <= InUse(a)
  {
    if a != [] { InUseFewer(a[..|a| - 1], b[..|b| - 1]); }
  }

  /** Sweeping a block changes nothing that is live: lazy sweeping shows the same as eager sweeping. */
  lemma SweepLive(n: nat, blocks: Blocks, id: nat, s: Block, live: set<Item>)
    requires id in blocks && blocks[id].needsSweeping && SweptFrom(n, blocks[id], s) && LiveIs(blocks, live)
    ensures var blocks' := blocks[id := s.(needsSweeping := false)];
      LiveIs(blocks', live) && (Calm(blocks) ==> Calm(blocks'))
  {
    var blocks' := blocks[id := s.(needsSweeping := false)];
    forall x ensures Live(blocks', x) <==> x in live {
      assert Live(blocks, x) <==> x in live;
    }
    if Calm(blocks) {
      forall x | Live(blocks', x) && !blocks'[x.block].needsSweeping ensures blocks'[x.block].marks[x.index] == White {
        assert Live(blocks, x);
      }
    }
  }

  /** Pushing an item that is freed while its block awaits sweeping straight onto the block's list. */
  lemma PushPending(n: nat, blocks: Blocks, chain: seq<nat>, fl: seq<nat>, sl: seq<nat>, q: seq<Item>, x: Item)
    requires PoolOk(n, blocks, chain, fl, sl, q) && x.block in blocks && x.index < n
    requires blocks[x.block].needsSweeping && x.index < |blocks[x.block].marks|
    requires blocks[x.block].marks[x.index] != Freelist
    ensures var blocks' := Returned(FreedMark(blocks, x), x);
      && PoolOk(n, blocks', chain, fl, sl, q) && x.block in sl
      && TotalInUse(blocks, chain) == TotalInUse(blocks', chain) + 1
  {
    var b := blocks[x.block];
    var b' := b.(marks := b.marks[x.index := Freelist], freeItems := [x.index] + b.freeItems, numFree := b.numFree + 1);
    PendingIs(blocks, x);
    PushPendingBlock(n, blocks, q, x);
    InUseUpdate(b.marks, x.index, Freelist);
    TotalUpdate(blocks, chain, x.block, b');
    hide BlocksOk, QuickOk, TotalInUse, InUse, Returned, FreedMark, BlockOk, MarksOk, Requicked;
    PoolUpdate(n, blocks, chain, fl, sl, q, x.block, b', fl, sl, q);
  }

  lemma PushPendingBlock(n: nat, blocks: Blocks, q: seq<Item>, x: Item)
    requires BlocksOk(n, blocks, q) && QuickOk(n, blocks, q) && x.block in blocks && x.index < n
    requires blocks[x.block].needsSweeping && x.index < |blocks[x.block].marks|
    requires blocks[x.block].marks[x.index] != Freelist
    ensures var b := blocks[x.block];
      var b' := b.(marks := b.marks[x.index := Freelist], freeItems := [x.index] + b.freeItems, numFree := b.numFree + 1);
      BlockOk(n, b') && MarksOk(b', x.block, q) && Requicked(n, q, q, x.block, b')
  {
    var b := blocks[x.block];
    assert BlockOk(n, b) && MarksOk(b, x.block, q);
    assert x.index !in b.freeItems;
    FrontDistinct(b.freeItems, x.index);
    forall y: Item | y in q ensures y.block != x.block { assert QuickItemOk(n, blocks, y); }
  }

  /** Sweep, when the block has something left in use. */
  lemma SweepStays(n: nat, blocks: Blocks, chain: seq<nat>, fl: seq<nat>, sl: seq<nat>, q: seq<Item>, id: nat, s: Block,
                   live: set<Item>, next: nat)
    requires SoundPool(n, blocks, chain, fl, sl, q, live, next) && id in sl && id in blocks
    requires SweptFrom(n, blocks[id], s)
    ensures var blocks' := blocks[id := s.(needsSweeping := false)];
      && SoundPool(n, blocks', chain, if s.numFree > 0 then [id] + fl else fl, Without(sl, id), q, live, next)
      && TotalInUse(blocks', chain) == TotalInUse(blocks, chain) - (s.numFree - blocks[id].numFree)
      && (Calm(blocks) ==> Calm(blocks'))
  {
    SweepKeeps(n, blocks, chain, fl, sl, q, id, s);
    SweepLive(n, blocks, id, s, live);
  }

  /** Sweep, when the block turns out to be empty and is given back. */
  lemma SweepGone(n: nat, blocks: Blocks, chain: seq<nat>, fl: seq<nat>, sl: seq<nat>, q: seq<Item>, id: nat, s: Block,
                   live: set<Item>, next: nat)
    requires SoundPool(n, blocks, chain, fl, sl, q, live, next) && id in sl && id in blocks
    requires SweptFrom(n, blocks[id], s)
    requires s.numFree == n
    ensures var blocks' := blocks[id := s.(needsSweeping := false)] - {id};
      && SoundPool(n, blocks', Without(chain, id), Without(fl, id), Without(sl, id), q, live, next)
      && TotalInUse(blocks', Without(chain, id)) == TotalInUse(blocks, chain) - (s.numFree - blocks[id].numFree)
      && (Calm(blocks) ==> Calm(blocks'))
  {
    SweepKeeps(n, blocks, chain, fl, sl, q, id, s);
    SweepLive(n, blocks, id, s, live);
    var blocks' := blocks[id := s.(needsSweeping := false)];
    assert BlockOk(n, blocks'[id]) && MarksOk(blocks'[id], id, q);
    hide PoolOk, TotalInUse, Calm, LiveIs, SweptFrom, MarksOk;
    DropKeeps(n, blocks', chain, [id] + fl, Without(sl, id), q, id);
    DropLive(n, blocks', id, q, live);
    assert Without([id] + fl, id) == fl;
    assert Without(fl, id) == fl;
  }

  /** Outside the quick list, an item is free exactly if its block's list has it. */
  lemma PendingListed(n: nat, blocks: Blocks, chain: seq<nat>, fl: seq<nat>, sl: seq<nat>, q: seq<Item>, id: nat,
                      live: set<Item>, next: nat)
    requires SoundPool(n, blocks, chain, fl, sl, q, live, next) && id in blocks && blocks[id].needsSweeping
    ensures BlockOk(n, blocks[id]) && MarksOk(blocks[id], id, []) && id in sl && id !in fl
  {
    assert BlockOk(n, blocks[id]) && MarksOk(blocks[id], id, q);
    forall x | x in q ensures x.block != id { assert QuickItemOk(n, blocks, x); }
  }

  lemma HeadPending(n: nat, blocks: Blocks, chain: seq<nat>, fl: seq<nat>, sl: seq<nat>, q: seq<Item>,
                    live: set<Item>, next: nat)
    requires SoundPool(n, blocks, chain, fl, sl, q, live, next) && sl != []
    ensures |Without(sl, sl[0])| < |sl| && Without(sl, sl[0]) == sl[1..]
    ensures sl[0] in blocks && blocks[sl[0]].needsSweeping
  {
    assert sl[0] in sl;
    WithoutShorter(sl, sl[0]);
  }

  lemma NonePending(n: nat, blocks: Blocks, chain: seq<nat>, fl: seq<nat>, q: seq<Item>, live: set<Item>, next: nat)
    requires SoundPool(n, blocks, chain, fl, [], q, live, next)
    ensures forall id :: id in blocks ==> !blocks[id].needsSweeping
  {
  }

  /** A block is empty after its sweep exactly if nothing in it was marked or queued. */
  lemma SweptEmpty(n: nat, b: Block, s: Block, id: nat)
    requires SweptFrom(n, b, s)
    ensures s.numFree == n <==> Marked !in b.marks && Queued !in b.marks
  {
    InUseIs(n, s, id, []);
    InUseNone(s.marks);
    hide InUse, Distinct;
    if i: nat :| i < n && (b.marks[i] == Marked || b.marks[i] == Queued) { assert s.marks[i] == White; }
  }

  lemma WithoutShorter(s: seq<nat>, x: nat)
    requires x in s
    ensures |Without(s, x)| == |s| - 1
  {
    assert |multiset(Without(s, x))| == |Without(s, x)|;
  }

  // ----- giving back empty blocks -----

  /** The blocks of `seen` that were vacant are gone; all others are as they were. */
  ghost predicate GivenBack(n: nat, blocks0: Blocks, blocks: Blocks, seen: seq<nat>) {
    && (forall id :: id in blocks <==> id in blocks0 && !(id in seen && Vacant(n, blocks0[id])))
    && forall id :: id in blocks ==> blocks[id] == blocks0[id]
  }

  lemma GiveBackStep(n: nat, blocks0: Blocks, blocks: Blocks, seen: seq<nat>, id: nat)
    requires GivenBack(n, blocks0, blocks, seen) && id in blocks
    ensures GivenBack(n, blocks0, if Vacant(n, blocks[id]) then blocks - {id} else blocks, seen + [id])
  {
  }

  lemma GivenBackMarks(n: nat, blocks0: Blocks, blocks: Blocks, seen: seq<nat>)
    requires GivenBack(n, blocks0, blocks, seen)
    ensures SameMarks(blocks0, blocks)
  {
  }

  /** What FreeEmptyBlocks does to blocks `b`, in terms of what they were before the quick items were returned. */
  lemma GivenBackEmpty(n: nat, blocks0: Blocks, a: Blocks, b: Blocks, chain: seq<nat>, fl: seq<nat>, sl: seq<nat>,
                       live: set<Item>, next: nat)
    requires SoundPool(n, a, chain, fl, sl, [], live, next) && SameMarks(blocks0, a)
    requires (forall id :: id in a <==> id in blocks0) && GivenBack(n, a, b, FromFirstFree(chain, fl))
    ensures var looked := FromFirstFree(chain, fl);
      && (forall id :: id in b <==>
            id in blocks0 && !(id in looked && !blocks0[id].needsSweeping && InUse(blocks0[id].marks) == 0))
      && EndOf(looked, chain)
      && (looked != [] ==> looked[0] == fl[0])
      && if looked == [] then forall id :: id in blocks0 && !blocks0[id].needsSweeping ==> InUse(blocks0[id].marks) == n
         else looked[0] in blocks0 && !blocks0[looked[0]].needsSweeping && InUse(blocks0[looked[0]].marks) < n
  {
    CountersBefore(n, blocks0, a, chain, fl, sl, live, next);
    FirstFreeInChain(n, a, chain, fl, sl, [], live, next);
    FreeListed(n, a, chain, fl, sl, live, next);
    hide InUse, SoundPool, Distinct, SameMarks;
  }

  lemma CountersBefore(n: nat, blocks0: Blocks, a: Blocks, chain: seq<nat>, fl: seq<nat>, sl: seq<nat>,
                       live: set<Item>, next: nat)
    requires SoundPool(n, a, chain, fl, sl, [], live, next) && SameMarks(blocks0, a)
    ensures forall id :: id in a ==>
      && id in blocks0 && blocks0[id].needsSweeping == a[id].needsSweeping
      && InUse(blocks0[id].marks) == n - a[id].numFree && a[id].numFree >= 0
  {
    forall id | id in a
      ensures blocks0[id].needsSweeping == a[id].needsSweeping && InUse(blocks0[id].marks) == n - a[id].numFree
    {
      assert BlockOk(n, a[id]) && MarksOk(a[id], id, []);
      InUseIs(n, a[id], id, []);
    }
  }

  lemma FreeListed(n: nat, a: Blocks, chain: seq<nat>, fl: seq<nat>, sl: seq<nat>, live: set<Item>, next: nat)
    requires SoundPool(n, a, chain, fl, sl, [], live, next)
    ensures fl == [] ==> forall id :: id in a && !a[id].needsSweeping ==> a[id].numFree == 0
    ensures fl != [] ==> fl[0] in a && a[fl[0]].numFree > 0 && !a[fl[0]].needsSweeping
  {
    if fl != [] {
      assert fl[0] in fl;
    } else {
      forall id | id in a && !a[id].needsSweeping ensures a[id].numFree == 0 { assert id !in fl; }
    }
  }

  /** A vacant block leaves. */
  lemma VacantDrop(n: nat, blocks: Blocks, chain: seq<nat>, fl: seq<nat>, sl: seq<nat>, id: nat, live: set<Item>,
                   next: nat)
    requires SoundPool(n, blocks, chain, fl, sl, [], live, next) && id in blocks && Vacant(n, blocks[id])
    ensures SoundPool(n, blocks - {id}, Without(chain, id), Without(fl, id), sl, [], live, next)
    ensures TotalInUse(blocks - {id}, Without(chain, id)) == TotalInUse(blocks, chain)
    ensures Calm(blocks) ==> Calm(blocks - {id})
  {
    assert BlockOk(n, blocks[id]) && MarksOk(blocks[id], id, []);
    hide PoolOk, TotalInUse, Calm, LiveIs, MarksOk, Without;
    DropKeeps(n, blocks, chain, fl, sl, [], id);
    DropLive(n, blocks, id, [], live);
  }

  /** One quick item returned. */
  lemma ReturnStep(n: nat, blocks: Blocks, chain: seq<nat>, fl: seq<nat>, sl: seq<nat>, q: seq<Item>, live: set<Item>,
                   next: nat)
    requires SoundPool(n, blocks, chain, fl, sl, q, live, next) && q != []
    ensures q[0].block in blocks
    ensures var blocks' := Returned(blocks, q[0]);
      && SoundPool(n, blocks', chain, ReturnedList(blocks, fl, q[0]), sl, q[1..], live, next)
      && TotalInUse(blocks', chain) == TotalInUse(blocks, chain) && (Calm(blocks) ==> Calm(blocks'))
      && SameMarks(blocks, blocks') && (forall id :: id in blocks' <==> id in blocks)
  {
    ReturnKeeps(n, blocks, chain, fl, sl, q);
    hide PoolOk, TotalInUse, Calm, LiveIs, SameMarks;
    ReturnedLive(blocks, q[0], live);
  }

  lemma ReturnedLive(blocks: Blocks, x: Item, live: set<Item>)
    requires x.block in blocks && LiveIs(blocks, live)
    ensures LiveIs(Returned(blocks, x), live) && (Calm(blocks) ==> Calm(Returned(blocks, x)))
    ensures SameMarks(blocks, Returned(blocks, x)) && forall id :: id in Returned(blocks, x) <==> id in blocks
  {
    var b := blocks[x.block];
    hide LiveIs, Calm;
    SameMarksLive(blocks, x.block, b.(freeItems := [x.index] + b.freeItems, numFree := b.numFree + 1), live);
  }

  /** The chain from the first block of the free list on. */
  function FromFirstFree(chain: seq<nat>, fl: seq<nat>): seq<nat> {
    if fl != [] && fl[0] in chain then chain[IndexOf(chain, fl[0])..] else []
  }

  lemma FirstFreeInChain(n: nat, blocks: Blocks, chain: seq<nat>, fl: seq<nat>, sl: seq<nat>, q: seq<Item>,
                         live: set<Item>, next: nat)
    requires SoundPool(n, blocks, chain, fl, sl, q, live, next)
    ensures fl != [] ==> fl[0] in chain
    ensures var rest := FromFirstFree(chain, fl); Distinct(rest) && (forall id :: id in rest ==> id in blocks)
  {
    if fl != [] {
      assert fl[0] in fl;
      var p := IndexOf(chain, fl[0]);
      assert chain == chain[..p] + chain[p..];
      forall x: nat ensures multiset(chain[p..])[x] <= 1 {
        assert multiset(chain[..p] + chain[p..])[x] == multiset(chain[..p])[x] + multiset(chain[p..])[x];
        assert multiset(chain)[x] <= 1;
      }
      forall id | id in chain[p..] ensures id in blocks { assert id in chain; }
    }
  }

  lemma RestStep(blocks: Blocks, rest: seq<nat>)
    requires rest != [] && Distinct(rest) && forall id :: id in rest ==> id in blocks
    ensures rest[0] in blocks
    ensures forall id :: id in rest[1..] ==> id in blocks - {rest[0]}
  {
    TailDistinct(rest);
    TailItems(rest);
  }

  lemma ChunkStep(n: nat, blocks: Blocks, chain: seq<nat>, fl: seq<nat>, sl: seq<nat>, q: seq<Item>, finalized: bool,
                  live: set<Item>, next: nat)
    requires SoundPool(n, blocks, chain, fl, sl, q, live, next)
    ensures var blocks' := blocks[next := NewBlock(n, finalized)];
      && SoundPool(n, blocks', chain + [next], [next] + fl, sl, q, live, next + 1)
      && TotalInUse(blocks', chain + [next]) == TotalInUse(blocks, chain) && (Calm(blocks) ==> Calm(blocks'))
  {
    ChunkKeeps(n, blocks, chain, fl, sl, q, next, finalized);
    ChunkLive(n, blocks, next, finalized, live);
    hide PoolOk, TotalInUse, Calm, LiveIs, NewBlock;
  }

  lemma SameMarksSelf(blocks: Blocks)
    ensures SameMarks(blocks, blocks)
  {
  }

  lemma GiveBackNone(n: nat, blocks: Blocks)
    ensures GivenBack(n, blocks, blocks, [])
  {
  }

  lemma ReturnedIs(blocks: Blocks, x: Item)
    requires x.block in blocks
    ensures var b := blocks[x.block];
      Returned(blocks, x) == blocks[x.block := b.(freeItems := [x.index] + b.freeItems, numFree := b.numFree + 1)]
  {
  }

  // ----- the steps on the whole state -----

  lemma PopStep(n: nat, blocks: Blocks, chain: seq<nat>, fl: seq<nat>, sl: seq<nat>, q: seq<Item>, live: set<Item>,
                next: nat)
    requires SoundPool(n, blocks, chain, fl, sl, q, live, next) && q != []
    ensures var x := q[0];
      && x.block in blocks && x.index < |blocks[x.block].marks| && x !in live
    ensures var blocks' := Popped(blocks, q[0]);
      && SoundPool(n, blocks', chain, fl, sl, q[1..], live + {q[0]}, next)
      && TotalInUse(blocks', chain) == TotalInUse(blocks, chain) + 1 && (Calm(blocks) ==> Calm(blocks'))
  {
    PopKeeps(n, blocks, chain, fl, sl, q);
    PopLive(n, blocks, q, live);
    hide PoolOk, TotalInUse, Calm, LiveIs;
  }

  lemma FillStep(n: nat, blocks: Blocks, chain: seq<nat>, fl: seq<nat>, sl: seq<nat>, id: nat, live: set<Item>,
                 next: nat)
    requires SoundPool(n, blocks, chain, fl, sl, [], live, next) && id in fl
    ensures id in blocks && 0 < blocks[id].numFree <= n && |blocks[id].freeItems| == blocks[id].numFree
    ensures var blocks' := Filled(blocks, id);
      && SoundPool(n, blocks', chain, Without(fl, id), sl, ItemsOf(id, blocks[id].freeItems), live, next)
      && TotalInUse(blocks', chain) == TotalInUse(blocks, chain) && (Calm(blocks) ==> Calm(blocks'))
  {
    FillKeeps(n, blocks, chain, fl, sl, id);
    SameMarksLive(blocks, id, blocks[id].(freeItems := [], numFree := 0), live);
    hide PoolOk, TotalInUse, Calm, LiveIs;
  }

  lemma PushStep(n: nat, blocks: Blocks, chain: seq<nat>, fl: seq<nat>, sl: seq<nat>, q: seq<Item>, x: Item,
                 live: set<Item>, next: nat)
    requires SoundPool(n, blocks, chain, fl, sl, q, live, next) && x.block in blocks
    requires x.index < |blocks[x.block].marks|
    requires blocks[x.block].marks[x.index] != Freelist && !blocks[x.block].needsSweeping
    ensures var blocks' := FreedMark(blocks, x);
      && SoundPool(n, blocks', chain, fl, sl, [x] + q, live - {x}, next)
      && TotalInUse(blocks, chain) == TotalInUse(blocks', chain) + 1 && (Calm(blocks) ==> Calm(blocks'))
  {
    assert BlockOk(n, blocks[x.block]);
    PushKeeps(n, blocks, chain, fl, sl, q, x);
    FreeLive(blocks, x, live);
    hide PoolOk, TotalInUse, Calm, LiveIs;
  }

  lemma PushPendingStep(n: nat, blocks: Blocks, chain: seq<nat>, fl: seq<nat>, sl: seq<nat>, q: seq<Item>, x: Item,
                        live: set<Item>, next: nat)
    requires SoundPool(n, blocks, chain, fl, sl, q, live, next) && x.block in blocks
    requires x.index < |blocks[x.block].marks|
    requires blocks[x.block].marks[x.index] != Freelist && blocks[x.block].needsSweeping
    ensures var blocks' := Returned(FreedMark(blocks, x), x);
      && SoundPool(n, blocks', chain, fl, sl, q, live - {x}, next) && x.block in blocks'
      && blocks'[x.block].needsSweeping
      && TotalInUse(blocks, chain) == TotalInUse(blocks', chain) + 1 && (Calm(blocks) ==> Calm(blocks'))
  {
    assert BlockOk(n, blocks[x.block]);
    PushPending(n, blocks, chain, fl, sl, q, x);
    FreeLive(blocks, x, live);
    hide PoolOk, TotalInUse, Calm, LiveIs;
    var b := FreedMark(blocks, x)[x.block];
    SameMarksLive(FreedMark(blocks, x), x.block, b.(freeItems := [x.index] + b.freeItems, numFree := b.numFree + 1),
                  live - {x});
  }

  /** A live item keeps its block and its mark as long as marks are not touched. */
  lemma LiveMark(n: nat, a: Blocks, b: Blocks, chain: seq<nat>, fl: seq<nat>, sl: seq<nat>, q: seq<Item>,
                 live: set<Item>, next: nat, x: Item)
    requires SoundPool(n, b, chain, fl, sl, q, live, next) && x in live && SameMarks(a, b)
    ensures x.block in b && x.index < |b[x.block].marks| && x.block in a && x.index < |a[x.block].marks|
    ensures b[x.block].marks[x.index] == a[x.block].marks[x.index]
    ensures b[x.block].needsSweeping == a[x.block].needsSweeping
    ensures b[x.block].finalized == a[x.block].finalized
  {
    assert Live(b, x);
  }

  /** Setting the mark of a live item, as the marker does, or the allocator while a collection is under way. */
  lemma MarkStep(n: nat, blocks: Blocks, chain: seq<nat>, fl: seq<nat>, sl: seq<nat>, q: seq<Item>, x: Item, m: Mark,
                 live: set<Item>, next: nat)
    requires SoundPool(n, blocks, chain, fl, sl, q, live, next) && x in live && m != Freelist
    requires x.block in blocks && x.index < |blocks[x.block].marks| && (blocks[x.block].needsSweeping ==> m != White)
    ensures var b := blocks[x.block];
      var blocks' := blocks[x.block := b.(marks := b.marks[x.index := m])];
      && SoundPool(n, blocks', chain, fl, sl, q, live, next)
      && TotalInUse(blocks', chain) == TotalInUse(blocks, chain)
  {
    var b := blocks[x.block];
    var b' := b.(marks := b.marks[x.index := m]);
    assert Live(blocks, x) && BlockOk(n, b) && MarksOk(b, x.block, q);
    InUseUpdate(b.marks, x.index, m);
    TotalUpdate(blocks, chain, x.block, b');
    MarkLive(blocks, x, m, live);
    assert MarksOk(b', x.block, q);
    forall y: Item | y in q && y.block == x.block ensures y.index < n && !b'.needsSweeping && y.index !in b'.freeItems {
      assert QuickItemOk(n, blocks, y);
    }
    hide TotalInUse, InUse, LiveIs, BlocksOk;
    PoolUpdate(n, blocks, chain, fl, sl, q, x.block, b', fl, sl, q);
  }

  lemma MarkLive(blocks: Blocks, x: Item, m: Mark, live: set<Item>)
    requires LiveIs(blocks, live) && x in live && m != Freelist
    requires x.block in blocks && x.index < |blocks[x.block].marks| && (blocks[x.block].needsSweeping ==> m != White)
    ensures LiveIs(blocks[x.block := blocks[x.block].(marks := blocks[x.block].marks[x.index := m])], live)
  {
    var blocks' := blocks[x.block := blocks[x.block].(marks := blocks[x.block].marks[x.index := m])];
    forall y ensures Live(blocks', y) <==> y in live {
      assert Live(blocks, y) <==> y in live;
    }
  }

  lemma PoolHasItems(n: nat, blocks: Blocks, chain: seq<nat>, fl: seq<nat>, sl: seq<nat>, q: seq<Item>,
                     live: set<Item>, next: nat)
    requires SoundPool(n, blocks, chain, fl, sl, q, live, next)
    ensures n > 0
  {
  }

  /** What is left of a list when it is worked off from the front. */
  ghost predicate EndOf<T>(t: seq<T>, s: seq<T>) {
    |t| <= |s| && t == s[|s| - |t|..]
  }

  /**
   On the way to a block with free items, from lists `fl0` and `sl0`: blocks have been taken
   off the sweep list in their order, and a block has been made only when that is empty
   or must not be touched.
   */
  ghost predicate Sought(fl0: seq<nat>, sl0: seq<nat>, next0: nat, fl: seq<nat>, sl: seq<nat>, next: nat,
                         collecting: bool) {
    && EndOf(sl, sl0) && (collecting ==> sl == sl0)
    && (if fl0 != [] then fl == fl0 && sl == sl0 && next == next0 else |fl| <= 1)
    && (next == next0 || (next == next0 + 1 && fl == [next0] && (collecting || sl == [])))
  }

  lemma SoughtStart(fl: seq<nat>, sl: seq<nat>, next: nat, collecting: bool)
    ensures Sought(fl, sl, next, fl, sl, next, collecting)
  {
  }

  lemma SoughtSwept(fl0: seq<nat>, sl0: seq<nat>, next0: nat, sl: seq<nat>, next: nat, fl: seq<nat>, fl': seq<nat>,
                    id: nat)
    requires Sought(fl0, sl0, next0, fl, sl, next, false) && sl != [] && fl == [] && (fl' == [id] + fl || fl' == fl)
    ensures Sought(fl0, sl0, next0, fl', sl[1..], next, false)
  {
  }

  lemma SoughtMade(fl0: seq<nat>, sl0: seq<nat>, next0: nat, sl: seq<nat>, next: nat, fl: seq<nat>, collecting: bool)
    requires Sought(fl0, sl0, next0, fl, sl, next, collecting) && (collecting || sl == []) && fl == []
    ensures Sought(fl0, sl0, next0, [next] + fl, sl, next + 1, collecting)
  {
  }

  lemma SoughtIs(fl0: seq<nat>, sl0: seq<nat>, next0: nat, fl: seq<nat>, sl: seq<nat>, next: nat, collecting: bool)
    requires Sought(fl0, sl0, next0, fl, sl, next, collecting)
    ensures EndOf(sl, sl0) && (collecting ==> sl == sl0)
    ensures if fl0 != [] then fl == fl0 && sl == sl0 && next == next0 else |fl| <= 1
    ensures next == next0 ||
      (next == next0 + 1 && |fl| == 1 && fl[0] == next0 && |fl0| == 0 && (collecting || |sl| == 0))
  {
  }

  lemma HeadFree(n: nat, blocks: Blocks, chain: seq<nat>, fl: seq<nat>, sl: seq<nat>, q: seq<Item>, live: set<Item>,
                 next: nat)
    requires SoundPool(n, blocks, chain, fl, sl, q, live, next) && fl != []
    ensures fl[0] in fl && fl[0] in blocks && !blocks[fl[0]].needsSweeping && blocks[fl[0]].freeItems != []
  {
    assert fl[0] in fl;
    assert BlockOk(n, blocks[fl[0]]);
  }

  /** The item that an allocation through a freshly filled quick list yields, and its block. */
  lemma FreshItem(blocks0: Blocks, b: nat, q: seq<Item>, blocks: Blocks)
    requires b in blocks0 && |blocks0[b].freeItems| > 0 && q == ItemsOf(b, blocks0[b].freeItems)
    requires q[0].block in Filled(blocks0, b) && q[0].index < |Filled(blocks0, b)[q[0].block].marks|
    requires blocks == Popped(Filled(blocks0, b), q[0])
    ensures q[0].block == b && q[0].index == blocks0[b].freeItems[0] && b in blocks && q[0].index < |blocks[b].marks|
    ensures blocks[b].marks[q[0].index] == White && blocks[b].finalized == blocks0[b].finalized
    ensures blocks[b].needsSweeping == blocks0[b].needsSweeping && blocks[b].freeItems == []
  {
  }

  lemma PoppedMark(blocks0: Blocks, x: Item)
    requires x.block in blocks0 && x.index < |blocks0[x.block].marks|
    ensures var b := Popped(blocks0, x);
      x.block in b && x.index < |b[x.block].marks| && b[x.block].marks[x.index] == White
  {
  }

  lemma FreedMarkIs(blocks: Blocks, x: Item)
    requires x.block in blocks && x.index < |blocks[x.block].marks|
    ensures var b := blocks[x.block];
      FreedMark(blocks, x) == blocks[x.block := b.(marks := b.marks[x.index := Freelist])]
  {
  }

  lemma PendingIs(blocks: Blocks, x: Item)
    requires x.block in blocks && x.index < |blocks[x.block].marks|
    ensures x.block in FreedMark(blocks, x)
    ensures var b := blocks[x.block].(marks := blocks[x.block].marks[x.index := Freelist]);
      Returned(FreedMark(blocks, x), x) == blocks[x.block := b.(freeItems := [x.index] + b.freeItems, numFree := b.numFree + 1)]
  {
  }
}
