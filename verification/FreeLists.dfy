/**
 The free lists of the page heap.  A list is the sequence of descriptor indices
 met by following `next` from the list head; unlinking and inserting are what the
 doubly linked lists do in constant time.
 */
module FreeLists {
  import opened HeapLayout

  const UNIQUE_THRESHOLD := 16
  const HUGE_THRESHOLD := 128
  const FREE_LIST_COMPRESSION := 8
  const NUM_FREE_LISTS: nat := (HUGE_THRESHOLD - UNIQUE_THRESHOLD) / FREE_LIST_COMPRESSION + UNIQUE_THRESHOLD

  type Lists = seq<seq<nat>>

  function GetFreeListIndex(size: nat): (i: nat)
    requires size > 0
    ensures i < NUM_FREE_LISTS
  {
    if size <= UNIQUE_THRESHOLD then size - 1
    else if size >= HUGE_THRESHOLD then NUM_FREE_LISTS - 1
    else (size - UNIQUE_THRESHOLD) / FREE_LIST_COMPRESSION + UNIQUE_THRESHOLD - 1
  }

  /** Larger blocks live in later lists, and the first fifteen lists hold one size each. */
  lemma FreeListIndexMonotone(a: nat, b: nat)
    requires 0 < a <= b
    ensures GetFreeListIndex(a) <= GetFreeListIndex(b)
    ensures GetFreeListIndex(a) == GetFreeListIndex(b) && b < UNIQUE_THRESHOLD ==> a == b
  {
    if a > UNIQUE_THRESHOLD && b < HUGE_THRESHOLD {
      assert (a - UNIQUE_THRESHOLD) / FREE_LIST_COMPRESSION <= (b - UNIQUE_THRESHOLD) / FREE_LIST_COMPRESSION;
    }
  }

  lemma OneSizePerList(a: nat, b: nat)
    requires 0 < a < UNIQUE_THRESHOLD && 0 < b && GetFreeListIndex(a) == GetFreeListIndex(b)
    ensures a == b
  {
  }

  function NoLists(): (fl: Lists)
    ensures |fl| == NUM_FREE_LISTS && forall l :: 0 <= l < |fl| ==> fl[l] == []
  {
    seq(NUM_FREE_LISTS, i => [])
  }

  /** How often an index occurs on all lists together. */
  ghost function Occurrences(fl: Lists, h: nat): nat {
    if fl == [] then 0 else Occurrences(fl[..|fl| - 1], h) + multiset(fl[|fl| - 1])[h]
  }

  lemma {:induction false} OccurrencesUpdate(fl: Lists, l: nat, s: seq<nat>, h: nat)
    requires l < |fl|
    ensures Occurrences(fl[l := s], h) == Occurrences(fl, h) - multiset(fl[l])[h] + multiset(s)[h]
    decreases |fl|
  {
    var n := |fl| - 1;
    if l == n {
      assert fl[l := s][..n] == fl[..n];
    } else {
      assert fl[l := s][..n] == fl[..n][l := s];
      OccurrencesUpdate(fl[..n], l, s, h);
    }
  }

  lemma {:induction false} OccursIn(fl: Lists, h: nat) returns (l: nat)
    requires Occurrences(fl, h) > 0
    ensures l < |fl| && h in fl[l]
  {
    var n := |fl| - 1;
    if h in fl[n] {
      l := n;
    } else {
      l := OccursIn(fl[..n], h);
    }
  }

  lemma {:induction false} InOccurs(fl: Lists, h: nat, l: nat)
    requires l < |fl| && h in fl[l]
    ensures Occurrences(fl, h) >= multiset(fl[l])[h] > 0
  {
    var n := |fl| - 1;
    if l < n { InOccurs(fl[..n], h, l); }
  }

  lemma {:induction false} EmptyLists(fl: Lists, h: nat)
    requires forall l :: 0 <= l < |fl| ==> fl[l] == []
    ensures Occurrences(fl, h) == 0
  {
    if fl != [] { EmptyLists(fl[..|fl| - 1], h); }
  }

  // ----- the list invariant -----

  /** Every committed block is at least as large as all that come before it in the list. */
  ghost predicate Ascending(bs: seq<HeapBlock>, s: seq<nat>) {
    && (forall i :: 0 <= i < |s| ==> s[i] < |bs|)
    && forall i, j :: 0 <= i < j < |s| && bs[s[j]].committed ==> bs[s[i]].size <= bs[s[j]].size
  }

  /** A block is filed under its size; decommitted ones may also be at the back of the bus. */
  ghost predicate Filed(bs: seq<HeapBlock>, l: nat, h: nat)
    requires h < |bs|
  {
    bs[h].size > 0 && (l == GetFreeListIndex(bs[h].size) || (l == NUM_FREE_LISTS - 1 && !bs[h].committed))
  }

  ghost predicate ListOk(bs: seq<HeapBlock>, l: nat, s: seq<nat>) {
    Ascending(bs, s) && forall i :: 0 <= i < |s| ==> Filed(bs, l, s[i])
  }

  ghost predicate ListsOk(bs: seq<HeapBlock>, fl: Lists) {
    && |fl| == NUM_FREE_LISTS
    && (forall h: nat :: Occurrences(fl, h) == if h < |bs| && bs[h].free then 1 else 0)
    && (forall l: nat :: l < |fl| ==> ListOk(bs, l, fl[l]))
  }

  /** Blocks on a list are free, and a free block is on one. */
  lemma ListedIsFree(bs: seq<HeapBlock>, fl: Lists, l: nat, i: nat)
    requires ListsOk(bs, fl) && l < |fl| && i < |fl[l]|
    ensures fl[l][i] < |bs| && bs[fl[l][i]].free
  {
    InOccurs(fl, fl[l][i], l);
  }

  lemma FreeIsListed(bs: seq<HeapBlock>, fl: Lists, h: nat) returns (l: nat, i: nat)
    requires ListsOk(bs, fl) && h < |bs| && bs[h].free
    ensures l < |fl| && i < |fl[l]| && fl[l][i] == h && Filed(bs, l, h)
  {
    l := OccursIn(fl, h);
    i :| 0 <= i < |fl[l]| && fl[l][i] == h;
    assert ListOk(bs, l, fl[l]);
  }

  /** The lists do not care about blocks that are not on them. */
  lemma ListsFrame(bs: seq<HeapBlock>, bs': seq<HeapBlock>, fl: Lists)
    requires ListsOk(bs, fl) && |bs'| == |bs|
    requires forall h :: 0 <= h < |bs| ==> bs'[h].free == bs[h].free
    requires forall h :: 0 <= h < |bs| && bs[h].free ==>
      bs'[h].size == bs[h].size && bs'[h].committed == bs[h].committed
    ensures ListsOk(bs', fl)
  {
    forall l: nat | l < |fl| ensures ListOk(bs', l, fl[l]) {
      assert ListOk(bs, l, fl[l]);
      forall i: nat | i < |fl[l]| ensures fl[l][i] < |bs| && bs[fl[l][i]].free {
        ListedIsFree(bs, fl, l, i);
      }
    }
  }

  // ----- unlinking and inserting -----

  function Cut(s: seq<nat>, i: nat): seq<nat>
    requires i < |s|
  {
    s[..i] + s[i + 1..]
  }

  function Put(s: seq<nat>, i: nat, h: nat): seq<nat>
    requires i <= |s|
  {
    s[..i] + [h] + s[i..]
  }

  lemma CutCount(s: seq<nat>, i: nat, x: nat)
    requires i < |s|
    ensures multiset(Cut(s, i))[x] == multiset(s)[x] - if x == s[i] then 1 else 0
  {
    assert s == s[..i] + [s[i]] + s[i + 1..];
  }

  lemma PutCount(s: seq<nat>, i: nat, h: nat, x: nat)
    requires i <= |s|
    ensures multiset(Put(s, i, h))[x] == multiset(s)[x] + if x == h then 1 else 0
  {
    assert s == s[..i] + s[i..];
  }

  /** RemoveFromList. */
  lemma UnlinkKeeps(bs: seq<HeapBlock>, fl: Lists, l: nat, i: nat)
    requires ListsOk(bs, fl) && l < |fl| && i < |fl[l]|
    ensures fl[l][i] < |bs| && bs[fl[l][i]].free
    ensures ListsOk(bs[fl[l][i] := bs[fl[l][i]].(free := false)], fl[l := Cut(fl[l], i)])
  {
    var h := fl[l][i];
    ListedIsFree(bs, fl, l, i);
    hide Occurrences, ListOk, Cut;
    var bs', fl' := bs[h := bs[h].(free := false)], fl[l := Cut(fl[l], i)];
    forall x: nat ensures Occurrences(fl', x) == if x < |bs'| && bs'[x].free then 1 else 0 {
      OccurrencesUpdate(fl, l, Cut(fl[l], i), x);
      CutCount(fl[l], i, x);
      assert Occurrences(fl, x) == if x < |bs| && bs[x].free then 1 else 0;
    }
    forall k: nat | k < |fl'| ensures ListOk(bs', k, fl'[k]) {
      assert ListOk(bs, k, fl[k]);
      if k == l { CutKeeps(bs, l, fl[l], i); }
      SameSizes(bs, bs', k, fl'[k]);
    }
  }

  lemma CutKeeps(bs: seq<HeapBlock>, l: nat, s: seq<nat>, i: nat)
    requires ListOk(bs, l, s) && i < |s|
    ensures ListOk(bs, l, Cut(s, i))
  {
    var c := Cut(s, i);
    forall a | 0 <= a < |c| ensures c[a] == s[if a < i then a else a + 1] { }
  }

  lemma SameSizes(bs: seq<HeapBlock>, bs': seq<HeapBlock>, l: nat, s: seq<nat>)
    requires ListOk(bs, l, s) && |bs'| == |bs|
    requires forall x :: 0 <= x < |bs| ==> bs'[x].size == bs[x].size && bs'[x].committed == bs[x].committed
    ensures ListOk(bs', l, s)
  {
  }

  /** Where a block may be inserted: nothing larger before a committed one, no smaller committed one after it. */
  ghost predicate FitsAt(bs: seq<HeapBlock>, s: seq<nat>, i: nat, h: nat) {
    && h < |bs| && i <= |s|
    && (forall a :: 0 <= a < |s| ==> s[a] < |bs|)
    && (bs[h].committed ==> forall a :: 0 <= a < i ==> bs[s[a]].size <= bs[h].size)
    && (forall b :: i <= b < |s| && bs[s[b]].committed ==> bs[h].size <= bs[s[b]].size)
  }

  lemma PutKeeps(bs: seq<HeapBlock>, l: nat, s: seq<nat>, i: nat, h: nat)
    requires ListOk(bs, l, s) && FitsAt(bs, s, i, h) && Filed(bs, l, h)
    ensures ListOk(bs, l, Put(s, i, h))
  {
    var p := Put(s, i, h);
    forall a | 0 <= a < |p| ensures p[a] == if a < i then s[a] else if a == i then h else s[a - 1] { }
  }

  /** AddToFreeList(block, pointToInsert). */
  lemma InsertKeeps(bs: seq<HeapBlock>, fl: Lists, l: nat, i: nat, h: nat)
    requires ListsOk(bs, fl) && l < |fl| && h < |bs| && !bs[h].free
    requires FitsAt(bs, fl[l], i, h) && Filed(bs, l, h)
    ensures ListsOk(bs[h := bs[h].(free := true)], fl[l := Put(fl[l], i, h)])
  {
    hide Occurrences, ListOk, Put;
    var bs', fl' := bs[h := bs[h].(free := true)], fl[l := Put(fl[l], i, h)];
    forall x: nat ensures Occurrences(fl', x) == if x < |bs'| && bs'[x].free then 1 else 0 {
      OccurrencesUpdate(fl, l, Put(fl[l], i, h), x);
      PutCount(fl[l], i, h, x);
      assert Occurrences(fl, x) == if x < |bs| && bs[x].free then 1 else 0;
    }
    forall k: nat | k < |fl'| ensures ListOk(bs', k, fl'[k]) {
      assert ListOk(bs, k, fl[k]);
      if k == l { PutKeeps(bs, l, fl[l], i, h); }
      SameSizes(bs, bs', k, fl'[k]);
    }
  }

  /**
   Where AddToFreeList files a block: behind all others in a list of one size, and before the
   first that is no smaller in the others.
   */
  ghost predicate PlaceFor(bs: seq<HeapBlock>, s: seq<nat>, at: nat, size: nat) {
    && at <= |s|
    && if size < UNIQUE_THRESHOLD then at == |s|
       else (forall a :: 0 <= a < at ==> s[a] < |bs| && bs[s[a]].size < size)
            && (at < |s| ==> s[at] < |bs| && bs[s[at]].size >= size)
  }

  /** The point AddToFreeList chooses: before the first block that is no smaller. */
  lemma SortedPointFits(bs: seq<HeapBlock>, l: nat, s: seq<nat>, i: nat, h: nat)
    requires ListOk(bs, l, s) && i <= |s| && h < |bs|
    requires forall a :: 0 <= a < i ==> bs[s[a]].size < bs[h].size
    requires i < |s| ==> bs[s[i]].size >= bs[h].size
    ensures FitsAt(bs, s, i, h)
  {
  }

  /** In a list of one size any point will do. */
  lemma UniquePointFits(bs: seq<HeapBlock>, l: nat, s: seq<nat>, h: nat)
    requires ListOk(bs, l, s) && h < |bs| && 0 < bs[h].size < UNIQUE_THRESHOLD && l == GetFreeListIndex(bs[h].size)
    ensures FitsAt(bs, s, |s|, h)
  {
    forall a | 0 <= a < |s| ensures bs[s[a]].size == bs[h].size {
      assert Filed(bs, l, s[a]);
      OneSizePerList(bs[h].size, bs[s[a]].size);
    }
  }

  /** The point Decommit chooses: before the first decommitted block that is no smaller. */
  lemma BackOfTheBusFits(bs: seq<HeapBlock>, l: nat, s: seq<nat>, i: nat, h: nat)
    requires ListOk(bs, l, s) && i <= |s| && h < |bs| && !bs[h].committed
    requires i < |s| ==> bs[s[i]].size >= bs[h].size && !bs[s[i]].committed
    ensures FitsAt(bs, s, i, h)
  {
  }
}
