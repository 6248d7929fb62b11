/**
 How much memory the page heap gives back: the policy of Decommit, in the unsigned
 arithmetic that it is written in.
 */
module HeapPolicy {
  import opened HeapLayout

  const DECOMMIT_THRESHOLD_PERCENTAGE := 25
  const RELEASE_THRESHOLD_PERCENTAGE := 50

  /** Sizes are unsigned machine words. */
  const WORD: nat := 0x1_0000_0000_0000_0000

  function Word(x: int): nat {
    x % WORD
  }

  const INT_RANGE: nat := 0x1_0000_0000

  /** The word that is left of `x` when it is cast to a signed integer of 32 bits and back. */
  function ThroughInt(x: nat): nat {
    var low := x % INT_RANGE;
    if low < INT_RANGE / 2 then low else Word(low - INT_RANGE)
  }

  /** What the configuration says, and whether out-of-memory handling is on. */
  datatype Policy = Policy(returnMemory: bool, oomHandling: bool, heapLimit: nat, heapSoftLimit: nat,
                           trimVirtualMemory: bool)

  predicate MuchIsFree(heapSize: nat, freeSize: nat) {
    Word(freeSize * 100) > Word(heapSize * DECOMMIT_THRESHOLD_PERCENTAGE)
  }

  /** The heap is above the limit, and would not be without its free pages. */
  predicate OverLimit(limit: nat, heapSize: nat, freeSize: nat) {
    heapSize > limit && Word(heapSize - freeSize) < limit
  }

  /** Whether anything is to be given back. */
  predicate Wanted(p: Policy, heapSize: nat, freeSize: nat) {
    && p.returnMemory && p.oomHandling
    && (MuchIsFree(heapSize, freeSize) || OverLimit(p.heapLimit, heapSize, freeSize)
        || (p.heapSoftLimit != 0 && OverLimit(p.heapSoftLimit, heapSize, freeSize)))
  }

  /** How much, before the adjustments. */
  function Surplus(p: Policy, heapSize: nat, freeSize: nat): nat {
    if MuchIsFree(heapSize, freeSize) then ThroughInt(Word(freeSize * 100 - heapSize * DECOMMIT_THRESHOLD_PERCENTAGE) / 100)
    else if OverLimit(p.heapLimit, heapSize, freeSize) then Word(heapSize - p.heapLimit + 1)
    else Word(heapSize - p.heapSoftLimit + 1)
  }

  /** It is worth the trouble for 32 pages at least, and the heap keeps its initial size. */
  function DecommitSize(p: Policy, initialSize: nat, heapSize: nat, freeSize: nat): nat {
    if !Wanted(p, heapSize, freeSize) then 0
    else
      var d := Surplus(p, heapSize, freeSize);
      var d1 := if d < MIN_HEAP_INCREMENT && freeSize > MIN_HEAP_INCREMENT then MIN_HEAP_INCREMENT else d;
      if Word(heapSize - d1) < initialSize then Word(heapSize - initialSize) else d1
  }

  predicate MayRelease(p: Policy, heapSize: nat, freeSize: nat) {
    p.trimVirtualMemory && Word(freeSize * 100) > Word(heapSize * RELEASE_THRESHOLD_PERCENTAGE)
  }

  /** Sizes for which nothing is lost in the computations, except perhaps in the last one. */
  predicate Sane(p: Policy, initialSize: nat, heapSize: nat, freeSize: nat) {
    freeSize <= heapSize < INT_RANGE / 2 && initialSize < WORD && p.heapLimit < WORD && p.heapSoftLimit < WORD
  }

  lemma NoWrap(x: int)
    requires 0 <= x < WORD
    ensures Word(x) == x
  {
  }

  /** For sane sizes nothing wraps before the last subtraction. */
  lemma SurplusIs(p: Policy, initialSize: nat, heapSize: nat, freeSize: nat)
    requires Sane(p, initialSize, heapSize, freeSize)
    ensures MuchIsFree(heapSize, freeSize) <==> freeSize * 100 > heapSize * 25
    ensures forall l: nat :: OverLimit(l, heapSize, freeSize) <==> heapSize - freeSize < l < heapSize
    ensures Wanted(p, heapSize, freeSize) ==>
      Surplus(p, heapSize, freeSize) ==
        if freeSize * 100 > heapSize * 25 then (freeSize * 100 - heapSize * 25) / 100
        else if heapSize - freeSize < p.heapLimit < heapSize then heapSize - p.heapLimit + 1
        else heapSize - p.heapSoftLimit + 1
    ensures Wanted(p, heapSize, freeSize) ==> Surplus(p, heapSize, freeSize) <= freeSize
  {
    NoWrap(freeSize * 100);
    NoWrap(heapSize * 25);
    NoWrap(heapSize - freeSize);
    if freeSize * 100 > heapSize * 25 { NoWrap(freeSize * 100 - heapSize * 25); }
    if heapSize - freeSize < p.heapLimit < heapSize { NoWrap(heapSize - p.heapLimit + 1); }
    if heapSize - freeSize < p.heapSoftLimit < heapSize { NoWrap(heapSize - p.heapSoftLimit + 1); }
    hide Word;
  }

  /** The free pages that are kept: at most a quarter of the heap as it was, or of what the limit leaves. */
  lemma EnoughIsGivenBack(p: Policy, initialSize: nat, heapSize: nat, freeSize: nat)
    requires Sane(p, initialSize, heapSize, freeSize) && Wanted(p, heapSize, freeSize)
    requires DecommitSize(p, initialSize, heapSize, freeSize) + initialSize < heapSize
    ensures var d := DecommitSize(p, initialSize, heapSize, freeSize);
      if freeSize * 100 > heapSize * 25 then freeSize - d <= heapSize / 4 + 1
      else if heapSize - freeSize < p.heapLimit < heapSize then heapSize - d < p.heapLimit
      else heapSize - d < p.heapSoftLimit
  {
    SurplusIs(p, initialSize, heapSize, freeSize);
    SizeIs(p, initialSize, heapSize, freeSize);
  }

  /** What is asked for after the adjustments, for sane sizes. */
  lemma SizeIs(p: Policy, initialSize: nat, heapSize: nat, freeSize: nat)
    requires Sane(p, initialSize, heapSize, freeSize) && Wanted(p, heapSize, freeSize)
    ensures var d := Surplus(p, heapSize, freeSize);
      var d1 := if d < 32 && freeSize > 32 then 32 else d;
      && d1 <= freeSize
      && DecommitSize(p, initialSize, heapSize, freeSize) ==
           if heapSize - d1 >= initialSize then d1 else if heapSize >= initialSize then heapSize - initialSize
           else heapSize - initialSize + WORD
  {
    SurplusIs(p, initialSize, heapSize, freeSize);
    var d := Surplus(p, heapSize, freeSize);
    var d1 := if d < MIN_HEAP_INCREMENT && freeSize > MIN_HEAP_INCREMENT then MIN_HEAP_INCREMENT else d;
    NoWrap(heapSize - d1);
  }

  /**
   What is asked for is free, and leaves the heap its initial size, exactly if the heap
   has its initial size; otherwise the last subtraction wraps, and everything is asked for.
   */
  lemma InitialSizeIsKept(p: Policy, initialSize: nat, heapSize: nat, freeSize: nat)
    requires Sane(p, initialSize, heapSize, freeSize) && Wanted(p, heapSize, freeSize)
    ensures var d := DecommitSize(p, initialSize, heapSize, freeSize);
      && (d <= freeSize && d + initialSize <= heapSize <==> initialSize <= heapSize)
      && (heapSize < initialSize ==> d > heapSize)
  {
    SizeIs(p, initialSize, heapSize, freeSize);
  }

  /** No limit is exceeded that could be met by giving back free pages. */
  predicate WithinLimits(p: Policy, heapSize: int, freeSize: int) {
    && !(heapSize - freeSize < p.heapLimit < heapSize)
    && (p.heapSoftLimit == 0 || !(heapSize - freeSize < p.heapSoftLimit < heapSize))
  }

  /**
   How many pages ought to be given back: those by which more than a quarter is free, or
   else those that take the heap below the limit it is above; 32 at least, if so many are
   free, but none of the initial size.
   */
  function Due(p: Policy, initialSize: int, heapSize: int, freeSize: int): int {
    if !p.returnMemory || !p.oomHandling || (4 * freeSize <= heapSize && WithinLimits(p, heapSize, freeSize)) then 0
    else
      var excess :=
        if 4 * freeSize > heapSize then freeSize - (heapSize + 3) / 4
        else if heapSize - freeSize < p.heapLimit < heapSize then heapSize - p.heapLimit + 1
        else heapSize - p.heapSoftLimit + 1;
      Least(if freeSize > 32 then Most(excess, 32) else excess, heapSize - initialSize)
  }

  /** For sane sizes, that is what the unsigned arithmetic comes to. */
  lemma AskedForIsDue(p: Policy, initialSize: nat, heapSize: nat, freeSize: nat)
    requires Sane(p, initialSize, heapSize, freeSize) && initialSize <= heapSize
    ensures DecommitSize(p, initialSize, heapSize, freeSize) == Due(p, initialSize, heapSize, freeSize)
    ensures Due(p, initialSize, heapSize, freeSize) > 0 ==> Wanted(p, heapSize, freeSize)
  {
    SurplusIs(p, initialSize, heapSize, freeSize);
    assert Wanted(p, heapSize, freeSize) <==>
      p.returnMemory && p.oomHandling && !(4 * freeSize <= heapSize && WithinLimits(p, heapSize, freeSize));
    if Wanted(p, heapSize, freeSize) {
      SizeIs(p, initialSize, heapSize, freeSize);
      if 4 * freeSize > heapSize { Quarter(heapSize, freeSize); }
    }
    hide Wanted, Surplus, Sane;
  }

  lemma Quarter(heapSize: nat, freeSize: nat)
    requires 4 * freeSize > heapSize
    ensures (freeSize * 100 - heapSize * 25) / 100 == freeSize - (heapSize + 3) / 4
  {
  }
}
