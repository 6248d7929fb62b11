/**
 The collector's budget for quick lists.  Every allocator obtains its share in units
 of one block's worth; when the budget runs short, the collector coalesces the quick
 lists of the rotated allocators in turn.  The two bibop allocators obtain budget
 too, but are never made to give it back here.
 */
module QuickListBudget {

  const BLOCK_SIZE: nat := 4096
  const NUM_SIZE_CLASSES: nat := 40
  const ROTATED: nat := 5 * NUM_SIZE_CLASSES
  const TOTAL_BUDGET: nat := 3 * NUM_SIZE_CLASSES * 4 * BLOCK_SIZE

  function Sum(s: seq<nat>): nat {
    if s == [] then 0 else Sum(s[..|s| - 1]) + s[|s| - 1]
  }

  lemma {:induction false} SumUpdate(s: seq<nat>, i: nat, x: nat)
    requires i < |s|
    ensures Sum(s[i := x]) == Sum(s) - s[i] + x
    decreases |s|
  {
    var n := |s| - 1;
    if i == n {
      assert s[i := x][..n] == s[..n];
    } else {
      assert s[i := x][..n] == s[..n][i := x];
      SumUpdate(s[..n], i, x);
    }
  }

  lemma {:induction false} SumMonotone(a: seq<nat>, b: seq<nat>)
    requires |a| == |b| && forall i :: 0 <= i < |a| ==> a[i] <= b[i]
    ensures Sum(a) <= Sum(b)
    ensures Sum(a) == Sum(b) ==> forall i :: 0 <= i < |a| ==> a[i] == b[i]
  {
    if a != [] { SumMonotone(a[..|a| - 1], b[..|b| - 1]); }
  }

  lemma {:induction false} SumBound(s: seq<nat>, m: nat)
    requires forall i :: 0 <= i < |s| ==> s[i] <= m
    ensures Sum(s) <= |s| * m
  {
    if s != [] { SumBound(s[..|s| - 1], m); }
  }

  // ----- the state, in bytes -----

  /** Every rotated allocator holds at least one block's worth, `base`; the bibop allocators hold `held` together. */
  ghost predicate Conserved(remaining: int, obtained: seq<nat>, base: seq<nat>, held: nat) {
    && |obtained| == |base| == ROTATED
    && (forall i :: 0 <= i < ROTATED ==> base[i] <= obtained[i])
    && remaining + Sum(obtained) + held == TOTAL_BUDGET
  }

  /** What would be left if all rotated quick lists were coalesced is more than what is asked for. */
  ghost predicate Settles(base: seq<nat>, held: nat, nbytes: nat) {
    TOTAL_BUDGET - held - Sum(base) > nbytes
  }

  /** The victim `k` places further on, counting round. */
  function Ahead(victim: nat, k: nat): (v: nat)
    requires victim < ROTATED && k < ROTATED
    ensures v < ROTATED
  {
    if victim + k < ROTATED then victim + k else victim + k - ROTATED
  }

  lemma AheadIsModulo(victim: nat)
    requires victim < ROTATED
    ensures Ahead(victim, 1) == (victim + 1) % ROTATED
  {
  }

  /** How many victims come before one that has something to give back. */
  ghost function Distance(obtained: seq<nat>, base: seq<nat>, victim: nat, k: nat): nat
    requires |obtained| == |base| == ROTATED && victim < ROTATED
    decreases ROTATED - k
  {
    if k >= ROTATED || obtained[Ahead(victim, k)] > base[Ahead(victim, k)] then 0
    else 1 + Distance(obtained, base, victim, k + 1)
  }

  lemma {:induction false} DistanceNext(obtained: seq<nat>, base: seq<nat>, victim: nat, k: nat, w: nat)
    requires |obtained| == |base| == ROTATED && victim < ROTATED && 0 < k <= w < ROTATED
    requires obtained[Ahead(victim, w)] > base[Ahead(victim, w)]
    ensures Distance(obtained, base, Ahead(victim, 1), k - 1) == Distance(obtained, base, victim, k)
    decreases ROTATED - k
  {
    assert Ahead(Ahead(victim, 1), k - 1) == Ahead(victim, k);
    if k < w { DistanceNext(obtained, base, victim, k + 1, w); }
  }

  /** Seen from the victim, an allocator with something to give back is less than a full turn away. */
  lemma VictimAhead(obtained: seq<nat>, base: seq<nat>, victim: nat, w: nat)
    requires |obtained| == |base| == ROTATED && victim < ROTATED && w < ROTATED && obtained[w] > base[w]
    requires obtained[victim] <= base[victim]
    ensures Distance(obtained, base, Ahead(victim, 1), 0) < Distance(obtained, base, victim, 0)
  {
    var d := if w >= victim then w - victim else w + ROTATED - victim;
    assert Ahead(victim, d) == w && Ahead(victim, 0) == victim;
    DistanceNext(obtained, base, victim, 1, d);
  }

  /** Each round of the loop either gives something back or comes nearer to a victim that can. */
  lemma RoundProgress(remaining: int, obtained: seq<nat>, base: seq<nat>, held: nat, victim: nat, nbytes: nat)
    requires Conserved(remaining, obtained, base, held) && victim < ROTATED
    requires Settles(base, held, nbytes) && remaining <= nbytes
    ensures var after := obtained[victim := base[victim]];
      Sum(after) < Sum(obtained)
      || (after == obtained && Distance(after, base, Ahead(victim, 1), 0) < Distance(obtained, base, victim, 0))
  {
    SumMonotone(base, obtained);
    SumUpdate(obtained, victim, base[victim]);
    if obtained[victim] == base[victim] {
      assert obtained != base;
      assert exists w: nat :: w < ROTATED && obtained[w] != base[w];
      var w: nat :| w < ROTATED && obtained[w] != base[w];
      VictimAhead(obtained, base, victim, w);
      assert obtained[victim := base[victim]] == obtained;
    }
  }

  /** The victim of round `k`. */
  function Victim(victim: nat, k: nat): (v: nat)
    requires victim < ROTATED
    ensures v < ROTATED
  {
    if k == 0 then victim else (Victim(victim, k - 1) + 1) % ROTATED
  }

  /** The budget left, and what is obtained, after `k` rounds of the loop. */
  function AfterRounds(remaining: int, obtained: seq<nat>, base: seq<nat>, victim: nat, k: nat): (r: (int, seq<nat>))
    requires |obtained| == |base| == ROTATED && victim < ROTATED
    ensures |r.1| == ROTATED
  {
    if k == 0 then (remaining, obtained)
    else
      var (r, o) := AfterRounds(remaining, obtained, base, victim, k - 1);
      var v := Victim(victim, k - 1);
      (r + o[v] - base[v], o[v := base[v]])
  }

  /**
   After `rounds` rounds of coalescing the victims in their turn, the first that leaves more
   than `nbytes`, the budget is `r`, `o` is obtained, and `v` is next.
   */
  ghost predicate RoundRobin(r0: int, o0: seq<nat>, base: seq<nat>, v0: nat, nbytes: nat, rounds: nat,
                             r: int, o: seq<nat>, v: nat)
    requires |o0| == |base| == ROTATED && v0 < ROTATED
  {
    && (r, o) == AfterRounds(r0, o0, base, v0, rounds) && v == Victim(v0, rounds)
    && forall k: nat :: k < rounds ==> AfterRounds(r0, o0, base, v0, k).0 <= nbytes
  }

  lemma RoundRobinStart(r0: int, o0: seq<nat>, base: seq<nat>, v0: nat, nbytes: nat)
    requires |o0| == |base| == ROTATED && v0 < ROTATED
    ensures RoundRobin(r0, o0, base, v0, nbytes, 0, r0, o0, v0)
  {
  }

  lemma RoundRobinNext(r0: int, o0: seq<nat>, base: seq<nat>, v0: nat, nbytes: nat, rounds: nat,
                       r: int, o: seq<nat>, v: nat)
    requires |o0| == |base| == ROTATED && v0 < ROTATED
    requires RoundRobin(r0, o0, base, v0, nbytes, rounds, r, o, v) && r <= nbytes
    ensures |o| == ROTATED && v < ROTATED
    ensures RoundRobin(r0, o0, base, v0, nbytes, rounds + 1, r + o[v] - base[v], o[v := base[v]], (v + 1) % ROTATED)
  {
  }

  /** No round is made that is not called for, and a quick list is left alone or coalesced. */
  lemma RoundRobinIs(r0: int, o0: seq<nat>, base: seq<nat>, v0: nat, nbytes: nat, rounds: nat,
                     r: int, o: seq<nat>, v: nat)
    requires |o0| == |base| == ROTATED && v0 < ROTATED
    requires RoundRobin(r0, o0, base, v0, nbytes, rounds, r, o, v)
    ensures r0 > nbytes ==> rounds == 0 && r == r0 && o == o0 && v == v0
    ensures |o| == ROTATED && forall i :: 0 <= i < ROTATED ==> o[i] == o0[i] || o[i] == base[i]
  {
    assert rounds > 0 ==> AfterRounds(r0, o0, base, v0, 0).0 == r0;
    RoundsTouch(r0, o0, base, v0, rounds);
  }

  lemma {:induction false} RoundsTouch(r0: int, o0: seq<nat>, base: seq<nat>, v0: nat, k: nat)
    requires |o0| == |base| == ROTATED && v0 < ROTATED
    ensures var o := AfterRounds(r0, o0, base, v0, k).1; forall i :: 0 <= i < ROTATED ==> o[i] == o0[i] || o[i] == base[i]
  {
    if k > 0 { RoundsTouch(r0, o0, base, v0, k - 1); }
  }

  class QuickLists {
    const base: seq<nat>
    var remainingQuickListBudget: int
    var obtained: seq<nat>
    var victimIterator: nat

    /** What the bibop allocators have obtained. */
    var held: nat

    ghost predicate Valid()
      reads this
    {
      && Conserved(remainingQuickListBudget, obtained, base, held)
      && victimIterator < ROTATED && remainingQuickListBudget > 0
    }

    /** All allocators have been created, each with one block's worth: `held` is that of the two bibop allocators. */
    constructor (base: seq<nat>, held: nat)
      requires |base| == ROTATED && (forall i :: 0 <= i < ROTATED ==> base[i] <= BLOCK_SIZE) && held <= 2 * BLOCK_SIZE
      ensures Valid() && this.base == base && obtained == base && this.held == held
    {
      BlocksSuffice(base, held, 0);
      this.base, obtained, this.held := base, base, held;
      remainingQuickListBudget, victimIterator := TOTAL_BUDGET - held - Sum(base), 0;
    }

    /** CoalesceQuickList of one allocator, as far as the budget is concerned (RelinquishQuickListBudget). */
    method Coalesce(i: nat)
      requires Conserved(remainingQuickListBudget, obtained, base, held) && i < ROTATED
      modifies this`remainingQuickListBudget, this`obtained
      ensures Conserved(remainingQuickListBudget, obtained, base, held)
      ensures obtained == old(obtained)[i := base[i]]
      ensures remainingQuickListBudget == old(remainingQuickListBudget) + old(obtained)[i] - base[i]
    {
      SumUpdate(obtained, i, base[i]);
      remainingQuickListBudget := remainingQuickListBudget + obtained[i] - base[i];
      obtained := obtained[i := base[i]];
    }

    /**
     The loop of ObtainQuickListBudget: coalesce the victims in turn until the budget
     suffices.  It ends, provided coalescing all of them would free enough.
     */
    method MakeRoom(nbytes: nat) returns (ghost rounds: nat)
      requires Conserved(remainingQuickListBudget, obtained, base, held) && victimIterator < ROTATED
      requires Settles(base, held, nbytes)
      modifies this`remainingQuickListBudget, this`obtained, this`victimIterator
      ensures Conserved(remainingQuickListBudget, obtained, base, held) && victimIterator < ROTATED
      ensures remainingQuickListBudget > nbytes
      // it stops as soon as the budget suffices; as long as it does, nothing is coalesced
      ensures old(remainingQuickListBudget) > nbytes ==>
        obtained == old(obtained) && victimIterator == old(victimIterator)
      ensures RoundRobin(old(remainingQuickListBudget), old(obtained), base, old(victimIterator), nbytes, rounds,
                         remainingQuickListBudget, obtained, victimIterator)
      ensures forall i :: 0 <= i < ROTATED ==> obtained[i] == old(obtained)[i] || obtained[i] == base[i]
    {
      rounds := 0;
      ghost var r0, o0, v0 := remainingQuickListBudget, obtained, victimIterator;
      RoundRobinStart(r0, o0, base, v0, nbytes);
      hide RoundRobin, Sum, Distance, Settles, Ahead, Victim, AfterRounds;
      while remainingQuickListBudget <= nbytes
        invariant Conserved(remainingQuickListBudget, obtained, base, held) && victimIterator < ROTATED
        invariant RoundRobin(r0, o0, base, v0, nbytes, rounds, remainingQuickListBudget, obtained, victimIterator)
        decreases Sum(obtained), Distance(obtained, base, victimIterator, 0)
      {
        RoundProgress(remainingQuickListBudget, obtained, base, held, victimIterator, nbytes);
        RoundRobinNext(r0, o0, base, v0, nbytes, rounds, remainingQuickListBudget, obtained, victimIterator);
        AheadIsModulo(victimIterator);
        Coalesce(victimIterator);
        victimIterator := (victimIterator + 1) % ROTATED;
        rounds := rounds + 1;
      }
      RoundRobinIs(r0, o0, base, v0, nbytes, rounds, remainingQuickListBudget, obtained, victimIterator);
    }

    /** ObtainQuickListBudget for a rotated allocator. */
    method ObtainQuickListBudget(i: nat, nbytes: nat)
      requires Valid() && i < ROTATED && Settles(base, held, nbytes)
      modifies this
      ensures Valid() && held == old(held)
      ensures obtained[i] == old(obtained)[i] + nbytes || obtained[i] == base[i] + nbytes
      ensures forall j :: 0 <= j < ROTATED && j != i ==> obtained[j] == old(obtained)[j] || obtained[j] == base[j]
      ensures old(remainingQuickListBudget) > nbytes ==>
        obtained == old(obtained)[i := old(obtained)[i] + nbytes] && victimIterator == old(victimIterator)
    {
      var _ := MakeRoom(nbytes);
      SumUpdate(obtained, i, obtained[i] + nbytes);
      remainingQuickListBudget := remainingQuickListBudget - nbytes;
      obtained := obtained[i := obtained[i] + nbytes];
    }

    /** ObtainQuickListBudget for a bibop allocator. */
    method ObtainBibopBudget(nbytes: nat)
      requires Valid() && Settles(base, held, nbytes)
      modifies this
      ensures Valid() && held == old(held) + nbytes
      ensures forall j :: 0 <= j < ROTATED ==> obtained[j] == old(obtained)[j] || obtained[j] == base[j]
      ensures old(remainingQuickListBudget) > nbytes ==>
        obtained == old(obtained) && victimIterator == old(victimIterator)
    {
      var _ := MakeRoom(nbytes);
      remainingQuickListBudget := remainingQuickListBudget - nbytes;
      held := held + nbytes;
    }
  }

  // ----- exactly when the loop ends -----

  lemma {:induction false} RoundsConserve(remaining: int, obtained: seq<nat>, base: seq<nat>, victim: nat, held: nat,
                                          k: nat)
    requires Conserved(remaining, obtained, base, held) && victim < ROTATED
    ensures Conserved(AfterRounds(remaining, obtained, base, victim, k).0, AfterRounds(remaining, obtained, base, victim, k).1, base, held)
  {
    if k > 0 {
      RoundsConserve(remaining, obtained, base, victim, held, k - 1);
      var r := AfterRounds(remaining, obtained, base, victim, k - 1);
      var v := Victim(victim, k - 1);
      SumUpdate(r.1, v, base[v]);
    }
  }

  /**
   When coalescing everything would not free enough, the loop never ends: the guard holds after any
   number of rounds.
   */
  lemma NeverSettles(remaining: int, obtained: seq<nat>, base: seq<nat>, victim: nat, held: nat, nbytes: nat, k: nat)
    requires Conserved(remaining, obtained, base, held) && victim < ROTATED && !Settles(base, held, nbytes)
    ensures AfterRounds(remaining, obtained, base, victim, k).0 <= nbytes
  {
    RoundsConserve(remaining, obtained, base, victim, held, k);
    SumMonotone(base, AfterRounds(remaining, obtained, base, victim, k).1);
  }

  /**
   It always comes to that in the end: whatever one block's worth is for each allocator,
   a bibop allocator that asks for its own again and again is granted so much that its
   next request loops forever.
   */
  method BibopAllocatorsTakeAll(base: seq<nat>, worth: nat) returns (q: QuickLists)
    requires |base| == ROTATED && forall i :: 0 <= i < ROTATED ==> base[i] <= BLOCK_SIZE
    requires 0 < worth <= BLOCK_SIZE
    ensures fresh(q) && q.Valid() && q.base == base && !Settles(base, q.held, worth)
  {
    q := new QuickLists(base, 2 * worth);
    hide Sum, Conserved;
    while TOTAL_BUDGET - q.held - Sum(base) > worth
      invariant fresh(q) && q.Valid() && q.base == base
      decreases TOTAL_BUDGET - q.held - Sum(base)
    {
      q.ObtainBibopBudget(worth);
    }
  }

  /**
   With at most a block's worth per allocator, the loop ends as long as the bibop allocators and the
   request stay below 280 blocks' worth ...
   */
  lemma BlocksSuffice(base: seq<nat>, held: nat, nbytes: nat)
    requires |base| == ROTATED && forall i :: 0 <= i < ROTATED ==> base[i] <= BLOCK_SIZE
    requires held + nbytes < 280 * BLOCK_SIZE
    ensures Settles(base, held, nbytes)
  {
    SumBound(base, BLOCK_SIZE);
  }

  /** ... and the bytes on all quick lists together stay below the budget the collector began with. */
  lemma QuickBytesBounded(remaining: int, obtained: seq<nat>, base: seq<nat>, held: nat, quick: seq<nat>,
                          quickHeld: nat)
    requires Conserved(remaining, obtained, base, held) && remaining > 0
    requires |quick| == ROTATED && (forall i :: 0 <= i < ROTATED ==> quick[i] <= obtained[i]) && quickHeld <= held
    ensures Sum(quick) + quickHeld < TOTAL_BUDGET
  {
    SumMonotone(quick, obtained);
  }
}
