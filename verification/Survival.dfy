/**
 What survives a sweep whose callbacks read weak references: exactly what is marked
 when the callbacks begin, what they read with a push that is not refused, and what
 is led to from there.
 */
module Survival {
  import opened MarkState
  import opened MarkSteps
  import opened MutatorSteps

  /** Pointers from members of `s` lead to members; if `loose`, also those that dangle. */
  ghost predicate HoldsOn(g: Graph, s: set<Obj>, loose: bool) {
    forall x, i: nat ::
      x in s && x in g.fields && i < |g.fields[x]| && g.fields[x][i] != NULL && (loose || (x, i) !in g.dangling) ==>
        g.fields[x][i] in s
  }

  /** Pointers lead from `seeds` to `o`: it belongs to every set that holds `seeds` and is closed under pointers. */
  ghost predicate LedTo(g: Graph, seeds: set<Obj>, o: Obj, loose: bool) {
    forall s: set<Obj> :: HoldsOn(g, s, loose) && seeds <= s ==> o in s
  }

  ghost function Reached(g: Graph, seeds: set<Obj>): set<Obj> {
    set o | o in g.fields.Keys && LedTo(g, seeds, o, true)
  }

  function Objects(read: seq<Obj>): set<Obj> {
    set o | o in read
  }

  ghost function RootTargets(g: Graph): set<Obj> {
    set o | o in g.fields.Keys && IsRoot(g, o)
  }

  /** Where nothing dangles there is one notion of what is led to. */
  lemma LedToStrictly(g: Graph, seeds: set<Obj>, o: Obj)
    requires g.dangling == {}
    ensures LedTo(g, seeds, o, true) <==> LedTo(g, seeds, o, false)
  {
    forall s: set<Obj> ensures HoldsOn(g, s, true) <==> HoldsOn(g, s, false) {
    }
  }

  /** More seeds lead to more. */
  lemma LedToMore(g: Graph, a: set<Obj>, b: set<Obj>, loose: bool)
    requires a <= b
    ensures forall o :: LedTo(g, a, o, loose) ==> LedTo(g, b, o, loose)
  {
  }

  lemma SeedsAreLedTo(g: Graph, seeds: set<Obj>, loose: bool)
    ensures forall o :: o in seeds ==> LedTo(g, seeds, o, loose)
  {
  }

  /** Seeds without pointers lead to themselves only. */
  lemma LeavesLeadNowhere(g: Graph, seeds: set<Obj>, leaves: set<Obj>, o: Obj)
    requires forall x :: x in leaves && x in g.fields ==> PointersIn(g.fields[x], {})
    requires LedTo(g, seeds + leaves, o, true) && o !in leaves
    ensures LedTo(g, seeds, o, true)
  {
    forall s: set<Obj> | HoldsOn(g, s, true) && seeds <= s ensures o in s {
      assert HoldsOn(g, s + leaves, true);
    }
  }

  // ----- from above: no mark without a reason -----

  lemma ReachedHoldsOn(g: Graph, bits: map<Obj, Bits>, seeds: set<Obj>)
    requires GraphOk(g, bits)
    ensures HoldsOn(g, Reached(g, seeds), true)
  {
    var l := Reached(g, seeds);
    forall x, i: nat | x in l && i < |g.fields[x]| && g.fields[x][i] != NULL ensures g.fields[x][i] in l {
      assert PointersIn(g.fields[x], bits.Keys);
    }
  }

  lemma ReachedRoots(g: Graph, bits: map<Obj, Bits>, seeds: set<Obj>)
    requires GraphOk(g, bits) && RootTargets(g) <= seeds
    ensures RootPointersIn(g, Reached(g, seeds))
  {
    var l := Reached(g, seeds);
    SeedsAreLedTo(g, seeds, true);
    hide LedTo;
    assert RootTargets(g) <= l;
    forall i | 0 <= i < |g.roots| ensures PointersIn(g.roots[i].ptrs, l) {
      assert PointersIn(g.roots[i].ptrs, bits.Keys);
    }
  }

  /** Whatever is on the stack is pending. */
  lemma StackIsPending(g: Graph, m: Marks)
    requires StacksOk(g, m) && m.bar == []
    ensures forall o :: o in m.bits && m.bits[o].Queued() ==> o in Pending(m)
    ensures forall o :: o in m.again ==> o in Pending(m)
  {
    forall o | o in m.bits && (m.bits[o].Queued() || o in m.again) ensures o in Pending(m) {
      assert Occurrences(m, o) > 0;
      assert GCObject(o) in multiset(m.inc);
    }
  }

  /** Marking from here on may be bounded by what is led to, and that is no more than was allowed. */
  lemma ReachedBounds(g: Graph, m: Marks, allowed: set<Obj>)
    requires Sound(g, m, allowed) && m.bar == []
    ensures var l := Reached(g, Pending(m) + RootTargets(g)); Sound(g, m, l) && l <= allowed
  {
    var seeds := Pending(m) + RootTargets(g);
    var l := Reached(g, seeds);
    StackIsPending(g, m);
    ReachedHoldsOn(g, m.bits, seeds);
    ReachedRoots(g, m.bits, seeds);
    SeedsAreLedTo(g, seeds, true);
    SeedsAllowed(g, m, allowed);
    hide StacksOk, LedTo;
    ReachedConfines(g, m.bits, seeds, l);
  }

  lemma ReachedConfines(g: Graph, bits: map<Obj, Bits>, seeds: set<Obj>, l: set<Obj>)
    requires GraphOk(g, bits) && HoldsOn(g, l, true) && RootPointersIn(g, l)
    requires forall o :: o in bits && (bits[o].Queued() || bits[o].Black()) ==> o in l
    ensures Confined(g, bits, l)
  {
  }

  lemma SeedsAllowed(g: Graph, m: Marks, allowed: set<Obj>)
    requires Sound(g, m, allowed) && m.bar == []
    ensures Reached(g, Pending(m) + RootTargets(g)) <= allowed
  {
    forall o | o in Pending(m) ensures o in allowed {
      if !m.bits[o].Black() && !m.bits[o].Queued() {
        assert GCObject(o) in multiset(m.inc);
        assert Occurrences(m, o) > 0;
      }
    }
    hide StacksOk;
    forall o | o in RootTargets(g) ensures o in allowed { assert o != NULL; RootAllowed(g, allowed, o); }
    forall x, i: nat | x in allowed && x in g.fields && i < |g.fields[x]| && g.fields[x][i] != NULL
      ensures g.fields[x][i] in allowed
    {
      assert PointersIn(g.fields[x], allowed);
    }
    assert HoldsOn(g, allowed, true);
  }

  lemma RootAllowed(g: Graph, allowed: set<Obj>, o: Obj)
    requires RootPointersIn(g, allowed) && IsRoot(g, o) && o != NULL
    ensures o in allowed
  {
    if o in g.gcRoots {
      var i :| 0 <= i < |g.gcRoots| && g.gcRoots[i] == o;
    } else if o in g.nativeStack {
      var i :| 0 <= i < |g.nativeStack| && g.nativeStack[i] == o;
    } else {
      var i :| 0 <= i < |g.roots| && o in g.roots[i].ptrs;
      var j :| 0 <= j < |g.roots[i].ptrs| && g.roots[i].ptrs[j] == o;
      assert PointersIn(g.roots[i].ptrs, allowed);
    }
  }

  lemma WiderSound(g: Graph, m: Marks, m1: Marks, l: set<Obj>, allowed: set<Obj>)
    requires Sound(g, m, allowed) && Sound(g, m1, l) && l <= allowed
    ensures Sound(g, m1, allowed)
  {
    hide StacksOk, GraphOk;
  }

  lemma BlackIsReached(g: Graph, m: Marks, seeds: set<Obj>)
    requires Sound(g, m, Reached(g, seeds))
    ensures forall o :: o in m.bits && m.bits[o].Black() ==> LedTo(g, seeds, o, true)
  {
    hide StacksOk, GraphOk, LedTo;
  }

  // ----- from below: what is led to is marked -----

  lemma LedToIsMarked(g: Graph, m: Marks, seeds: set<Obj>)
    requires GraphOk(g, m.bits) && Tricolor(g, m) && !m.overflow && forall o :: o in m.bits ==> !m.bits[o].Queued()
    requires forall o :: o in seeds ==> o in m.bits && m.bits[o].mark
    ensures forall o :: LedTo(g, seeds, o, false) ==> o in m.bits && m.bits[o].mark
  {
    var s := MarkedSet(m.bits);
    forall x, i: nat | x in s && x in g.fields && i < |g.fields[x]| && g.fields[x][i] != NULL && (x, i) !in g.dangling
      ensures g.fields[x][i] in s
    {
      assert PointersIn(g.fields[x], m.bits.Keys);
      assert m.bits[x].Free() ==> PointersIn(g.fields[x], {});
      if !m.bits[x].Free() { assert Closed(g, m.bits, x); }
    }
    assert HoldsOn(g, s, false);
  }

  // ----- the two together -----

  /** The roots that have been traced are pending or free. */
  lemma RootsArePending(g: Graph, m: Marks)
    requires GraphOk(g, m.bits) && RootPointersIn(g, MarkedSet(m.bits))
    ensures forall o :: o in RootTargets(g) ==> o in Pending(m) || m.bits[o].Free()
  {
    forall o | o in RootTargets(g) ensures o in Pending(m) || m.bits[o].Free() {
      RootAllowed(g, MarkedSet(m.bits), o);
    }
  }

  /**
   Between the beginning of the callbacks, with marks `m`, and the sweep, with marks `m1`,
   nothing but what is led to from pending objects has been marked, if the roots were.
   */
  lemma NothingElse(g: Graph, m: Marks, m1: Marks, seeds: set<Obj>)
    requires GraphOk(g, m.bits) && RootPointersIn(g, MarkedSet(m.bits)) && MarksStay(m.bits, m1.bits)
    requires Pending(m) <= seeds
    requires forall o :: o in m1.bits && m1.bits[o].Black() ==> LedTo(g, seeds + RootTargets(g), o, true)
    ensures forall o :: o in m1.bits && m1.bits[o].Black() ==> LedTo(g, seeds, o, true)
  {
    RootsArePending(g, m);
    var free := set o | o in RootTargets(g) && m.bits[o].Free();
    hide LedTo, RootTargets;
    assert forall x :: x in free && x in g.fields ==> PointersIn(g.fields[x], {});
    assert seeds + RootTargets(g) <= seeds + free;
    LedToMore(g, seeds + RootTargets(g), seeds + free, true);
    forall o | o in m1.bits && m1.bits[o].Black() ensures LedTo(g, seeds, o, true) {
      LeavesLeadNowhere(g, seeds, free, o);
    }
  }

  /** The same, for what is free and what is white after the sweep. */
  lemma SweptExactly(g: Graph, m: Marks, m0: Marks, m1: Marks, seeds: set<Obj>)
    requires GraphOk(g, m0.bits) && RootPointersIn(g, MarkedSet(m0.bits)) && Darker(m.bits, m0.bits)
    requires MarksStay(m0.bits, m1.bits)
    requires Pending(m0) <= seeds && forall o :: o in m1.bits ==> !m1.bits[o].Queued()
    requires forall o :: o in m1.bits && m1.bits[o].Black() ==> LedTo(g, seeds + RootTargets(g), o, true)
    requires forall o :: LedTo(g, seeds, o, false) ==> o in m1.bits && m1.bits[o].mark
    ensures SweptBits(m1.bits).Keys == m.bits.Keys
    ensures SurvivorsOf(g, m.bits, SweptBits(m1.bits), seeds)
  {
    NothingElse(g, m0, m1, seeds);
    DarkerMarksStay(m.bits, m0.bits);
    MarksStayTransitive(m.bits, m0.bits, m1.bits);
    hide GraphOk, RootPointersIn, Darker;
    if g.dangling == {} {
      forall o ensures LedTo(g, seeds, o, true) <==> LedTo(g, seeds, o, false) { LedToStrictly(g, seeds, o); }
    }
    hide LedTo;
  }

  /**
   What is white in `after` survived: it is led to from `seeds`; and what is led to without dangling
   pointers survived.
   */
  ghost predicate SurvivorsOf(g: Graph, before: map<Obj, Bits>, after: map<Obj, Bits>, seeds: set<Obj>) {
    && (forall o :: o in after && after[o].White() ==> LedTo(g, seeds, o, true))
    && (forall o :: o in before && o in after && !before[o].Free() && LedTo(g, seeds, o, false) ==> after[o].White())
    && (g.dangling == {} ==>
          forall o :: o in before && o in after && !before[o].Free() ==> (after[o].White() <==> LedTo(g, seeds, o, true)))
  }

  // ----- facts for the collector's methods -----

  lemma PendingNone(m: Marks)
    ensures Pending(m) + Objects([]) == Pending(m)
  {
  }

  lemma PendingRead(m0: Marks, m: Marks, m': Marks, read: seq<Obj>, o: Obj, ok: bool)
    requires Pending(m) == Pending(m0) + Objects(read) && Pending(m') == Pending(m) + (if ok then {o} else {})
    ensures Pending(m') == Pending(m0) + Objects(if ok then read + [o] else read)
  {
    hide Pending;
    assert forall x :: x in read + [o] <==> x in read || x == o;
  }

  /** What was pending is marked once the stack is empty. */
  lemma PendingIsMarked(m: Marks, m1: Marks)
    requires MarksStay(m.bits, m1.bits) && forall o :: GCObject(o) in m.inc ==> o in m1.bits && m1.bits[o].mark
    ensures forall o :: o in Pending(m) ==> o in m1.bits && m1.bits[o].mark
  {
  }

  lemma PendingIs(m: Marks)
    requires m.inc == []
    ensures forall o :: o in Pending(m) <==> o in m.bits && m.bits[o].Black()
  {
  }

  lemma ReadIsMarked(g: Graph, seeds: set<Obj>, read: seq<Obj>, m1: Marks)
    requires forall o :: LedTo(g, seeds + Objects(read), o, false) ==> o in m1.bits && m1.bits[o].mark
    ensures forall o :: o in read ==> o in m1.bits && m1.bits[o].mark
  {
    SeedsAreLedTo(g, seeds + Objects(read), false);
    hide LedTo;
    forall o | o in read ensures o in seeds + Objects(read) {
    }
  }

  lemma InvariantIs(g: Graph, m: Marks, allowed: set<Obj>)
    requires Invariant(g, m, allowed)
    ensures GraphOk(g, m.bits) && Tricolor(g, m)
  {
  }
}
