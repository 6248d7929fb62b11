/**
 MMgc's incremental marker: tracing, the write barrier, recovery from mark-stack
 overflow, and the phases of a collection cycle.  The mark stack may refuse any
 push except one onto an empty stack, where the first segment has room.
 */
module Marking {
  import opened MarkState
  import opened MarkSteps
  import opened MutatorSteps
  import opened Survival

  class GC {
    var bits: map<Obj, Bits>
    var fields: map<Obj, seq<Obj>>
    var pointerful: set<Obj>
    var order: seq<Obj>
    var gcRoots: seq<Obj>
    var roots: seq<Root>
    var nativeStack: seq<Obj>
    /** The fields whose target has been deleted since they were written. */
    ghost var dangling: set<(Obj, nat)>
    /** The objects that have a weak reference. */
    var weak: set<Obj>

    var incrementalWork: seq<Item>
    var barrierWork: seq<Obj>
    var markStackOverflow: bool
    var marking: bool
    var collecting: bool
    /** How many objects a segment of a work stack holds. */
    const segmentItems: Positive

    /** What the program could get at when the cycle started, plus what was allocated since. */
    ghost var allowed: set<Obj>
    /** What was pushed by reading weak references before the sweep, and how often too often. */
    ghost var resurrected: set<Obj>
    ghost var again: multiset<Obj>

    ghost function M(): Marks
      reads this
    {
      Marks(bits, incrementalWork, barrierWork, markStackOverflow, resurrected, again)
    }

    ghost function G(): Graph
      reads this
    {
      Graph(fields, pointerful, order, gcRoots, roots, nativeStack, dangling, weak)
    }

    /** A collector with nothing allocated, and no cycle under way. */
    constructor (segmentItems: Positive)
      ensures Valid() && !marking && !collecting && bits == map[] && roots == [] && nativeStack == []
      ensures this.segmentItems == segmentItems
    {
      this.segmentItems := segmentItems;
      bits, fields, pointerful, order := map[], map[], {}, [];
      gcRoots, roots, nativeStack := [], [], [];
      incrementalWork, barrierWork, markStackOverflow := [], [], false;
      marking, collecting, allowed := false, false, {};
      dangling, weak, resurrected, again := {}, {}, {}, multiset{};
    }

    // ----- tracing -----

    /** Push onto the mark stack; `ok` is false when no further segment can be had. */
    method TryPush(item: Item) returns (ok: bool)
      modifies this`incrementalWork
      ensures incrementalWork == if ok then old(incrementalWork) + [item] else old(incrementalWork)
      ensures old(incrementalWork) == [] ==> ok
    {
      ok := *;
      if incrementalWork == [] { ok := true; }
      if ok { incrementalWork := incrementalWork + [item]; }
    }

    method PushGCObject(o: Obj) returns (ghost ok: bool)
      requires o in bits
      modifies this`bits, this`incrementalWork, this`markStackOverflow
      ensures M() == MarkSteps.PushGCObject(old(M()), o, ok)
      ensures old(incrementalWork) == [] ==> ok
    {
      var pushed := TryPush(GCObject(o));
      if !pushed {
        bits := bits[o := bits[o].(queued := false)];
        markStackOverflow := true;
      }
      ok := pushed;
    }

    method TracePointer(o: Obj) returns (ghost ok: bool)
      requires o == NULL || o in bits
      modifies this`bits, this`incrementalWork, this`markStackOverflow
      ensures M() == MarkSteps.TracePointer(G(), old(M()), o, ok)
      ensures old(incrementalWork) == [] ==> ok
    {
      ok := true;
      if o == NULL { return; }
      if bits[o].White() {
        if o in pointerful {
          bits := bits[o := QUEUED];
          ok := PushGCObject(o);
        } else {
          bits := bits[o := BLACK];
        }
      }
    }

    /** Trace every pointer of an object, a root or the stack. */
    method TraceAll(ptrs: seq<Obj>, ghost bound: set<Obj>)
      requires Sound(G(), M(), bound) && OnlyObjects(incrementalWork)
      requires PointersIn(ptrs, fields.Keys) && PointersIn(ptrs, bound)
      modifies this`bits, this`incrementalWork, this`markStackOverflow
      ensures Tracing(G(), old(M()), M(), ptrs, bound) && OnlyThese(ptrs, old(bits), bits)
    {
      ghost var g, m0 := G(), M();
      hide Tracing, Sound, OnlyThese;
      TracingStart(g, m0, bound);
      OnlyTheseStart(bits);
      for i := 0 to |ptrs|
        invariant G() == g
        invariant Tracing(g, m0, M(), ptrs[..i], bound) && OnlyThese(ptrs[..i], m0.bits, bits)
      {
        ghost var m := M();
        TracingDomain(g, m0, m, ptrs[..i], bound);
        var ok := TracePointer(ptrs[i]);
        TracingStep(g, m0, m, ptrs[..i], ptrs[i], ok, bound);
        OnlyTheseNext(g, m0, m, ptrs[..i], ptrs[i], ok);
        assert ptrs[..i + 1] == ptrs[..i] + [ptrs[i]];
      }
      assert ptrs[..|ptrs|] == ptrs;
    }

    /** MarkItem_GCObject: set the mark, clear the queued bit, trace the fields. */
    method MarkItem(o: Obj, ghost bound: set<Obj>)
      requires o in bits && o in fields
      requires Sound(G(), SetMark(M(), o), bound) && OnlyObjects(incrementalWork)
      requires PointersIn(fields[o], fields.Keys) && PointersIn(fields[o], bound)
      modifies this`bits, this`incrementalWork, this`markStackOverflow
      ensures Tracing(G(), SetMark(old(M()), o), M(), fields[o], bound)
    {
      hide Tracing, Sound;
      bits := bits[o := BLACK];
      assert M() == SetMark(old(M()), o);
      TraceAll(fields[o], bound);
    }

    /** Pop the top item and mark it. */
    method MarkTop(ghost exempt: set<Obj>, ghost bound: set<Obj>)
      requires Sound(G(), M(), bound) && TricolorExcept(G(), M(), exempt) && incrementalWork != []
      modifies this`bits, this`incrementalWork, this`markStackOverflow, this`again
      ensures Sound(G(), M(), bound) && OnlyObjects(incrementalWork) && TricolorExcept(G(), M(), exempt)
      ensures Onward(old(M()), M())
      ensures old(incrementalWork)[|old(incrementalWork)| - 1].GCObject? ==> LessLeft(old(M()), M())
      ensures old(incrementalWork)[..|old(incrementalWork)| - 1] <= incrementalWork
      ensures old(incrementalWork)[|old(incrementalWork)| - 1].StackMemory? ==>
        && (markStackOverflow && !old(markStackOverflow) ==> incrementalWork != [])
        && (!markStackOverflow ==> NoneWhite(nativeStack, bits))
    {
      hide Tracing, Sound, TricolorExcept, Onward, LessLeft, NoMoreLeft, StillDue, Unmarked, NoneWhite;
      ghost var g, m := G(), M();
      var top := incrementalWork[|incrementalWork| - 1];
      again := AgainAfter(m, top);
      incrementalWork := incrementalWork[..|incrementalWork| - 1];
      assert M() == PopGCObject(m);
      RootsOf(g, m, bound);
      match top
      case GCObject(o) =>
        PopAndMark(g, m, bound);
        FieldsOf(g, m, bound, o);
        MarkItem(o, bound);
        MarkedObject(g, m, M(), bound, exempt);
      case StackMemory =>
        PopMemory(g, m, bound);
        TraceAll(nativeStack, bound);
        MarkedMemory(g, m, M(), bound, exempt);
    }

    /** Mark(): pop and mark until the mark stack is empty. */
    method Mark(ghost exempt: set<Obj>, ghost bound: set<Obj>)
      requires Sound(G(), M(), bound) && TricolorExcept(G(), M(), exempt)
      modifies this`bits, this`incrementalWork, this`markStackOverflow, this`again
      ensures Sound(G(), M(), bound) && TricolorExcept(G(), M(), exempt)
      ensures incrementalWork == [] && Drained(G(), old(M()), M())
      ensures old(incrementalWork) == [] ==> M() == old(M())
    {
      hide Sound, TricolorExcept, Onward, LessLeft, NoMoreLeft, StillDue, Unmarked, NoneWhite, Draining, Drained,
        OnlyObjects;
      ghost var g, m0 := G(), M();
      DrainingStart(g, m0);
      while incrementalWork != []
        invariant G() == g
        invariant Sound(g, M(), bound) && TricolorExcept(g, M(), exempt)
        invariant Draining(g, m0, M()) && (m0.inc == [] ==> M() == m0)
        decreases if ScansMemory(incrementalWork) then 1 else 0, Unmarked(bits), again
      {
        ghost var m := M();
        MarkTop(exempt, bound);
        if m.inc[|m.inc| - 1].GCObject? {
          DrainingObject(g, m0, m, M());
          LessLeftIs(m, M());
        } else {
          DrainingMemory(g, m0, m, M());
        }
        ObjectsDoNotScan(incrementalWork);
      }
      DrainingDone(g, m0, M());
    }

    /** The body of MarkRoots' loop: one root, if it is of the kind wanted. */
    method MarkRoot(i: nat, deep: bool, stackRoots: bool, ghost exempt: set<Obj>, ghost bound: set<Obj>)
      requires Sound(G(), M(), bound) && TricolorExcept(G(), M(), exempt) && OnlyObjects(incrementalWork)
      requires i < |roots| && (!markStackOverflow ==> RootsTraced(G(), i, stackRoots, bits))
      modifies this`bits, this`incrementalWork, this`markStackOverflow, this`again
      ensures Sound(G(), M(), bound) && TricolorExcept(G(), M(), exempt)
      ensures Passing(old(M()), M())
      ensures !markStackOverflow ==> RootsTraced(G(), i + 1, stackRoots, bits)
      ensures if deep then incrementalWork == []
              else if Selected(roots[i], stackRoots) then OnlyThese(roots[i].ptrs, old(bits), bits)
              else M() == old(M())
    {
      hide Sound, TricolorExcept, Onward, LessLeft, NoMoreLeft, StillDue, Unmarked, NoneWhite, Tracing, Drained,
        OnlyObjects, Passing, RootsTraced,
        Darker, PointersIn, OnlyThese;
      ghost var g, m := G(), M();
      var r := roots[i];
      PassingStart(m);
      if r.exact || r.isStack == stackRoots {
        RootPointers(g, m, bound, i);
        TraceAll(r.ptrs, bound);
        TracedMore(g, m, M(), r.ptrs, bound, exempt);
        PassingTraced(m, M());
      }
      RootTraced(g, i, stackRoots, m, M());
      if deep {
        ghost var m1 := M();
        PassingObjects(m, m1);
        Mark(exempt, bound);
        PassingDrained(g, m1, M());
        RootsDrained(g, i + 1, stackRoots, m1, M());
        PassingTransitive(m, m1, M());
      }
    }

    /**
     MarkRoots: trace the roots of one kind (exactly traced roots belong to both
     kinds); with `deep`, drain the mark stack after each of them.
     */
    method MarkRoots(deep: bool, stackRoots: bool, ghost exempt: set<Obj>, ghost bound: set<Obj>)
      requires Sound(G(), M(), bound) && TricolorExcept(G(), M(), exempt) && OnlyObjects(incrementalWork)
      modifies this`bits, this`incrementalWork, this`markStackOverflow, this`again
      ensures Sound(G(), M(), bound) && TricolorExcept(G(), M(), exempt)
      ensures Passing(old(M()), M())
      ensures !markStackOverflow ==> RootsTraced(G(), |roots|, stackRoots, bits)
      ensures !deep ==> OnlyTargets(G(), |roots|, stackRoots, old(bits), bits)
    {
      hide Sound, TricolorExcept, Onward, LessLeft, NoMoreLeft, StillDue, Unmarked, NoneWhite, Tracing, OnlyObjects,
        Passing, RootsTraced,
        Darker, PointersIn, OnlyThese, OnlyTargets;
      ghost var g, m0 := G(), M();
      PassingStart(m0);
      if !stackRoots {
        OtherRootPointers(g, m0, bound);
        TraceAll(gcRoots, bound);
        TracedMore(g, m0, M(), gcRoots, bound, exempt);
        PassingTraced(m0, M());
      }
      PassingObjects(m0, M());
      if !markStackOverflow { RootsTracedStart(g, stackRoots, bits); }
      OnlyTargetsStart(g, stackRoots, m0.bits, bits);
      for i := 0 to |roots|
        invariant G() == g && (!deep ==> OnlyTargets(g, i, stackRoots, m0.bits, bits))
        invariant Sound(g, M(), bound) && TricolorExcept(g, M(), exempt)
        invariant Passing(m0, M()) && OnlyObjects(incrementalWork)
        invariant !markStackOverflow ==> RootsTraced(g, i, stackRoots, bits)
      {
        ghost var m := M();
        MarkRoot(i, deep, stackRoots, exempt, bound);
        if !deep {
          PassingKeys(m0, m);
          OnlyTargetsNext(g, i, stackRoots, m0.bits, m.bits, bits);
        }
        PassingTransitive(m0, m, M());
        PassingObjects(m0, M());
      }
    }

    /**
     HandleMarkStackOverflow: retrace the roots, then walk the heap and retrace
     every marked object.  Whatever pushes fail on the way, the walk either ends
     with no black object pointing to a white one, or with the flag up again and
     something to show for it (see `Passing`).
     */
    method HandleMarkStackOverflow(ghost bound: set<Obj>)
      requires Sound(G(), M(), bound) && OnlyObjects(incrementalWork)
      requires TricolorExcept(G(), M(), Unvisited(G(), 0))
      modifies this`bits, this`incrementalWork, this`markStackOverflow, this`again
      ensures Sound(G(), M(), bound) && Tricolor(G(), M())
      ensures Passing(old(M()), M())
      ensures !markStackOverflow ==> RootsTraced(G(), |roots|, false, bits)
    {
      hide Sound, TricolorExcept, Onward, LessLeft, NoMoreLeft, StillDue, Unmarked, NoneWhite, Tracing, Drained,
        OnlyObjects, Passing, RootsTraced,
        Darker, PointersIn, Unvisited;
      ghost var g, m0 := G(), M();
      MarkRoots(true, false, Unvisited(g, 0), bound);
      PassingObjects(m0, M());
      for i := 0 to |order|
        invariant G() == g
        invariant Sound(g, M(), bound) && TricolorExcept(g, M(), Unvisited(g, i))
        invariant Passing(m0, M()) && OnlyObjects(incrementalWork)
        invariant !markStackOverflow ==> RootsTraced(g, |roots|, false, bits)
      {
        ghost var m := M();
        OrderInGraph(g, m, bound, i);
        var o := order[i];
        if bits[o].Black() {
          FieldsOf(g, m, bound, o);
          assert SetMark(m, o) == m;
          MarkItem(o, bound);
          TracedAgain(g, m, M(), o, bound, Unvisited(g, i));
          PassingTraced(m, M());
          UnvisitedTraced(g, M(), i);
          ghost var m1 := M();
          Mark(Unvisited(g, i + 1), bound);
          PassingDrained(g, m1, M());
          PassingTransitive(m, m1, M());
          PassingTransitive(m0, m, M());
          PassingObjects(m0, M());
          RootsDrained(g, |roots|, false, m, M());
        } else {
          UnvisitedSkip(g, m, i);
        }
      }
      UnvisitedEnd(g);
    }

    /**
     FlushBarrierWork: move everything from the barrier stack to the bottom of the
     mark stack; if memory for that is missing, raise the flag and move one item.
     */
    method FlushBarrierWork(ghost exempt: set<Obj>)
      requires Sound(G(), M(), allowed) && TricolorExcept(G(), M(), exempt) && OnlyObjects(incrementalWork)
      modifies this`incrementalWork, this`barrierWork, this`markStackOverflow
      ensures Sound(G(), M(), allowed) && TricolorExcept(G(), M(), exempt)
      ensures Passing(old(M()), M())
      ensures !markStackOverflow ==> barrierWork == []
      ensures old(barrierWork) != [] ==> incrementalWork != []
    {
      hide Sound, TricolorExcept, StillDue, Unmarked, OnlyObjects, Darker;
      ghost var g, m := G(), M();
      PassingStart(m);
      if barrierWork == [] { return; }
      var ok := *;
      if ok {
        MoveEverything(g, m, allowed, exempt);
        incrementalWork := AsItems(barrierWork) + incrementalWork;
        barrierWork := [];
        StillDueBelow(m, M(), AsItems(m.bar));
      } else {
        RaiseFlag(g, m, allowed, exempt);
        markStackOverflow := true;
        var top := barrierWork[|barrierWork| - 1];
        ok := TryPush(GCObject(top));
        if ok {
          MoveTop(g, m.(overflow := true), allowed, exempt);
          barrierWork := barrierWork[..|barrierWork| - 1];
        }
        StillDueMore(m, M());
      }
    }

    /** MarkQueueAndStack: trace the stack-memory roots and, if asked, the native stack; then drain. */
    method MarkQueueAndStack(scanNativeStack: bool)
      requires Sound(G(), M(), allowed) && Tricolor(G(), M()) && OnlyObjects(incrementalWork)
      modifies this`bits, this`incrementalWork, this`markStackOverflow, this`again
      ensures Sound(G(), M(), allowed) && Tricolor(G(), M()) && incrementalWork == []
      ensures Passing(old(M()), M())
      ensures !markStackOverflow ==> RootsTraced(G(), |roots|, true, bits)
      ensures !markStackOverflow && scanNativeStack ==> NoneWhite(nativeStack, bits)
    {
      hide Sound, TricolorExcept, Onward, LessLeft, NoMoreLeft, StillDue, Unmarked, NoneWhite, Drained, OnlyObjects,
        Passing, RootsTraced, Darker;
      ghost var g, m0 := G(), M();
      MarkRoots(false, true, {}, allowed);
      ghost var m1 := M();
      PassingObjects(m0, m1);
      var pushed := false;
      if scanNativeStack {
        ScanSound(g, m1, allowed, {});
        pushed := TryPush(StackMemory);
        if !pushed {
          RaiseFlag(g, m1, allowed, {});
          PassingNoScan(m1);
          markStackOverflow := true;
        }
      }
      ghost var m2 := M();
      Mark({}, allowed);
      if pushed {
        PassingScan(g, m1, M());
      } else {
        PassingDrained(g, m2, M());
        if scanNativeStack {
          PassingTransitive(m1, m2, M());
          PassingObjects(m2, M());
        }
      }
      PassingTransitive(m0, m1, M());
      RootsDrained(g, |roots|, true, m1, M());
    }

    /** One round of overflow recovery, as in the loops of FinishIncrementalMark. */
    method Recover()
      requires Sound(G(), M(), allowed) && OnlyObjects(incrementalWork) && markStackOverflow
      modifies this`bits, this`incrementalWork, this`barrierWork, this`markStackOverflow, this`again
      ensures Sound(G(), M(), allowed) && Tricolor(G(), M()) && OnlyObjects(incrementalWork)
      ensures Passing(old(M()).(overflow := false), M())
      ensures !markStackOverflow ==> barrierWork == [] && RootsTraced(G(), |roots|, false, bits)
    {
      hide Sound, TricolorExcept, LessLeft, NoMoreLeft, StillDue, Unmarked, NoneWhite, OnlyObjects, Passing,
        RootsTraced, Darker, Unvisited;
      ghost var g := G();
      LowerFlag(g, M(), allowed);
      markStackOverflow := false;
      ghost var m0 := M();
      HandleMarkStackOverflow(allowed);
      ghost var m1 := M();
      PassingObjects(m0, m1);
      FlushBarrierWork({});
      PassingTransitive(m0, m1, M());
      PassingObjects(m0, M());
      RootsDrained(g, |roots|, false, m1, M());
    }

    /** The first half of FinishIncrementalMark: everything that is queued now. */
    method FinishQueued()
      requires Sound(G(), M(), allowed) && Tricolor(G(), M()) && OnlyObjects(incrementalWork)
      modifies this`bits, this`incrementalWork, this`barrierWork, this`markStackOverflow, this`again
      ensures Sound(G(), M(), allowed) && Tricolor(G(), M()) && Darker(old(bits), bits)
      ensures incrementalWork == [] && !markStackOverflow
    {
      hide Sound, TricolorExcept, LessLeft, NoMoreLeft, StillDue, Unmarked, OnlyObjects, Passing, RootsTraced, Darker,
        Drained;
      ghost var g, m0 := G(), M();
      Mark({}, allowed);
      PassingDrained(g, m0, M());
      EmptyIsObjects();
      PassingObjects(m0, M());
      while markStackOverflow
        invariant G() == g && incrementalWork == []
        invariant Sound(g, M(), allowed) && Tricolor(g, M()) && Darker(m0.bits, bits)
        decreases Unmarked(bits), again, markStackOverflow
      {
        ghost var m1 := M();
        Recover();
        ghost var m2 := M();
        Mark({}, allowed);
        PassingDrained(g, m2, M());
        PassingTransitive(m1.(overflow := false), m2, M());
        RoundProgress(m0, m1, M());
      }
    }

    /** The second half: the roots and the stack as they are now, and all that follows from them. */
    method FinishRoots(scanStack: bool)
      requires Sound(G(), M(), allowed) && Tricolor(G(), M())
      requires incrementalWork == [] && !markStackOverflow
      modifies this`bits, this`incrementalWork, this`barrierWork, this`markStackOverflow, this`again
      ensures Sound(G(), M(), allowed) && Tricolor(G(), M()) && Darker(old(bits), bits)
      ensures incrementalWork == [] && barrierWork == [] && !markStackOverflow
      ensures AllRootsTraced(G(), bits, scanStack)
    {
      hide Sound, TricolorExcept, LessLeft, NoMoreLeft, StillDue, Unmarked, NoneWhite, OnlyObjects, Passing,
        RootsTraced, Darker, AllRootsTraced, OnlyTargets, Drained, PointersIn;
      ghost var g, m0 := G(), M();
      EmptyIsObjects();
      FlushBarrierWork({});
      PassingObjects(m0, M());
      ghost var m1 := M();
      MarkRoots(false, false, {}, allowed);
      ghost var m2 := M();
      PassingObjects(m1, m2);
      MarkQueueAndStack(scanStack);
      AllRootsTracedIntro(g, scanStack, m2, M());
      PassingTransitive(m1, m2, M());
      PassingObjects(m1, M());
      PassingTransitive(m0, m1, M());
      PassingObjects(m0, M());
      while markStackOverflow
        invariant G() == g && incrementalWork == []
        invariant Sound(g, M(), allowed) && Tricolor(g, M()) && Darker(m0.bits, bits)
        invariant !markStackOverflow ==> barrierWork == [] && AllRootsTraced(g, bits, scanStack)
        decreases Unmarked(bits), again, markStackOverflow
      {
        ghost var m3 := M();
        Recover();
        ghost var m4 := M();
        MarkQueueAndStack(scanStack);
        AllRootsTracedIntro(g, scanStack, m4, M());
        PassingTransitive(m3.(overflow := false), m4, M());
        RoundProgress(m0, m3, M());
        PassingObjects(m4, M());
      }
    }

    /**
     FinishIncrementalMark, up to the call of Sweep: mark to completion, whatever
     pushes fail.  It terminates because a round of recovery that raises the flag
     again has marked at least one more object.
     */
    method FinishMarking(scanStack: bool)
      requires Invariant(G(), M(), allowed)
      modifies this`bits, this`incrementalWork, this`barrierWork, this`markStackOverflow, this`again
      ensures Invariant(G(), M(), allowed) && Darker(old(bits), bits)
      ensures incrementalWork == [] && barrierWork == [] && !markStackOverflow
      ensures scanStack || PointersIn(nativeStack, {}) ==>
        && MarkingDone(G(), M())
        && (forall o :: Reachable(G(), o) ==> o in bits && bits[o].mark)
        && (forall o :: o in bits ==> !bits[o].Queued())
        && (forall o :: o in bits && bits[o].Black() ==> o in allowed)
    {
      hide Sound, TricolorExcept, OnlyObjects, Darker, AllRootsTraced, Reachable, PointersIn, MarkingDone;
      ghost var m0 := M();
      FinishQueued();
      ghost var m1 := M();
      FinishRoots(scanStack);
      DarkerTransitive(m0.bits, m1.bits, bits);
      EmptyIsObjects();
      // ClearMarkStack() and m_barrierWork.Clear(): both stacks are empty already
      if scanStack || PointersIn(nativeStack, {}) {
        DoneIntro(G(), M(), allowed, scanStack);
      }
    }

    // ----- the program and the collector, interleaved -----

    /** What holds whenever the program or the collector is about to make a step. */
    ghost predicate Valid()
      reads this
    {
      && (collecting ==> marking && barrierWork == [])
      && (!collecting ==> resurrected == {})
      && if marking then Invariant(G(), M(), allowed) else Idle(G(), M())
    }

    lemma StateIs()
      ensures M() == Marks(bits, incrementalWork, barrierWork, markStackOverflow, resurrected, again)
      ensures G() == Graph(fields, pointerful, order, gcRoots, roots, nativeStack, dangling, weak)
      ensures Valid() <==>
        && (collecting ==> marking && barrierWork == []) && (!collecting ==> resurrected == {})
        && if marking then Invariant(G(), M(), allowed) else Idle(G(), M())
    {
      hide Invariant, Idle;
    }

    /** WriteBarrierHit for a container that was black: find it a place on a stack. */
    method WriteBarrierHit(container: Obj) returns (ghost d: Destination)
      requires container in bits && bits[container] == QUEUED && !collecting
      modifies this`bits, this`incrementalWork, this`barrierWork, this`markStackOverflow
      ensures MayGo(old(M()), d)
      ensures M() == Trap(old(M()).(bits := old(bits)[container := BLACK]), container, d)
    {
      var ok := *;
      if barrierWork == [] { ok := true; }
      assert old(bits)[container := BLACK][container := QUEUED] == bits;
      if ok {
        barrierWork := barrierWork + [container];
        d := OnBarrierStack;
      } else {
        var pushed := PushGCObject(container);
        d := if pushed then OnMarkStack else Dropped;
      }
    }

    /** InlineWriteBarrierTrap: if the container is marked, flip it to queued and report the hit. */
    method WriteBarrierTrap(container: Obj) returns (ghost d: Destination)
      requires marking && container in bits && !bits[container].Free()
      modifies this`bits, this`incrementalWork, this`barrierWork, this`markStackOverflow
      ensures MayGo(old(M()), d)
      ensures M() == if collecting then old(M()) else Trap(old(M()), container, d)
    {
      d := OnBarrierStack;
      if bits[container].mark {
        var b := bits[container];
        bits := bits[container := Bits(!b.mark, !b.queued)];
        assert bits[container := BLACK] == old(bits);
        if collecting {
          // the barrier is off while sweeping: revert to marked
          bits := bits[container := BLACK];
        } else {
          d := WriteBarrierHit(container);
        }
      }
    }

    /** The store itself. */
    method WriteSlot(container: Obj, slot: nat, value: Obj)
      requires container in fields && slot < |fields[container]|
      modifies this`fields, this`dangling
      ensures G() == WriteField(old(G()), bits, container, slot, value) && M() == old(M())
    {
      hide *;
      StateIs();
      WriteFieldIs(G(), bits, container, slot, value);
      dangling := WriteField(G(), bits, container, slot, value).dangling;
      var f: seq<Obj> := fields[container][slot := value];
      fields := fields[container := f];
      StateIs();
    }

    /** privateWriteBarrier: trap while marking, then store. */
    method Store(container: Obj, slot: nat, value: Obj) returns (ghost d: Destination)
      requires Valid()
      requires container in bits && container in fields && container in pointerful && !bits[container].Free()
      requires slot < |fields[container]|
      requires value == NULL || Obtainable(G(), value)
      modifies this`bits, this`fields, this`dangling, this`incrementalWork, this`barrierWork, this`markStackOverflow
      // while sweeping the barrier is off, and a marked object must not get a pointer to an unmarked one
      ensures Valid() <==> !(collecting && old(Harmful(M(), container, value)))
      ensures G() == WriteField(old(G()), bits, container, slot, value)
      ensures MayGo(old(M()), d)
      ensures M() == if marking && !collecting then Trap(old(M()), container, d) else old(M())
    {
      hide *;
      StateIs();
      d := OnBarrierStack;
      ghost var g, m := G(), M();
      StoreReady(g, m, marking, allowed);
      if marking {
        d := WriteBarrierTrap(container);
        StateIs();
        if !collecting { TrapKeeps(g, m, container, d, allowed); }
        StoreDuring(g, M(), container, slot, value, allowed);
        if !collecting { TrappedIsHarmless(M(), container, value); }
      } else {
        EmptyBarrier(m);
        IdleStore(g, m, container, slot, value);
      }
      WriteSlot(container, slot, value);
      StateIs();
    }

    /** The item of a new object: white, cleared, and on the program's stack. */
    method InitItem(o: Obj, hasPointers: bool, size: nat)
      modifies this`bits, this`fields, this`dangling, this`pointerful, this`order, this`nativeStack
      ensures G() == AllocGraph(old(G()), o, hasPointers, size)
      ensures M() == AllocMarks(old(M()), o)
    {
      hide *;
      StateIs();
      AllocIs(G(), M(), o, hasPointers, size);
      bits, fields, nativeStack, dangling := bits[o := WHITE], fields[o := Zeros(size)], nativeStack + [o], OtherFields(dangling, o);
      order := if hasPointers && o !in order then order + [o] else order;
      pointerful := if hasPointers then pointerful + {o} else pointerful;
      StateIs();
    }

    /** A new object at address `o`; while marking it starts out white. */
    method Alloc(o: Obj, hasPointers: bool, size: nat)
      requires Valid() && !collecting && MayAllocate(G(), M(), o, hasPointers)
      modifies this`bits, this`fields, this`dangling, this`pointerful, this`order, this`nativeStack, this`allowed
      ensures Valid()
      ensures G() == AllocGraph(old(G()), o, hasPointers, size)
      ensures M() == AllocMarks(old(M()), o)
      ensures allowed == old(allowed) + {o}
      // the object is white, holds no pointers, and is known to the program's stack only
      ensures o in bits && bits[o].White() && o in fields && |fields[o]| == size && PointersIn(fields[o], {})
      ensures nativeStack == old(nativeStack) + [o] && forall e :: e in dangling <==> e in old(dangling) && e.0 != o
      ensures forall x :: x != o ==>
        (x in fields <==> x in old(fields)) && (x in fields ==> fields[x] == old(fields)[x])
      ensures forall x :: x != o ==> (x in bits <==> x in old(bits)) && (x in bits ==> bits[x] == old(bits)[x])
    {
      hide *;
      StateIs();
      NewObjectIs(G(), M(), o, hasPointers, size);
      AllocReady(G(), M(), o, hasPointers, size, marking, allowed);
      InitItem(o, hasPointers, size);
      StateIs();
      allowed := allowed + {o};
      StateIs();
    }

    /** GCAlloc::Free as the marker sees it; an object that is queued, or dying anyway, is only cleared. */
    method Free(o: Obj)
      requires Valid() && o in bits && o in fields && !bits[o].Free()
      modifies this`bits, this`fields, this`dangling, this`weak
      ensures G() == if collecting then ClearGraph(old(G()), o) else FreeGraph(old(G()), old(bits), o)
      ensures M() == if collecting then old(M()) else FreeMarks(old(M()), o)
      ensures Valid()
      // it loses its pointers and its weak reference, and if its slot becomes free, what points to it dangles
      ensures fields == old(fields)[o := fields[o]] && PointersIn(fields[o], {}) && weak == old(weak) - {o}
      ensures bits == if collecting || old(bits)[o].Queued() then old(bits) else old(bits)[o := FREE]
      ensures collecting || old(bits)[o].Queued() ==> forall e :: e in dangling <==> e in old(dangling) && e.0 != o
      ensures !collecting && !old(bits)[o].Queued() ==>
        forall x, i: nat :: (x, i) in dangling <==>
          x != o && ((x, i) in old(dangling) || (x in old(fields) && i < |old(fields)[x]| && old(fields)[x][i] == o))
    {
      hide *;
      StateIs();
      ghost var g, m := G(), M();
      StoreReady(g, m, marking, allowed);
      DeletedIs(g, m, o);
      NoPointers(|fields[o]|);
      IdleHasNoQueued(g, m, o);
      if collecting {
        ClearKeeps(g, m, o, allowed);
      } else if marking {
        FreeKeeps(g, m, o, allowed);
      } else {
        IdleFree(g, m, o);
      }
      weak := weak - {o};
      if marking && (collecting || bits[o].Queued()) {
        dangling := ClearGraph(g, o).dangling;
        fields := fields[o := Zeros(|fields[o]|)];
        StateIs();
        return;
      }
      dangling := FreeGraph(g, bits, o).dangling;
      bits := bits[o := FREE];
      fields := fields[o := Zeros(|fields[o]|)];
      StateIs();
    }

    /** Calls, returns and assignments to roots: any new set of starting points that the program could get at before. */
    method SetRoots(newRoots: seq<Root>, newStack: seq<Obj>)
      requires Valid()
      requires forall o :: IsRoot(G().(roots := newRoots, nativeStack := newStack), o) && o != NULL ==>
        Obtainable(G(), o)
      modifies this`roots, this`nativeStack
      ensures Valid()
      ensures G() == old(G()).(roots := newRoots, nativeStack := newStack)
    {
      hide Invariant, Idle, Obtainable, IsRoot;
      ghost var g := G();
      RootsReady(g, g.(roots := newRoots, nativeStack := newStack), M(), marking, allowed);
      roots := newRoots;
      nativeStack := newStack;
    }

    /**
     GetWeakRef, as the marker sees it: from now on the object can be had without a pointer
     to it.  None is made to an object that is about to be freed.
     */
    method MakeWeakRef(o: Obj) returns (made: bool)
      requires Valid() && Obtainable(G(), o) && o in bits && !bits[o].Free()
      modifies this`weak
      ensures Valid() && weak == (if made then old(weak) + {o} else old(weak))
      ensures made <==> o in old(weak) || !(collecting && !bits[o].mark)
    {
      hide Invariant, Idle, Obtainable;
      made := o in weak || !collecting || bits[o].mark;
      if !made {
        return;
      }
      StoreReady(G(), M(), marking, allowed);
      if marking { WeakKeeps(G(), M(), o, allowed); } else { IdleWeak(G(), M(), o); }
      weak := weak + {o};
    }

    /** Push the object of a weak reference, whether or not it is on the stack already. */
    method PushWeaklyHeld(o: Obj) returns (ghost ok: bool)
      requires o in bits && !bits[o].mark
      modifies this`bits, this`incrementalWork, this`markStackOverflow, this`resurrected, this`again
      ensures M() == Resurrect(old(M()), o, ok)
      ensures old(incrementalWork) == [] ==> ok
    {
      hide *;
      StateIs();
      ghost var m := M();
      again := if bits[o].Queued() then again + multiset{o} else again;
      resurrected := resurrected + {o};
      bits := bits[o := Bits(bits[o].mark, true)];
      StateIs();
      ghost var mid := M();
      ok := PushGCObject(o);
      ResurrectBody(m, mid, o, ok);
    }

    /**
     GCWeakRef::get.  Before a sweep, while the callbacks run, it is a read barrier: an
     object without a mark is made gray and pushed, also when it has been already.
     */
    method ReadWeakRef(o: Obj) returns (ghost ok: bool)
      requires Valid() && o in weak
      modifies this`bits, this`incrementalWork, this`markStackOverflow, this`resurrected, this`again
      ensures Valid() && o in old(bits) && M() == if collecting then Resurrect(old(M()), o, ok) else old(M())
      ensures StillDue(old(M()), M()) && MarksStay(old(bits), bits)
      // before the sweep, the object will be marked if its push was accepted; what else will be is as before
      ensures collecting ==> Pending(M()) == old(Pending(M())) + (if ok then {o} else {})
      ensures old(incrementalWork) == [] ==> ok
    {
      hide *;
      ghost var g, m := G(), M();
      StateIs();
      ok := true;
      StillDueStart(m);
      MarksStayStart(bits);
      WeakInGraph(g, m, marking, allowed);
      if collecting {
        WeakIsAllowed(g, m, allowed);
        if bits[o].mark {
          ResurrectNot(m, o);
        } else {
          ok := PushWeaklyHeld(o);
        }
        ResurrectKeeps(g, m, o, ok, allowed);
      }
      StateIs();
    }

    // ----- the collection cycle -----

    /** Mark(count): `count` turns of the marker, or as many as empty the mark stack. */
    method MarkSome(count: nat) returns (ghost turns: nat)
      requires Valid() && marking
      modifies this`bits, this`incrementalWork, this`markStackOverflow, this`again
      ensures Valid() && Onward(old(M()), M())
      ensures turns <= count && (turns == count || incrementalWork == [])
      // no turn is idle, and none takes more than one item off the stack
      ensures Left(M()) + turns <= old(Left(M())) && |incrementalWork| + turns >= old(|incrementalWork|)
    {
      hide Sound, TricolorExcept, Onward, LessLeft, NoMoreLeft, StillDue, Unmarked, Left;
      ghost var g, m0 := G(), M();
      var i := 0;
      OnwardStart(m0);
      while i < count && incrementalWork != []
        invariant G() == g && marking && i <= count
        invariant Invariant(g, M(), allowed) && Onward(m0, M())
        invariant Left(M()) + i <= Left(m0) && |incrementalWork| + i >= |m0.inc|
      {
        ghost var m := M();
        MarkTop({}, allowed);
        OnwardTransitive(m0, m, M());
        LessIsLeft(m, M());
        i := i + 1;
      }
      turns := i;
    }

    /** The barrier stack holds nine full segments, besides the one in use. */
    predicate ManyBarriers()
      reads this`barrierWork
    {
      |barrierWork| > 9 * segmentItems
    }

    lemma ManyIs()
      ensures ManyBarriers() <==> |barrierWork| > 9 * segmentItems
    {
    }

    /**
     CheckBarrierWork: if the barrier stack is long, move one of its full segments, the
     one below its top, to the bottom of the mark stack.  There may be no room for it,
     unless the mark stack is empty.
     */
    method CheckBarrierWork() returns (ghost moved: seq<Obj>, ghost lo: nat)
      requires Valid() && marking
      modifies this`incrementalWork, this`barrierWork
      ensures Valid()
      ensures incrementalWork == AsItems(moved) + old(incrementalWork)
      ensures moved == [] || (old(ManyBarriers()) && |moved| == segmentItems)
      ensures old(incrementalWork) == [] ==>
        (incrementalWork == [] <==> !old(ManyBarriers())) && (incrementalWork == [] ==> !ManyBarriers())
      // the rest of the barrier stack stays, in its order: first the segments further down, then the top one
      ensures if moved == [] then barrierWork == old(barrierWork)
              else
                && 0 < segmentItems <= lo <= |barrierWork| <= lo + segmentItems && lo % segmentItems == 0
                && barrierWork[..lo] + moved + barrierWork[lo..] == old(barrierWork)
    {
      hide *;
      StateIs();
      ManyIs();
      moved, lo := [], 0;
      NothingMoved(incrementalWork);
      var inactive := if barrierWork == [] then 0 else (|barrierWork| - 1) / segmentItems;
      InactiveSegments(|barrierWork|, segmentItems);
      if inactive < 9 {
        return;
      }
      var room := *;
      if incrementalWork == [] { room := true; }
      if room {
        lo := (inactive - 1) * segmentItems;
        var from := (inactive - 1) * segmentItems;
        CutSegment(barrierWork, segmentItems, lo);
        moved := barrierWork[lo..lo + segmentItems];
        MoveSegment(G(), M(), lo, lo + segmentItems, allowed);
        incrementalWork := AsItems(barrierWork[from..from + segmentItems]) + incrementalWork;
        barrierWork := barrierWork[..from] + barrierWork[from + segmentItems..];
        StateIs();
      }
    }

    /** The body of IncrementalMark's loop: a round, unless nothing is left to do. */
    method MarkRound(ghost m0: Marks, ghost rounds: nat) returns (more: bool)
      requires Valid() && marking && Rounds(m0, M(), rounds)
      requires rounds == 0 ==> incrementalWork != [] && |incrementalWork| >= |m0.inc|
      modifies this`bits, this`incrementalWork, this`barrierWork, this`markStackOverflow, this`again
      ensures Valid() && Rounds(m0, M(), if more then rounds + 1 else rounds)
      ensures !more ==> rounds > 0 && incrementalWork == [] && !ManyBarriers()
      // as long as there is other work, nothing is moved over
      ensures old(incrementalWork) != [] ==> barrierWork == old(barrierWork)
    {
      hide *;
      StateIs();
      ghost var m := M();
      var count := |incrementalWork|;
      if count == 0 {
        var _, _ := CheckBarrierWork();
        StateIs();
        RoundsMoved(m0, m, M(), rounds);
        count := |incrementalWork|;
        if count == 0 { return false; }
      }
      if count > 100 { count := 100; }
      ghost var m1 := M();
      ghost var turns := MarkSome(count);
      StateIs();
      RoundMade(m0, m1, M(), rounds, turns);
      more := true;
    }

    /**
     IncrementalMark: rounds of at most 100 turns each, until the time is over.  It stops
     before that only if there is nothing on the mark stack and too little on the barrier
     stack to move over.
     */
    method IncrementalMark(ticks: nat) returns (ghost rounds: nat)
      requires Valid() && marking
      modifies this`bits, this`incrementalWork, this`barrierWork, this`markStackOverflow, this`again
      ensures Valid() && Darker(old(bits), bits) && (old(markStackOverflow) ==> markStackOverflow)
      ensures rounds <= ticks + 1 && (rounds == ticks + 1 || (incrementalWork == [] && !ManyBarriers()))
      ensures rounds == 0 <==> old(incrementalWork == [] && !ManyBarriers())
      // every round gets somewhere, and the first one as far as 100 turns go, or as many as there are items
      ensures Left(M()) + rounds <= old(Left(M())) && (rounds > 0 ==> LessLeft(old(M()), M()))
      ensures old(incrementalWork) != [] && ticks == 0 ==> barrierWork == old(barrierWork)
      ensures Left(M()) + (if |old(incrementalWork)| < 100 then |old(incrementalWork)| else 100) <= old(Left(M()))
    {
      hide *;
      StateIs();
      ghost var m0 := M();
      RoundsStart(m0);
      rounds := 0;
      if incrementalWork == [] {
        var _, _ := CheckBarrierWork();
        StateIs();
        RoundsMoved(m0, m0, M(), 0);
        RoundsAre(m0, M(), 0);
        if incrementalWork == [] { return; }
      }
      var t := 0;
      while t <= ticks
        invariant Valid() && marking && Rounds(m0, M(), t) && rounds == t <= ticks + 1
        invariant t == 0 ==> incrementalWork != [] && |incrementalWork| >= |m0.inc|
        invariant m0.inc != [] && t <= 1 ==> barrierWork == m0.bar && (t == 0 ==> incrementalWork == m0.inc)
      {
        var more := MarkRound(m0, t);
        if !more { break; }
        t := t + 1;
        rounds := t;
      }
      RoundsAre(m0, M(), rounds);
      StateIs();
    }

    /** StartIncrementalMark, in incremental mode: the roots are traced, and a first increment is made. */
    method StartIncrementalMark(ticks: nat) returns (ghost rounds: nat)
      requires Valid() && !marking
      modifies this`bits, this`incrementalWork, this`barrierWork, this`markStackOverflow, this`again, this`marking,
        this`allowed
      ensures Valid() && marking && G() == old(G())
      ensures allowed == ObtainableSet(G())
      ensures !markStackOverflow ==> RootsTraced(G(), |roots|, false, bits)
      ensures rounds <= ticks + 1 && (rounds == ticks + 1 || (incrementalWork == [] && !ManyBarriers()))
    {
      hide Sound, TricolorExcept, OnlyObjects, Passing, RootsTraced, Idle, ObtainableSet;
      CycleStart(G(), M());
      marking := true;
      allowed := ObtainableSet(G());
      ghost var m := M();
      MarkRoots(false, false, {}, allowed);
      PassingObjects(m, M());
      ghost var bits1 := bits;
      rounds := IncrementalMark(ticks);
      if !markStackOverflow { RootsTracedKept(G(), |roots|, false, bits1, bits); }
    }

    /** The first part of Sweep: the barrier is switched off, and the presweep callbacks may run. */
    method BeginSweep()
      requires Valid() && marking && !collecting
      requires incrementalWork == [] && barrierWork == [] && !markStackOverflow
      modifies this`collecting
      ensures Valid() && collecting
    {
      hide Invariant, Idle;
      collecting := true;
    }

    /**
     Finish the marking of what the callbacks have pushed, with recovery from overflow.
     Nothing is marked but what pointers lead to from marked objects, from those on the
     stack, and from the roots.
     */
    method MarkBeforeSweep()
      requires Valid() && collecting
      modifies this`bits, this`incrementalWork, this`markStackOverflow, this`again
      ensures Invariant(G(), M(), allowed) && incrementalWork == [] && !markStackOverflow
      ensures Darker(old(bits), bits) && StillDue(old(M()), M())
      ensures old(incrementalWork) == [] && !old(markStackOverflow) ==> M() == old(M())
      ensures forall o :: o in bits && bits[o].Black() ==> LedTo(G(), Pending(old(M())) + RootTargets(G()), o, true)
    {
      hide Sound, TricolorExcept, OnlyObjects, LessLeft, NoMoreLeft, StillDue, Unmarked, Passing, RootsTraced, Darker,
        Drained, Unvisited,
        Reached, Pending, LedTo, RootTargets;
      ghost var g, m0 := G(), M();
      ghost var l := Reached(g, Pending(m0) + RootTargets(g));
      ReachedBounds(g, m0, allowed);
      DarkerStart(bits);
      StillDueStart(m0);
      EmptyIsObjects();
      var restart := true;
      while restart
        invariant G() == g && Sound(g, M(), l) && Tricolor(g, M()) && OnlyObjects(incrementalWork)
        invariant Darker(m0.bits, bits) && StillDue(m0, M())
        invariant restart || (!markStackOverflow && incrementalWork == [])
        invariant m0.inc == [] && !m0.overflow ==> M() == m0
        decreases Unmarked(bits), again, restart
      {
        ghost var m := M();
        if markStackOverflow {
          LowerFlag(g, m, l);
          markStackOverflow := false;
          HandleMarkStackOverflow(l);
        } else {
          PassingStart(m);
        }
        ghost var m2 := M();
        PassingObjects(m.(overflow := false), m2);
        Mark({}, l);
        PassingDrained(g, m2, M());
        PassingTransitive(m.(overflow := false), m2, M());
        RoundProgress(m0, m, M());
        RoundDarker(m, M());
        StillDueTransitive(m0, m, M());
        restart := markStackOverflow;
        RoundLess(m, M());
      }
      WiderSound(g, m0, M(), l, allowed);
      BlackIsReached(g, M(), Pending(m0) + RootTargets(g));
    }

    /**
     Finalize and what follows: clear the weak references to unmarked objects; free
     these, as if every block were swept at once, and clear the marks.
     */
    method SweepObjects()
      requires marking && Invariant(G(), M(), allowed) && incrementalWork == [] && barrierWork == []
      requires !markStackOverflow
      modifies this`bits, this`fields, this`weak, this`marking, this`collecting, this`resurrected, this`again
      ensures Valid() && !marking && !collecting
      ensures G() == SweptGraph(old(G()), old(bits)) && M() == SweptMarks(old(M()))
      ensures forall o :: o in weak <==> o in old(weak) && o in old(bits) && old(bits)[o].mark
    {
      hide *;
      StateIs();
      SweepIdle(G(), M(), allowed);
      SweptIs(G(), M());
      WeakLeft(G(), M(), allowed);
      bits, fields, weak := SweptBits(bits), SweptFields(fields, bits), SweptWeak(weak, bits);
      resurrected, again := {}, multiset{};
      collecting, marking := false, false;
      StateIs();
    }

    /** The second part of Sweep: mark what the callbacks have pushed, then free what is not marked. */
    method FinishSweep() returns (ghost m1: Marks)
      requires Valid() && collecting
      modifies this`bits, this`fields, this`weak, this`incrementalWork, this`markStackOverflow, this`marking,
        this`collecting,
        this`resurrected, this`again
      ensures Valid() && !marking && !collecting
      ensures Invariant(old(G()), m1, allowed) && !m1.overflow
      ensures (forall o :: o in m1.bits ==> !m1.bits[o].Queued()) && MarksStay(old(bits), m1.bits)
      // what was marked or on the mark stack, and what is led to from there, is marked; and nothing else, except for
      // roots
      ensures forall o :: LedTo(old(G()), Pending(old(M())), o, false) ==> o in m1.bits && m1.bits[o].mark
      ensures forall o :: o in m1.bits && m1.bits[o].Black() ==>
        LedTo(old(G()), Pending(old(M())) + RootTargets(old(G())), o, true)
      ensures G() == SweptGraph(old(G()), m1.bits) && M() == SweptMarks(m1)
      // weak references to what is not marked have been cleared, and no others
      ensures forall o :: o in weak <==> o in old(weak) && o in m1.bits && m1.bits[o].mark
    {
      hide *;
      StateIs();
      ghost var m0 := M();
      MarkBeforeSweep();
      StateIs();
      m1 := M();
      DarkerMarksStay(m0.bits, m1.bits);
      DueIsMarked(m0, m1);
      PendingIsMarked(m0, m1);
      NothingLeftQueued(G(), m1, allowed);
      InvariantIs(G(), m1, allowed);
      LedToIsMarked(G(), m1, Pending(m0));
      SweepObjects();
    }

    /** The presweep callbacks, which read the weak references to the objects `gets`, in this order. */
    method ReadWeakRefs(gets: seq<Obj>) returns (ghost read: seq<Obj>)
      requires Valid() && collecting && incrementalWork == []
      requires forall o :: o in gets ==> o in weak
      modifies this`bits, this`incrementalWork, this`markStackOverflow, this`resurrected, this`again
      ensures Valid() && MarksStay(old(bits), bits)
      // what will be marked is what would have been, and what was read with a push that was not refused
      ensures Pending(M()) == old(Pending(M())) + Objects(read) && forall o :: o in read ==> o in gets
      // the first push is not refused
      ensures gets != [] ==> gets[0] in read
    {
      hide *;
      ghost var bits0, m0 := bits, M();
      StateIs();
      read := [];
      PendingNone(m0);
      MarksStayStart(bits);
      for i := 0 to |gets|
        invariant Valid() && MarksStay(bits0, bits)
        invariant i == 0 ==> incrementalWork == []
        invariant Pending(M()) == Pending(m0) + Objects(read) && forall o :: o in read ==> o in gets
        invariant i > 0 ==> gets[0] in read
      {
        ghost var m := M();
        StateIs();
        var ok := ReadWeakRef(gets[i]);
        StateIs();
        MarksStayTransitive(bits0, m.bits, bits);
        PendingRead(m0, m, M(), read, gets[i], ok);
        if ok { read := read + [gets[i]]; }
      }
    }

    /** Sweep, with callbacks that read the weak references to the objects `gets`. */
    method Sweep(gets: seq<Obj>) returns (ghost m1: Marks, ghost read: seq<Obj>)
      requires Valid() && marking && !collecting
      requires incrementalWork == [] && barrierWork == [] && !markStackOverflow
      requires forall o :: o in gets ==> o in weak
      modifies this`bits, this`fields, this`weak, this`incrementalWork, this`markStackOverflow, this`marking,
        this`collecting,
        this`resurrected, this`again
      ensures Valid() && !marking && !collecting
      ensures Invariant(old(G()), m1, allowed) && !m1.overflow
      ensures (forall o :: o in m1.bits ==> !m1.bits[o].Queued()) && MarksStay(old(bits), m1.bits)
      ensures (forall o :: o in read ==> o in gets) && (gets != [] ==> gets[0] in read)
      // marked is what is led to from what was, and from what was read; and nothing else, except for roots
      ensures var kept := Pending(old(M())) + Objects(read);
        && (forall o :: LedTo(old(G()), kept, o, false) ==> o in m1.bits && m1.bits[o].mark)
        && (forall o :: o in m1.bits && m1.bits[o].Black() ==> LedTo(old(G()), kept + RootTargets(old(G())), o, true))
      ensures G() == SweptGraph(old(G()), m1.bits) && M() == SweptMarks(m1)
      // weak references to what is not marked have been cleared, and no others
      ensures forall o :: o in weak <==> o in old(weak) && o in m1.bits && m1.bits[o].mark
    {
      hide *;
      StateIs();
      ghost var g, bits0 := G(), bits;
      BeginSweep();
      StateIs();
      read := ReadWeakRefs(gets);
      StateIs();
      ghost var m := M();
      m1 := FinishSweep();
      MarksStayTransitive(bits0, m.bits, m1.bits);
    }

    /**
     FinishIncrementalMark, with callbacks before the sweep that read the weak references
     to `gets`.  Everything the program can still reach, also from the objects it has
     read, survives with its contents; and what survives could be got at when the cycle
     began, or has been allocated since.  To be exact, what survives is what was marked
     when marking was complete (`done`), what was read with a push that was not refused,
     and what is led to from there.  Without a scan of the native stack this holds only if
     that stack holds no pointers.
     */
    method FinishIncrementalMark(scanStack: bool, gets: seq<Obj>) returns (ghost read: seq<Obj>, ghost done: Marks)
      requires Valid() && marking && !collecting
      requires forall o :: o in gets ==> o in weak
      modifies this`bits, this`fields, this`weak, this`incrementalWork, this`barrierWork, this`markStackOverflow,
        this`marking, this`collecting, this`resurrected, this`again
      ensures Valid() && !marking && !collecting
      ensures bits.Keys == old(bits).Keys
      ensures forall o :: o in bits ==> bits[o].White() || bits[o].Free()
      ensures (forall o :: o in read ==> o in gets) && (gets != [] ==> gets[0] in read)
      ensures scanStack || PointersIn(nativeStack, {}) ==>
        && (forall o :: Reachable(old(G()).(nativeStack := old(nativeStack) + read), o) ==>
              && o in bits && o in old(bits) && o in old(fields) && o in fields
              && (old(bits)[o].Free() <==> bits[o].Free())
              && (!bits[o].Free() ==> fields[o] == old(fields[o])))
        && (forall o :: o in bits && bits[o].White() ==> o in allowed)
        && MarkingDone(old(G()), done) && Darker(old(bits), done.bits) && Pending(done) <= allowed
        && SurvivorsOf(old(G()), old(bits), bits, Pending(done) + Objects(read))
      // the weak references that are left are those to what has not been freed
      ensures forall o :: o in weak <==> o in old(weak) && o in bits && !bits[o].Free()
    {
      hide Sound, TricolorExcept, OnlyObjects, MarkingDone, Reachable, Darker, MarksStay, Idle, LedTo, Pending,
        SurvivorsOf, RootTargets;
      ghost var g, m := G(), M();
      StoreReady(g, m, true, allowed);
      FinishMarking(scanStack);
      ghost var m0 := M();
      SoundGraph(g, m0, allowed);
      ghost var m1;
      m1, read := Sweep(gets);
      done := m0;
      SweptSame(m, m0, m1);
      WeakLeft(g, m1, allowed);
      if scanStack || PointersIn(nativeStack, {}) {
        DoneRootsMarked(g, m0);
        PendingIs(m0);
        ReadIsMarked(g, Pending(m0), read, m1);
        Survivors(g, m, m0, m1, read, allowed);
        SweptExactly(g, m, m0, m1, Pending(m0) + Objects(read));
      }
    }
  }
}
