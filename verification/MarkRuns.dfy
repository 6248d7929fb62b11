/**
 Whole runs of a collection cycle up to its sweep: any interleaving of marker turns,
 root scans, barrier work moving between the stacks, stores, allocations, deletions,
 weak references and root changes, with pushes failing wherever the mark stack may
 refuse them.
 */
module MarkRuns {
  import opened MarkState
  import opened MarkSteps
  import opened MutatorSteps

  datatype Cycle = Cycle(g: Graph, m: Marks, allowed: set<Obj>)

  datatype Action =
    | MarkObject(oks: seq<bool>)
    | TraceGCRoots(oks: seq<bool>)
    | TraceRoot(index: nat, oks: seq<bool>)
    | TraceStack(oks: seq<bool>)
    | MoveWork(lo: nat, hi: nat)
    | StoreField(container: Obj, slot: nat, value: Obj, d: Destination)
    | NewObject(o: Obj, hasPointers: bool, size: nat)
    | DeleteObject(o: Obj)
    | HoldWeakly(o: Obj)
    | ChangeRoots(roots: seq<Root>, nativeStack: seq<Obj>)

  /** Trace the pointers in order; `oks[i]` is the answer the i-th push gets, if there is one. */
  ghost function TraceSeq(g: Graph, m: Marks, ptrs: seq<Obj>, oks: seq<bool>): (m': Marks)
    requires |oks| == |ptrs| && PointersIn(ptrs, m.bits.Keys)
    ensures m'.bits.Keys == m.bits.Keys
    decreases |ptrs|
  {
    if ptrs == [] then m else
      var n := |ptrs| - 1;
      assert forall i | 0 <= i < n :: ptrs[..n][i] == ptrs[i];
      TracePointer(g, TraceSeq(g, m, ptrs[..n], oks[..n]), ptrs[n], oks[n])
  }

  /** No push onto an empty stack is refused. */
  ghost predicate Granted(g: Graph, m: Marks, ptrs: seq<Obj>, oks: seq<bool>)
    decreases |ptrs|
  {
    && |oks| == |ptrs| && PointersIn(ptrs, m.bits.Keys)
    && (ptrs != [] ==>
          var n := |ptrs| - 1;
          && Granted(g, m, ptrs[..n], oks[..n])
          && (TraceSeq(g, m, ptrs[..n], oks[..n]).inc == [] ==> oks[n]))
  }

  lemma {:induction false} TraceSeqTraces(g: Graph, m: Marks, ptrs: seq<Obj>, oks: seq<bool>, allowed: set<Obj>)
    requires Sound(g, m, allowed) && OnlyObjects(m.inc)
    requires Granted(g, m, ptrs, oks) && PointersIn(ptrs, allowed)
    ensures Tracing(g, m, TraceSeq(g, m, ptrs, oks), ptrs, allowed)
    decreases |ptrs|
  {
    hide Sound, OnlyObjects, Tracing;
    if ptrs == [] {
      TracingStart(g, m, allowed);
    } else {
      var n := |ptrs| - 1;
      TraceSeqTraces(g, m, ptrs[..n], oks[..n], allowed);
      var mid := TraceSeq(g, m, ptrs[..n], oks[..n]);
      TracingDomain(g, m, mid, ptrs[..n], allowed);
      TracingStep(g, m, mid, ptrs[..n], ptrs[n], oks[n], allowed);
      assert ptrs == ptrs[..n] + [ptrs[n]];
    }
  }

  ghost predicate Enabled(s: Cycle, a: Action) {
    match a
    case MarkObject(oks) =>
      && s.m.inc != [] && s.m.inc[|s.m.inc| - 1].GCObject?
      && var o := s.m.inc[|s.m.inc| - 1].obj;
         o in s.m.bits && o in s.g.fields && Granted(s.g, SetMark(PopGCObject(s.m), o), s.g.fields[o], oks)
    case TraceGCRoots(oks) => Granted(s.g, s.m, s.g.gcRoots, oks)
    case TraceRoot(i, oks) => i < |s.g.roots| && Granted(s.g, s.m, s.g.roots[i].ptrs, oks)
    case TraceStack(oks) => Granted(s.g, s.m, s.g.nativeStack, oks)
    case MoveWork(lo, hi) => lo <= hi <= |s.m.bar|
    case StoreField(c, slot, value, d) =>
      && c in s.m.bits && c in s.g.fields && c in s.g.pointerful && !s.m.bits[c].Free() && slot < |s.g.fields[c]|
      && (value == NULL || Obtainable(s.g, value)) && MayGo(s.m, d)
    case NewObject(o, hasPointers, size) => MayAllocate(s.g, s.m, o, hasPointers)
    case DeleteObject(o) => o in s.m.bits && o in s.g.fields && !s.m.bits[o].Free()
    case HoldWeakly(o) => Obtainable(s.g, o) && o in s.m.bits && !s.m.bits[o].Free()
    case ChangeRoots(roots, stack) =>
      forall o :: IsRoot(s.g.(roots := roots, nativeStack := stack), o) && o != NULL ==> Obtainable(s.g, o)
  }

  ghost function Next(s: Cycle, a: Action): Cycle
    requires Enabled(s, a)
  {
    match a
    case MarkObject(oks) =>
      var o := s.m.inc[|s.m.inc| - 1].obj;
      s.(m := TraceSeq(s.g, SetMark(PopGCObject(s.m), o), s.g.fields[o], oks))
    case TraceGCRoots(oks) => s.(m := TraceSeq(s.g, s.m, s.g.gcRoots, oks))
    case TraceRoot(i, oks) => s.(m := TraceSeq(s.g, s.m, s.g.roots[i].ptrs, oks))
    case TraceStack(oks) => s.(m := TraceSeq(s.g, s.m, s.g.nativeStack, oks))
    case MoveWork(lo, hi) =>
      s.(m := s.m.(inc := AsItems(s.m.bar[lo..hi]) + s.m.inc, bar := s.m.bar[..lo] + s.m.bar[hi..]))
    case StoreField(c, slot, value, d) => s.(g := WriteField(s.g, Trap(s.m, c, d).bits, c, slot, value), m := Trap(s.m, c, d))
    case NewObject(o, hasPointers, size) =>
      Cycle(AllocGraph(s.g, o, hasPointers, size), AllocMarks(s.m, o), s.allowed + {o})
    case DeleteObject(o) => s.(g := FreeGraph(s.g, s.m.bits, o), m := FreeMarks(s.m, o))
    case HoldWeakly(o) => s.(g := WeakGraph(s.g, o))
    case ChangeRoots(roots, stack) => s.(g := s.g.(roots := roots, nativeStack := stack))
  }

  ghost predicate Safe(s: Cycle) {
    Invariant(s.g, s.m, s.allowed) && s.m.resurrected == {}
  }

  lemma TraceKeeps(s: Cycle, ptrs: seq<Obj>, oks: seq<bool>)
    requires Safe(s) && Granted(s.g, s.m, ptrs, oks) && PointersIn(ptrs, s.allowed)
    ensures Safe(s.(m := TraceSeq(s.g, s.m, ptrs, oks)))
  {
    hide Sound, OnlyObjects, TricolorExcept, Tracing, Granted;
    GrantedLength(s.g, s.m, ptrs, oks);
    TraceSeqTraces(s.g, s.m, ptrs, oks, s.allowed);
    TracedMore(s.g, s.m, TraceSeq(s.g, s.m, ptrs, oks), ptrs, s.allowed, {});
  }

  lemma GrantedLength(g: Graph, m: Marks, ptrs: seq<Obj>, oks: seq<bool>)
    requires Granted(g, m, ptrs, oks)
    ensures |oks| == |ptrs| && PointersIn(ptrs, m.bits.Keys)
  {
  }

  lemma MarkObjectKeeps(s: Cycle, oks: seq<bool>)
    requires Safe(s) && Enabled(s, MarkObject(oks))
    ensures Safe(Next(s, MarkObject(oks)))
  {
    hide Sound, OnlyObjects, TricolorExcept, Tracing, Granted, Darker, StillDue, Unmarked;
    var o := s.m.inc[|s.m.inc| - 1].obj;
    PopAndMark(s.g, s.m, s.allowed);
    FieldsOf(s.g, s.m, s.allowed, o);
    var m1 := SetMark(PopGCObject(s.m), o);
    GrantedLength(s.g, m1, s.g.fields[o], oks);
    TraceSeqTraces(s.g, m1, s.g.fields[o], oks, s.allowed);
    MarkedObject(s.g, s.m, TraceSeq(s.g, m1, s.g.fields[o], oks), s.allowed, {});
  }

  lemma StoreFieldKeeps(s: Cycle, c: Obj, slot: nat, value: Obj, d: Destination)
    requires Safe(s) && Enabled(s, StoreField(c, slot, value, d))
    ensures Safe(Next(s, StoreField(c, slot, value, d)))
  {
    hide Sound, OnlyObjects, TricolorExcept, Obtainable;
    StoreReady(s.g, s.m, true, s.allowed);
    TrapKeeps(s.g, s.m, c, d, s.allowed);
    StoreDuring(s.g, Trap(s.m, c, d), c, slot, value, s.allowed);
  }

  lemma OtherKeeps(s: Cycle, a: Action)
    requires Safe(s) && Enabled(s, a)
    requires (a.MoveWork? || a.NewObject? || a.DeleteObject? || a.HoldWeakly? || a.ChangeRoots?)
    ensures Safe(Next(s, a))
  {
    hide Sound, OnlyObjects, TricolorExcept, Obtainable, MayAllocate;
    match a
    case MoveWork(lo, hi) => MoveSegment(s.g, s.m, lo, hi, s.allowed);
    case NewObject(o, hasPointers, size) => AllocKeeps(s.g, s.m, o, hasPointers, size, s.allowed);
    case DeleteObject(o) => FreeKeeps(s.g, s.m, o, s.allowed);
    case HoldWeakly(o) =>
      StoreReady(s.g, s.m, true, s.allowed);
      WeakKeeps(s.g, s.m, o, s.allowed);
    case ChangeRoots(roots, stack) =>
      RootsReady(s.g, s.g.(roots := roots, nativeStack := stack), s.m, true, s.allowed);
    case _ =>
  }

  /** Every single step keeps the invariant. */
  lemma StepKeeps(s: Cycle, a: Action)
    requires Safe(s) && Enabled(s, a)
    ensures Safe(Next(s, a))
    ensures Next(s, a).allowed == s.allowed + Born([a])
  {
    hide Sound, OnlyObjects, TricolorExcept, Obtainable, MayAllocate, Granted, IsRoot;
    assert Born([a]) == if a.NewObject? then {a.o} else {} by {
      assert Born([]) == {};
      assert [a][..0] == [];
    }
    match a
    case MarkObject(oks) => MarkObjectKeeps(s, oks);
    case TraceGCRoots(oks) =>
      OtherRootPointers(s.g, s.m, s.allowed);
      TraceKeeps(s, s.g.gcRoots, oks);
    case TraceRoot(i, oks) =>
      RootPointers(s.g, s.m, s.allowed, i);
      TraceKeeps(s, s.g.roots[i].ptrs, oks);
    case TraceStack(oks) =>
      OtherRootPointers(s.g, s.m, s.allowed);
      TraceKeeps(s, s.g.nativeStack, oks);
    case StoreField(c, slot, value, d) => StoreFieldKeeps(s, c, slot, value, d);
    case _ => OtherKeeps(s, a);
  }

  // ----- runs -----

  ghost predicate LegalRun(s: Cycle, run: seq<Action>)
    decreases |run|, 0
  {
    run != [] ==> LegalRun(s, run[..|run| - 1]) && Enabled(Exec(s, run[..|run| - 1]), run[|run| - 1])
  }

  ghost function Exec(s: Cycle, run: seq<Action>): Cycle
    requires LegalRun(s, run)
    decreases |run|, 1
  {
    if run == [] then s else Next(Exec(s, run[..|run| - 1]), run[|run| - 1])
  }

  /** The objects allocated during a run. */
  ghost function Born(run: seq<Action>): set<Obj> {
    if run == [] then {}
    else Born(run[..|run| - 1]) + if run[|run| - 1].NewObject? then {run[|run| - 1].o} else {}
  }

  lemma {:induction false} RunKeeps(s: Cycle, run: seq<Action>)
    requires Safe(s) && LegalRun(s, run)
    ensures Safe(Exec(s, run))
    ensures Exec(s, run).allowed == s.allowed + Born(run)
    decreases |run|
  {
    hide Safe, Enabled, Next;
    if run != [] {
      var n := |run| - 1;
      RunKeeps(s, run[..n]);
      StepKeeps(Exec(s, run[..n]), run[n]);
      assert Born([run[n]]) == if run[n].NewObject? then {run[n].o} else {} by {
        assert Born([]) == {};
        assert [run[n]][..0] == [];
      }
    }
  }

  /**
   The tri-colour theorem, for every run of a cycle from its start: queued
   objects are on exactly one stack, exactly once; unless a push has been dropped
   no black object points to a white one, but through a pointer whose target has
   been deleted since it was written; and only what could be got at when the cycle
   began or was born since has any mark.  Once nothing is pending and the roots
   have been traced, everything reachable is marked.
   */
  lemma TricolorOverEveryRun(g: Graph, m: Marks, run: seq<Action>)
    requires Idle(g, m) && LegalRun(Cycle(g, m, ObtainableSet(g)), run)
    ensures var s := Exec(Cycle(g, m, ObtainableSet(g)), run);
      && QueuedOnce(s.m)
      && (!s.m.overflow ==> NoBlackToWhite(s.g, s.m.bits))
      && (forall o :: o in s.m.bits && (s.m.bits[o].Queued() || s.m.bits[o].Black()) ==>
            o in ObtainableSet(g) || o in Born(run))
      && (MarkingDone(s.g, s.m) ==> forall o :: Reachable(s.g, o) ==> o in s.m.bits && s.m.bits[o].mark)
  {
    var start := Cycle(g, m, ObtainableSet(g));
    var s := Exec(start, run);
    hide ObtainableSet, Reachable;
    CycleStart(g, m);
    assert Safe(s) && s.allowed == ObtainableSet(g) + Born(run) by {
      hide Enabled, Next, Invariant, Exec, LegalRun;
      RunKeeps(start, run);
    }
    hide Enabled, Next, Exec, LegalRun;
    NoneTwice(s.g, s.m);
    TricolorPairs(s.g, s.m);
    if MarkingDone(s.g, s.m) { NoLostObject(s.g, s.m); }
  }

  /** A queued object is on exactly one of the two stacks, and there once; no other object is on either. */
  ghost predicate QueuedOnce(m: Marks) {
    forall o :: o in m.bits ==>
      multiset(m.inc)[GCObject(o)] + multiset(m.bar)[o] == if m.bits[o].Queued() then 1 else 0
  }

  /** No pointer that does not dangle leads from a black object to a white one. */
  ghost predicate NoBlackToWhite(g: Graph, bits: map<Obj, Bits>) {
    forall b, i: nat :: b in bits && b in g.fields && bits[b].Black() && i < |g.fields[b]| && (b, i) !in g.dangling && g.fields[b][i] in bits ==>
      !bits[g.fields[b][i]].White()
  }

  lemma NoneTwice(g: Graph, m: Marks)
    requires StacksOk(g, m) && m.resurrected == {}
    ensures QueuedOnce(m)
  {
    forall o | o in m.bits
      ensures multiset(m.inc)[GCObject(o)] + multiset(m.bar)[o] == if m.bits[o].Queued() then 1 else 0
    {
      assert Occurrences(m, o) == (if m.bits[o].Queued() then 1 else 0) + m.again[o];
      assert o !in m.again;
    }
  }

  lemma TricolorPairs(g: Graph, m: Marks)
    requires Tricolor(g, m)
    ensures !m.overflow ==> NoBlackToWhite(g, m.bits)
  {
    if !m.overflow {
      forall b, i: nat | b in m.bits && b in g.fields && m.bits[b].Black() && i < |g.fields[b]| && (b, i) !in g.dangling && g.fields[b][i] in m.bits
        ensures !m.bits[g.fields[b][i]].White()
      {
        assert Closed(g, m.bits, b);
      }
    }
  }

  // ----- programs that delete only what they no longer point to -----

  ghost function NotFree(bits: map<Obj, Bits>): set<Obj> {
    set o | o in bits && !bits[o].Free()
  }

  /** Nothing dangles: not in a field, and not among the starting points. */
  ghost predicate Tidy(s: Cycle) {
    s.g.dangling == {} && RootPointersIn(s.g, NotFree(s.m.bits)) && s.g.weak <= NotFree(s.m.bits)
  }

  /** A deletion is careful if no other object and no root points to what is deleted. */
  ghost predicate Careful(s: Cycle, a: Action) {
    a.DeleteObject? && a.o in s.g.fields ==> FieldsInto(ClearGraph(s.g, a.o), a.o) == {} && !IsRoot(s.g, a.o)
  }

  ghost predicate CarefulRun(s: Cycle, run: seq<Action>)
    requires LegalRun(s, run)
    decreases |run|
  {
    run != [] ==> CarefulRun(s, run[..|run| - 1]) && Careful(Exec(s, run[..|run| - 1]), run[|run| - 1])
  }

  /** What such a program can get at is not free. */
  lemma TidyObtainable(s: Cycle)
    requires Safe(s) && Tidy(s)
    ensures forall o :: Obtainable(s.g, o) ==> o in NotFree(s.m.bits)
  {
    var g, bits := s.g, s.m.bits;
    hide StacksOk, Confined, TricolorExcept, RootPointersIn;
    forall x, i: nat | x in NotFree(bits) && x in g.fields && i < |g.fields[x]| && g.fields[x][i] != NULL
      ensures g.fields[x][i] in NotFree(bits)
    {
      assert PointersIn(g.fields[x], bits.Keys);
      assert (x, i) !in g.dangling;
    }
    ClosedHoldsObtainable(g, NotFree(bits));
  }

  lemma TracePointerFree(g: Graph, m: Marks, o: Obj, ok: bool)
    requires o == NULL || o in m.bits
    ensures NotFree(TracePointer(g, m, o, ok).bits) == NotFree(m.bits)
  {
  }

  /** Tracing frees nothing, and hands out nothing. */
  lemma {:induction false} TraceSeqFree(g: Graph, m: Marks, ptrs: seq<Obj>, oks: seq<bool>)
    requires |oks| == |ptrs| && PointersIn(ptrs, m.bits.Keys)
    ensures NotFree(TraceSeq(g, m, ptrs, oks).bits) == NotFree(m.bits)
    decreases |ptrs|
  {
    hide NotFree, TracePointer;
    if ptrs != [] {
      var n := |ptrs| - 1;
      assert forall i | 0 <= i < n :: ptrs[..n][i] == ptrs[i];
      TraceSeqFree(g, m, ptrs[..n], oks[..n]);
      TracePointerFree(g, TraceSeq(g, m, ptrs[..n], oks[..n]), ptrs[n], oks[n]);
    }
  }

  lemma TidyTrace(s: Cycle, a: Action)
    requires Safe(s) && Tidy(s) && Enabled(s, a) && (a.MarkObject? || a.TraceGCRoots? || a.TraceRoot? || a.TraceStack?)
    ensures Tidy(Next(s, a))
  {
    hide Sound, OnlyObjects, TricolorExcept, NotFree, RootPointersIn;
    match a
    case MarkObject(oks) =>
      MarkObjectFree(s);
      var o := s.m.inc[|s.m.inc| - 1].obj;
      var m1 := SetMark(PopGCObject(s.m), o);
      GrantedLength(s.g, m1, s.g.fields[o], oks);
      TraceSeqFree(s.g, m1, s.g.fields[o], oks);
    case TraceGCRoots(oks) =>
      GrantedLength(s.g, s.m, s.g.gcRoots, oks);
      TraceSeqFree(s.g, s.m, s.g.gcRoots, oks);
    case TraceRoot(i, oks) =>
      GrantedLength(s.g, s.m, s.g.roots[i].ptrs, oks);
      TraceSeqFree(s.g, s.m, s.g.roots[i].ptrs, oks);
    case TraceStack(oks) =>
      GrantedLength(s.g, s.m, s.g.nativeStack, oks);
      TraceSeqFree(s.g, s.m, s.g.nativeStack, oks);
  }

  lemma MarkObjectFree(s: Cycle)
    requires Safe(s) && s.m.inc != [] && s.m.inc[|s.m.inc| - 1].GCObject? && s.m.inc[|s.m.inc| - 1].obj in s.m.bits
    ensures NotFree(SetMark(PopGCObject(s.m), s.m.inc[|s.m.inc| - 1].obj).bits) == NotFree(s.m.bits)
  {
    TopOfStack(s.g, s.m);
    hide Safe;
  }

  lemma TrapFree(m: Marks, c: Obj, d: Destination)
    requires c in m.bits && !m.bits[c].Free()
    ensures NotFree(Trap(m, c, d).bits) == NotFree(m.bits)
  {
  }

  lemma TidyStore(s: Cycle, c: Obj, slot: nat, value: Obj, d: Destination)
    requires Safe(s) && Tidy(s) && Enabled(s, StoreField(c, slot, value, d))
    ensures Tidy(Next(s, StoreField(c, slot, value, d)))
  {
    hide Sound, Tricolor, OnlyObjects, Obtainable, MayGo, Trap, PointersIn;
    TidyObtainable(s);
    TrapFree(s.m, c, d);
    var bits := Trap(s.m, c, d).bits;
    assert value in bits && bits[value].Free() ==> value !in NotFree(bits);
    assert value == NULL ==> value !in bits by { StoreReady(s.g, s.m, true, s.allowed); TrapKeeps(s.g, s.m, c, d, s.allowed); }
  }

  /** Roots that do not point to `o` do without it. */
  lemma RootsWithout(g: Graph, g': Graph, a: set<Obj>, b: set<Obj>, o: Obj)
    requires RootPointersIn(g, a) && !IsRoot(g, o) && a - {o} <= b
    requires g'.gcRoots == g.gcRoots && g'.nativeStack == g.nativeStack && g'.roots == g.roots
    ensures RootPointersIn(g', b)
  {
    forall i | 0 <= i < |g.roots| ensures PointersIn(g'.roots[i].ptrs, b) {
      assert PointersIn(g.roots[i].ptrs, a);
      assert o !in g.roots[i].ptrs;
    }
  }

  lemma TidyDelete(s: Cycle, o: Obj)
    requires Safe(s) && Tidy(s) && Enabled(s, DeleteObject(o)) && Careful(s, DeleteObject(o))
    ensures Tidy(Next(s, DeleteObject(o)))
  {
    var bits, bits' := s.m.bits, FreeMarks(s.m, o).bits;
    assert NotFree(bits) - {o} <= NotFree(bits');
    hide Safe, NotFree, RootPointersIn, IsRoot, FreeMarks, FieldsInto;
    RootsWithout(s.g, FreeGraph(s.g, bits, o), NotFree(bits), NotFree(bits'), o);
  }

  lemma TidyNew(s: Cycle, o: Obj, hasPointers: bool, size: nat)
    requires Tidy(s)
    ensures Tidy(Cycle(AllocGraph(s.g, o, hasPointers, size), AllocMarks(s.m, o), s.allowed + {o}))
  {
    var g', s' := AllocGraph(s.g, o, hasPointers, size), NotFree(AllocMarks(s.m, o).bits);
    assert NotFree(s.m.bits) <= s' && o in s';
    hide NotFree;
    forall i | 0 <= i < |g'.roots|
      ensures PointersIn(g'.roots[i].ptrs, s')
    {
      assert PointersIn(s.g.roots[i].ptrs, NotFree(s.m.bits));
    }
  }

  lemma TidyOther(s: Cycle, a: Action)
    requires Safe(s) && Tidy(s) && Enabled(s, a) && (a.MoveWork? || a.NewObject? || a.HoldWeakly? || a.ChangeRoots?)
    ensures Tidy(Next(s, a))
  {
    hide Safe, Obtainable, IsRoot, NotFree, MayAllocate, AllocGraph, AllocMarks;
    TidyObtainable(s);
    match a
    case NewObject(o, hasPointers, size) => TidyNew(s, o, hasPointers, size);
    case ChangeRoots(roots, stack) =>
      NewRoots(s.g, s.g.(roots := roots, nativeStack := stack), NotFree(s.m.bits));
    case _ =>
  }

  lemma {:induction false} CarefulRunKeeps(s: Cycle, run: seq<Action>)
    requires Safe(s) && Tidy(s) && LegalRun(s, run) && CarefulRun(s, run)
    ensures Safe(Exec(s, run)) && Tidy(Exec(s, run))
    decreases |run|
  {
    hide Safe, Tidy, Enabled, Next, Careful;
    if run != [] {
      var n := |run| - 1;
      CarefulRunKeeps(s, run[..n]);
      var s1 := Exec(s, run[..n]);
      StepKeeps(s1, run[n]);
      match run[n]
      case StoreField(c, slot, value, d) => TidyStore(s1, c, slot, value, d);
      case DeleteObject(o) => TidyDelete(s1, o);
      case MoveWork(_, _) => TidyOther(s1, run[n]);
      case NewObject(_, _, _) => TidyOther(s1, run[n]);
      case HoldWeakly(_) => TidyOther(s1, run[n]);
      case ChangeRoots(_, _) => TidyOther(s1, run[n]);
      case _ => TidyTrace(s1, run[n]);
    }
  }

  /**
   A program that deletes only what nothing else points to never has a dangling pointer,
   and for it the tri-colour invariant holds of all pointers; and if nothing was held
   weakly when the cycle began, only what was reachable then or was born since has any mark.
   */
  lemma CarefulRunIsTricolor(g: Graph, m: Marks, run: seq<Action>)
    requires Idle(g, m) && Tidy(Cycle(g, m, ObtainableSet(g)))
    requires LegalRun(Cycle(g, m, ObtainableSet(g)), run) && CarefulRun(Cycle(g, m, ObtainableSet(g)), run)
    ensures var s := Exec(Cycle(g, m, ObtainableSet(g)), run);
      && s.g.dangling == {}
      && (!s.m.overflow ==>
            forall b, i: nat :: b in s.m.bits && b in s.g.fields && s.m.bits[b].Black() && i < |s.g.fields[b]| && s.g.fields[b][i] in s.m.bits ==>
              !s.m.bits[s.g.fields[b][i]].White())
      && (g.weak == {} ==>
            forall o :: o in s.m.bits && (s.m.bits[o].Queued() || s.m.bits[o].Black()) ==> Reachable(g, o) || o in Born(run))
  {
    var start := Cycle(g, m, ObtainableSet(g));
    ReachableOrMore(g);
    hide Obtainable, Reachable;
    assert forall o :: o in ObtainableSet(g) ==> Obtainable(g, o);
    hide ObtainableSet;
    CycleStart(g, m);
    hide Enabled, Next, Exec, LegalRun, CarefulRun;
    CarefulRunKeeps(start, run);
    RunKeeps(start, run);
    hide StacksOk, GraphOk;
    TricolorPairs(Exec(start, run).g, Exec(start, run).m);
  }

  // ----- a slot that is used again -----

  lemma ExecMore(s: Cycle, run: seq<Action>, a: Action)
    requires LegalRun(s, run) && Enabled(Exec(s, run), a)
    ensures LegalRun(s, run + [a]) && Exec(s, run + [a]) == Next(Exec(s, run), a)
  {
    assert (run + [a])[..|run + [a]| - 1] == run;
  }

  lemma FourSteps(s: Cycle, s1: Cycle, s2: Cycle, s3: Cycle, s4: Cycle, a: Action, b: Action, c: Action, d: Action)
    requires Enabled(s, a) && s1 == Next(s, a) && Enabled(s1, b) && s2 == Next(s1, b)
    requires Enabled(s2, c) && s3 == Next(s2, c) && Enabled(s3, d) && s4 == Next(s3, d)
    ensures LegalRun(s, [a, b, c, d]) && Exec(s, [a, b, c, d]) == s4
  {
    hide Enabled, Next;
    ExecMore(s, [], a);
    hide Exec, LegalRun;
    assert [] + [a] == [a] && [a] + [b] == [a, b] && [a, b] + [c] == [a, b, c] && [a, b, c] + [d] == [a, b, c, d];
    ExecMore(s, [a], b);
    ExecMore(s, [a, b], c);
    ExecMore(s, [a, b, c], d);
  }

  /** Object 1 is a root and points to object 2. */
  ghost function TwoObjects(): Cycle {
    var g := Graph(map[1 := [2], 2 := []], {1}, [1], [1], [], [], {}, {});
    Cycle(g, Marks(map[1 := WHITE, 2 := WHITE], [], [], false, {}, multiset{}), ObtainableSet(g))
  }

  lemma TraceOne(g: Graph, m: Marks, o: Obj, ok: bool)
    requires o == NULL || o in m.bits
    requires m.inc == [] ==> ok
    ensures Granted(g, m, [o], [ok]) && TraceSeq(g, m, [o], [ok]) == TracePointer(g, m, o, ok)
  {
    assert [o][..0] == [] && [ok][..0] == [];
  }

  lemma TwoObjectsSafe()
    ensures Idle(TwoObjects().g, TwoObjects().m) && Safe(TwoObjects())
  {
    var s := TwoObjects();
    assert Idle(s.g, s.m);
    hide ObtainableSet, Idle;
    CycleStart(s.g, s.m);
  }

  /** The states between the steps of `ReusedSlot`. */
  ghost function WithBits(s: Cycle, one: Bits, two: Bits): Cycle {
    s.(m := s.m.(bits := map[1 := one, 2 := two], inc := if one.Queued() then [GCObject(1)] else []))
  }

  lemma RootTracedStep(s: Cycle)
    requires s.g == TwoObjects().g && s.m == TwoObjects().m
    ensures Enabled(s, TraceGCRoots([true])) && Next(s, TraceGCRoots([true])) == WithBits(s, QUEUED, WHITE)
  {
    hide TraceSeq, Granted, ObtainableSet;
    TraceOne(s.g, s.m, 1, true);
  }

  lemma ObjectMarkedStep(s: Cycle)
    requires s.g == TwoObjects().g && s.m == TwoObjects().m
    ensures var s1 := WithBits(s, QUEUED, WHITE);
      Enabled(s1, MarkObject([true])) && Next(s1, MarkObject([true])) == WithBits(s, BLACK, BLACK)
  {
    hide TraceSeq, Granted, ObtainableSet;
    var s1 := WithBits(s, QUEUED, WHITE);
    var m := SetMark(PopGCObject(s1.m), 1);
    assert m == WithBits(s, BLACK, WHITE).m;
    TraceOne(s.g, m, 2, true);
  }

  lemma DeletedStep(s: Cycle)
    requires s.g == TwoObjects().g && s.m == TwoObjects().m
    ensures var s2 := WithBits(s, BLACK, BLACK);
      Enabled(s2, DeleteObject(2)) && Next(s2, DeleteObject(2)) == WithBits(s, BLACK, FREE).(g := s.g.(dangling := {(1, 0)}))
  {
    hide ObtainableSet;
    assert s.g.fields[2 := Zeros(0)] == s.g.fields;
    assert ClearGraph(s.g, 2) == s.g;
    assert FieldsInto(s.g, 2) == {(1, 0)};
  }

  lemma NewStep(s: Cycle)
    requires s.g == TwoObjects().g && s.m == TwoObjects().m
    ensures var s3 := WithBits(s, BLACK, FREE).(g := s.g.(dangling := {(1, 0)}));
      Enabled(s3, NewObject(2, false, 0)) &&
      var s4 := Next(s3, NewObject(2, false, 0));
      s4.m.bits == map[1 := BLACK, 2 := WHITE] && s4.g.fields == map[1 := [2], 2 := []] && s4.g.dangling == {(1, 0)} && !s4.m.overflow
  {
    hide ObtainableSet;
    assert s.g.fields[2 := Zeros(0)] == s.g.fields;
  }

  /**
   The program deletes object 2 after both have been marked, without clearing the
   pointer, and allocates another object at the same address.  This is a legal run, and
   it ends with the black object 1 pointing to the white object 2.
   */
  lemma ReusedSlot()
    ensures var run := [TraceGCRoots([true]), MarkObject([true]), DeleteObject(2), NewObject(2, false, 0)];
      && Idle(TwoObjects().g, TwoObjects().m) && LegalRun(TwoObjects(), run)
      && var s := Exec(TwoObjects(), run);
         && s.m.bits == map[1 := BLACK, 2 := WHITE] && s.g.fields == map[1 := [2], 2 := []] && s.g.dangling == {(1, 0)}
         && !s.m.overflow && Safe(s)
  {
    hide *;
    var s := TwoObjects();
    var run := [TraceGCRoots([true]), MarkObject([true]), DeleteObject(2), NewObject(2, false, 0)];
    TwoObjectsSafe();
    RootTracedStep(s);
    ObjectMarkedStep(s);
    DeletedStep(s);
    NewStep(s);
    var s3 := WithBits(s, BLACK, FREE).(g := s.g.(dangling := {(1, 0)}));
    FourSteps(s, WithBits(s, QUEUED, WHITE), WithBits(s, BLACK, BLACK), s3, Next(s3, NewObject(2, false, 0)),
              TraceGCRoots([true]), MarkObject([true]), DeleteObject(2), NewObject(2, false, 0));
    RunKeeps(s, run);
  }
}
