/**
 Whole runs of the collector: any number of cycles, with the program going on before,
 during and after each of them.
 */
module CollectorRuns {
  import opened MarkState
  import opened MarkSteps
  import opened MutatorSteps
  import opened Survival
  import opened MarkRuns

  datatype World = World(c: Cycle, marking: bool)

  /**
   A step of the program or the marker; the start of a cycle; a round of recovery from
   overflow, which ends with marks `m`; and the end of a cycle, whose callbacks read
   `read` with pushes that are not refused, and whose sweep finds marks `m`.
   */
  datatype Event = Step(a: Action) | BeginCycle | Recover(m: Marks) | Collect(read: seq<Obj>, m: Marks)

  /** Between cycles there is nothing to mark. */
  predicate OfProgram(a: Action) {
    a.StoreField? || a.NewObject? || a.DeleteObject? || a.HoldWeakly? || a.ChangeRoots?
  }

  /** What one round of recovery is known to come to. */
  ghost predicate Recovered(c: Cycle, m': Marks) {
    && c.m.overflow && Invariant(c.g, m', c.allowed)
    && Darker(c.m.bits, m'.bits) && m'.resurrected == {}
  }

  /** What the sweep and the marking before it are known to come to. */
  ghost predicate Collected(c: Cycle, read: seq<Obj>, m1: Marks) {
    && MarkingDone(c.g, c.m)
    && Invariant(c.g, m1, c.allowed) && m1.inc == [] && m1.bar == [] && !m1.overflow && MarksStay(c.m.bits, m1.bits)
    && (forall o :: LedTo(c.g, Pending(c.m) + Objects(read), o, false) ==> o in m1.bits && m1.bits[o].mark)
    && (forall o :: o in m1.bits && m1.bits[o].Black() ==>
          LedTo(c.g, Pending(c.m) + Objects(read) + RootTargets(c.g), o, true))
  }

  ghost predicate May(w: World, e: Event) {
    match e
    case Step(a) => (w.marking || OfProgram(a)) && Enabled(w.c, a)
    case BeginCycle => !w.marking
    case Recover(m) => w.marking && Recovered(w.c, m)
    case Collect(read, m) => w.marking && Collected(w.c, read, m)
  }

  ghost function After(w: World, e: Event): World
    requires May(w, e)
  {
    match e
    case Step(a) => w.(c := Next(w.c, a))
    case BeginCycle => World(w.c.(allowed := ObtainableSet(w.c.g)), true)
    case Recover(m) => w.(c := w.c.(m := m))
    case Collect(_, m) => World(w.c.(g := SweptGraph(w.c.g, m.bits), m := SweptMarks(m)), false)
  }

  ghost predicate WorldOk(w: World) {
    if w.marking then Safe(w.c) else Idle(w.c.g, w.c.m)
  }

  // ----- one event -----

  lemma IdleStep(c: Cycle, a: Action)
    requires Idle(c.g, c.m) && OfProgram(a) && Enabled(c, a)
    ensures Idle(Next(c, a).g, Next(c, a).m)
  {
    hide Obtainable, MayAllocate, IsRoot, GraphOk;
    match a
    case StoreField(o, slot, value, d) =>
      StoreReady(c.g, c.m, false, c.allowed);
      assert Trap(c.m, o, d) == c.m;
      IdleStore(c.g, c.m, o, slot, value);
    case NewObject(o, hasPointers, size) => IdleAlloc(c.g, c.m, o, hasPointers, size);
    case DeleteObject(o) => IdleFree(c.g, c.m, o);
    case HoldWeakly(o) =>
      StoreReady(c.g, c.m, false, c.allowed);
      IdleWeak(c.g, c.m, o);
    case ChangeRoots(roots, stack) =>
      RootsReady(c.g, c.g.(roots := roots, nativeStack := stack), c.m, false, c.allowed);
  }

  /** Every event leaves the collector in a proper state, between cycles or within one. */
  lemma EventKeeps(w: World, e: Event)
    requires WorldOk(w) && May(w, e)
    ensures WorldOk(After(w, e))
  {
    hide Enabled, Next, ObtainableSet, Sound, TricolorExcept, OnlyObjects, GraphOk, LedTo;
    match e
    case Step(a) => if w.marking { StepKeeps(w.c, a); } else { IdleStep(w.c, a); }
    case BeginCycle => CycleStart(w.c.g, w.c.m);
    case Recover(m) =>
    case Collect(read, m) => SweepIdle(w.c.g, m, w.c.allowed);
  }

  // ----- runs -----

  ghost predicate Legal(w: World, run: seq<Event>)
    decreases |run|, 0
  {
    run != [] ==> Legal(w, run[..|run| - 1]) && May(Run(w, run[..|run| - 1]), run[|run| - 1])
  }

  ghost function Run(w: World, run: seq<Event>): World
    requires Legal(w, run)
    decreases |run|, 1
  {
    if run == [] then w else After(Run(w, run[..|run| - 1]), run[|run| - 1])
  }

  /** The objects allocated in a run. */
  ghost function BornIn(run: seq<Event>): set<Obj> {
    if run == [] then {}
    else
      var e := run[|run| - 1];
      BornIn(run[..|run| - 1]) + if e.Step? && e.a.NewObject? then {e.a.o} else {}
  }

  /** Whatever has happened, cycle after cycle, the collector is in a proper state. */
  lemma {:induction false} EveryRunKeeps(w: World, run: seq<Event>)
    requires WorldOk(w) && Legal(w, run)
    ensures WorldOk(Run(w, run))
    decreases |run|
  {
    hide WorldOk, May, After;
    if run != [] {
      EveryRunKeeps(w, run[..|run| - 1]);
      EventKeeps(Run(w, run[..|run| - 1]), run[|run| - 1]);
    }
  }

  /** A run within one cycle. */
  predicate WithinCycle(run: seq<Event>) {
    forall i :: 0 <= i < |run| ==> run[i].Step? || run[i].Recover?
  }

  lemma {:induction false} CycleBound(w: World, run: seq<Event>)
    requires w.marking && WorldOk(w) && Legal(w, run) && WithinCycle(run)
    ensures Run(w, run).marking && Run(w, run).c.allowed == w.c.allowed + BornIn(run)
    decreases |run|
  {
    if run != [] {
      var n := |run| - 1;
      EveryRunKeeps(w, run[..n]);
      CycleBound(w, run[..n]);
      hide WorldOk, Enabled, Legal, Run;
      OneStepBound(Run(w, run[..n]), run[n]);
    }
  }

  lemma OneStepBound(w: World, e: Event)
    requires w.marking && WorldOk(w) && May(w, e) && (e.Step? || e.Recover?)
    ensures After(w, e).marking
    ensures After(w, e).c.allowed == w.c.allowed + if e.Step? && e.a.NewObject? then {e.a.o} else {}
  {
    hide Enabled, Next, Invariant;
    if e.Step? {
      StepKeeps(w.c, e.a);
      assert Born([e.a]) == if e.a.NewObject? then {e.a.o} else {} by {
        assert Born([]) == {};
        assert [e.a][..0] == [];
      }
    }
  }

  /**
   One cycle from end to end, in any run: what is there after its sweep is what the
   program could get at when it began, or was born while it lasted; and all that can be
   reached when it ends, also from what its callbacks have read, is there with its
   contents.
   */
  lemma WholeCycle(w: World, run: seq<Event>, read: seq<Obj>, m1: Marks)
    requires WorldOk(w) && !w.marking && WithinCycle(run)
    requires Legal(After(w, BeginCycle), run) && May(Run(After(w, BeginCycle), run), Collect(read, m1))
    ensures var end := Run(After(w, BeginCycle), run); var swept := After(end, Collect(read, m1));
      && WorldOk(swept) && !swept.marking
      && (forall o :: o in swept.c.m.bits && swept.c.m.bits[o].White() ==> o in ObtainableSet(w.c.g) || o in BornIn(run))
      && (forall o :: Reachable(end.c.g.(nativeStack := end.c.g.nativeStack + read), o) ==>
            && o in end.c.m.bits && o in swept.c.m.bits && o in end.c.g.fields && o in swept.c.g.fields
            && (end.c.m.bits[o].Free() <==> swept.c.m.bits[o].Free())
            && (!end.c.m.bits[o].Free() ==> swept.c.g.fields[o] == end.c.g.fields[o]))
      && SurvivorsOf(end.c.g, end.c.m.bits, swept.c.m.bits, Pending(end.c.m) + Objects(read))
      // the weak references that are left are those to what has not been freed
      && (forall o :: o in swept.c.g.weak <==> o in end.c.g.weak && o in swept.c.m.bits && !swept.c.m.bits[o].Free())
  {
    var start := After(w, BeginCycle);
    var end := Run(start, run);
    var c := end.c;
    EventKeeps(w, BeginCycle);
    EveryRunKeeps(start, run);
    CycleBound(start, run);
    EventKeeps(end, Collect(read, m1));
    hide Run, Legal, ObtainableSet, Reachable, LedTo, SurvivorsOf, Pending, RootTargets;
    assert Safe(c) && Collected(c, read, m1);
    CollectedSurvivors(c, read, m1);
  }

  lemma CollectedSurvivors(c: Cycle, read: seq<Obj>, m1: Marks)
    requires Safe(c) && Collected(c, read, m1)
    ensures forall o :: Reachable(c.g.(nativeStack := c.g.nativeStack + read), o) ==>
      && o in c.m.bits && o in SweptBits(m1.bits) && o in c.g.fields && o in SweptGraph(c.g, m1.bits).fields
      && (c.m.bits[o].Free() <==> SweptBits(m1.bits)[o].Free())
      && (!c.m.bits[o].Free() ==> SweptGraph(c.g, m1.bits).fields[o] == c.g.fields[o])
    ensures forall o :: o in SweptBits(m1.bits) && SweptBits(m1.bits)[o].White() ==> o in c.allowed
    ensures SurvivorsOf(c.g, c.m.bits, SweptBits(m1.bits), Pending(c.m) + Objects(read))
    ensures forall o :: o in SweptGraph(c.g, m1.bits).weak <==>
      o in c.g.weak && o in SweptBits(m1.bits) && !SweptBits(m1.bits)[o].Free()
  {
    var g, m := c.g, c.m;
    assert GraphOk(g, m.bits) && m.inc == [] && m.bar == [];
    NothingLeftQueued(g, m, c.allowed);
    NothingLeftQueued(g, m1, c.allowed);
    WeakLeft(g, m1, c.allowed);
    DarkerStart(m.bits);
    DoneRootsMarked(g, m);
    hide GraphOk, Invariant, TricolorExcept, Reachable, LedTo, SurvivorsOf, Pending, RootTargets, MarkingDone,
      RootPointersIn, Darker, MarksStay;
    ReadIsMarked(g, Pending(m), read, m1);
    Survivors(g, m, m, m1, read, c.allowed);
    SweptExactly(g, m, m, m1, Pending(m) + Objects(read));
  }
}
